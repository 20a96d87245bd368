/** The table of the variants that a generic function has been filled with. */
module GenericVariants {
  import opened Wrappers

  /** What fills a generic parameter: a type or a constant. */
  datatype Fill<T, C> = TypeFill(ty: T) | PrerunFill(constant: C)

  /** What the table asks of types and constants. */
  datatype World<!T, !C> = World(
    isSame: (T, T) -> bool,
    typeOf: C -> T,
    isTyped: T -> bool,                    // the type of constants that stand for types
    typeMeant: C -> T,                     // the type that such a constant stands for
    equalityOf: (C, C) -> Option<bool>)

  /** A parameter; a constant parameter may itself expect a type. */
  datatype Param<T, C> = Param(expectsType: bool, expectsTyped: bool, default: Option<Fill<T, C>>)

  datatype Variant<T, C> = Variant(entity: nat, fills: seq<Fill<T, C>>)

  // ---------------------------------------------------------------------------
  // Comparing fills

  predicate SameFill<T, C>(w: World<T, C>, genTy: Fill<T, C>, dest: Fill<T, C>) {
    match genTy
    case TypeFill(t) =>
      (match dest
       case TypeFill(u) => w.isSame(t, u)
       case PrerunFill(c) => w.isTyped(w.typeOf(c)) && w.isSame(t, w.typeMeant(c)))
    case PrerunFill(genExp) =>
      (match dest
       case PrerunFill(destExp) =>
         if w.isTyped(w.typeOf(genExp)) then
           w.isTyped(w.typeOf(destExp)) && w.isSame(w.typeMeant(genExp), w.typeMeant(destExp))
         else w.isSame(w.typeOf(genExp), w.typeOf(destExp)) && w.equalityOf(genExp, destExp) == Some(true)
       case TypeFill(u) => w.isTyped(w.typeOf(genExp)) && w.isSame(u, w.typeMeant(genExp)))
  }

  ghost predicate SameFills<T, C>(w: World<T, C>, a: seq<Fill<T, C>>, b: seq<Fill<T, C>>) {
    |a| == |b| && forall i :: 0 <= i < |a| ==> SameFill(w, a[i], b[i])
  }

  method Check<T, C>(w: World<T, C>, genericTypes: seq<Fill<T, C>>, dest: seq<Fill<T, C>>) returns (same: bool)
    ensures same <==> SameFills(w, genericTypes, dest)
  {
    if |genericTypes| != |dest| {
      return false;
    }
    for i := 0 to |genericTypes|
      invariant forall k :: 0 <= k < i ==> SameFill(w, genericTypes[k], dest[k])
    {
      if !SameFill(w, genericTypes[i], dest[i]) {
        return false;
      }
    }
    return true;
  }

  // ---------------------------------------------------------------------------
  // When comparing fills is an equivalence

  /** A constant that does not stand for a type. */
  ghost predicate IsValue<T, C>(w: World<T, C>, c: C) {
    !w.isTyped(w.typeOf(c))
  }

  /** Sameness of types is an equivalence that respects which types stand for types. */
  ghost predicate TypesAreSane<T(!new), C>(w: World<T, C>) {
    && (forall t :: w.isSame(t, t))
    && (forall t, u :: w.isSame(t, u) ==> w.isSame(u, t))
    && (forall t, u, v {:trigger w.isSame(t, u), w.isSame(u, v)} :: w.isSame(t, u) && w.isSame(u, v) ==> w.isSame(t, v))
    && (forall t, u :: w.isSame(t, u) ==> (w.isTyped(t) <==> w.isTyped(u)))
  }

  /** Equality of values is an equivalence where it is asked for. */
  ghost predicate ValuesAreSane<T, C(!new)>(w: World<T, C>) {
    && (forall c :: IsValue(w, c) ==> w.equalityOf(c, c) == Some(true))
    && (forall c, d :: w.equalityOf(c, d) == Some(true) ==> w.equalityOf(d, c) == Some(true))
    && (forall c, d, e {:trigger w.equalityOf(c, d), w.equalityOf(d, e)} ::
          w.equalityOf(c, d) == Some(true) && w.equalityOf(d, e) == Some(true) ==> w.equalityOf(c, e) == Some(true))
  }

  ghost predicate Sane<T(!new), C(!new)>(w: World<T, C>) {
    TypesAreSane(w) && ValuesAreSane(w)
  }

  /** The type that a fill stands for, if it stands for one. */
  ghost function Meaning<T, C>(w: World<T, C>, f: Fill<T, C>): Option<T> {
    match f
    case TypeFill(t) => Some(t)
    case PrerunFill(c) => if w.isTyped(w.typeOf(c)) then Some(w.typeMeant(c)) else None
  }

  /** Fills are compared by what they stand for: a type and a constant that means it are the same. */
  lemma SameFillIsSameMeaning<T(!new), C(!new)>(w: World<T, C>, a: Fill<T, C>, b: Fill<T, C>)
    requires Sane(w)
    ensures SameFill(w, a, b) <==>
      match (Meaning(w, a), Meaning(w, b))
      case (Some(t), Some(u)) => w.isSame(t, u)
      case (None, None) =>
        w.isSame(w.typeOf(a.constant), w.typeOf(b.constant)) && w.equalityOf(a.constant, b.constant) == Some(true)
      case _ => false
  {
  }

  lemma SameFillIsEquivalence<T(!new), C(!new)>(w: World<T, C>, a: Fill<T, C>, b: Fill<T, C>, c: Fill<T, C>)
    requires Sane(w)
    ensures SameFill(w, a, a)
    ensures SameFill(w, a, b) ==> SameFill(w, b, a)
    ensures SameFill(w, a, b) && SameFill(w, b, c) ==> SameFill(w, a, c)
  {
    SameFillIsSameMeaning(w, a, a);
    SameFillIsSameMeaning(w, a, b);
    SameFillIsSameMeaning(w, b, a);
    SameFillIsSameMeaning(w, b, c);
    SameFillIsSameMeaning(w, a, c);
  }

  /** Comparing lists of fills is an equivalence. */
  lemma CheckIsEquivalence<T(!new), C(!new)>(
      w: World<T, C>, a: seq<Fill<T, C>>, b: seq<Fill<T, C>>, c: seq<Fill<T, C>>)
    requires Sane(w)
    ensures SameFills(w, a, a)
    ensures SameFills(w, a, b) <==> SameFills(w, b, a)
    ensures SameFills(w, a, b) && SameFills(w, b, c) ==> SameFills(w, a, c)
  {
    hide SameFill, Sane;
    forall x: Fill<T, C>, y: Fill<T, C>, z: Fill<T, C>
      ensures SameFill(w, x, x)
      ensures SameFill(w, x, y) ==> SameFill(w, y, x)
      ensures SameFill(w, x, y) && SameFill(w, y, z) ==> SameFill(w, x, z)
    {
      SameFillIsEquivalence(w, x, y, z);
    }
  }

  // ---------------------------------------------------------------------------
  // Filling the parameters of a request

  /** What fills a parameter, or nothing if that is an error. */
  function FillOne<T, C>(w: World<T, C>, p: Param<T, C>, given: Option<Fill<T, C>>): Option<Fill<T, C>> {
    match given
    case None => p.default
    case Some(TypeFill(t)) => if p.expectsType || p.expectsTyped then given else None
    case Some(PrerunFill(c)) => if p.expectsType && !w.isTyped(w.typeOf(c)) then None else given
  }

  function Given<T, C>(types: seq<Fill<T, C>>, i: nat): Option<Fill<T, C>> {
    if i < |types| then Some(types[i]) else None
  }

  /** The request with defaults appended, or nothing if some parameter cannot be filled. */
  function Completed<T, C>(
      w: World<T, C>, generics: seq<Param<T, C>>, types: seq<Fill<T, C>>, n: nat): Option<seq<Fill<T, C>>>
    requires n <= |generics|
    decreases n
  {
    if n == 0 then Some(types)
    else
      match Completed(w, generics, types, n - 1)
      case None => None
      case Some(list) =>
        match FillOne(w, generics[n - 1], Given(types, n - 1))
        case None => None
        case Some(f) => Some(if n - 1 < |types| then list else list + [f])
  }

  /** A request that fills every parameter is kept as it is. */
  lemma {:induction false} FullRequestIsKept<T, C>(
      w: World<T, C>, generics: seq<Param<T, C>>, types: seq<Fill<T, C>>, n: nat)
    requires n <= |generics| && Completed(w, generics, types, n).Some?
    ensures types <= Completed(w, generics, types, n).value
    ensures |Completed(w, generics, types, n).value| == if |types| >= n then |types| else n
    decreases n
  {
    if n > 0 {
      FullRequestIsKept(w, generics, types, n - 1);
    }
  }

  /** A fill is of the sort that a parameter expects. */
  ghost predicate Fits<T, C>(w: World<T, C>, p: Param<T, C>, f: Fill<T, C>) {
    && (p.expectsType ==> Meaning(w, f).Some?)
    && (!p.expectsType && !p.expectsTyped ==> f.PrerunFill?)
  }

  /**
   A request is completed exactly when what it gives fits the parameters and the parameters that it
   does not fill have defaults; defaults are then taken in the order of the parameters.
   */
  lemma {:induction false} CompletedWhenFitting<T, C>(
      w: World<T, C>, generics: seq<Param<T, C>>, types: seq<Fill<T, C>>, n: nat)
    requires n <= |generics|
    ensures Completed(w, generics, types, n).Some? <==>
      forall i :: 0 <= i < n ==> if i < |types| then Fits(w, generics[i], types[i]) else generics[i].default.Some?
    ensures Completed(w, generics, types, n).Some? ==>
      |types| <= |Completed(w, generics, types, n).value| == (if |types| >= n then |types| else n)
    ensures Completed(w, generics, types, n).Some? ==>
      forall i :: |types| <= i < n ==> Some(Completed(w, generics, types, n).value[i]) == generics[i].default
    decreases n
  {
    if n > 0 {
      CompletedWhenFitting(w, generics, types, n - 1);
    }
  }

  method FillParameters<T, C>(w: World<T, C>, generics: seq<Param<T, C>>, types: seq<Fill<T, C>>)
    returns (filled: Option<seq<Fill<T, C>>>)
    ensures filled == Completed(w, generics, types, |generics|)
  {
    var list := types;
    for i := 0 to |generics|
      invariant Completed(w, generics, types, i) == Some(list)
    {
      var fill := FillOne(w, generics[i], Given(types, i));
      if fill.None? {
        NeverCompleted(w, generics, types, i + 1, |generics|);
        return None;
      }
      if i >= |types| {
        list := list + [fill.value];
      }
    }
    return Some(list);
  }

  lemma {:induction false} NeverCompleted<T, C>(
      w: World<T, C>, generics: seq<Param<T, C>>, types: seq<Fill<T, C>>, k: nat, n: nat)
    requires k <= n <= |generics| && Completed(w, generics, types, k).None?
    ensures Completed(w, generics, types, n).None?
    decreases n
  {
    if k < n {
      NeverCompleted(w, generics, types, k, n - 1);
    }
  }

  // ---------------------------------------------------------------------------
  // The table

  /** A generic function: its parameters and the constraint that they have to satisfy. */
  datatype Generic<!T, !C> = Generic(
    world: World<T, C>, generics: seq<Param<T, C>>, constraint: seq<Fill<T, C>> -> bool)

  /** The variants made so far and the number of functions created. */
  datatype Table<T, C> = Table(variants: seq<Variant<T, C>>, created: nat)

  /** The function of the first variant that a request matches. */
  ghost function FirstMatch<T, C>(w: World<T, C>, variants: seq<Variant<T, C>>, types: seq<Fill<T, C>>): Option<nat> {
    if variants == [] then None
    else if SameFills(w, variants[0].fills, types) then Some(variants[0].entity)
    else FirstMatch(w, variants[1..], types)
  }

  /** What becomes of the table when a variant is requested. */
  ghost function Request<T, C>(g: Generic<T, C>, table: Table<T, C>, types: seq<Fill<T, C>>): Table<T, C> {
    if FirstMatch(g.world, table.variants, types).Some? then table
    else
      match Completed(g.world, g.generics, types, |g.generics|)
      case None => table
      case Some(list) =>
        if !g.constraint(list) then table
        else Table(table.variants + [Variant(table.created, list)], table.created + 1)
  }

  /** What a request returns; nothing stands for an error. */
  ghost function Answer<T, C>(g: Generic<T, C>, table: Table<T, C>, types: seq<Fill<T, C>>): Option<nat> {
    var hit := FirstMatch(g.world, table.variants, types);
    if hit.Some? then hit
    else
      match Completed(g.world, g.generics, types, |g.generics|)
      case None => None
      case Some(list) => if g.constraint(list) then Some(table.created) else None
  }

  class GenericFunction<T, C> {
    const generic: Generic<T, C>
    var variants: seq<Variant<T, C>>
    var created: nat

    constructor (generic: Generic<T, C>)
      ensures this.generic == generic && CurrentTable() == Table([], 0)
    {
      this.generic := generic;
      variants, created := [], 0;
    }

    ghost function CurrentTable(): Table<T, C>
      reads this
    {
      Table(variants, created)
    }

    /** The variant for a request, which is created unless there is one already. */
    method FillGenerics(types: seq<Fill<T, C>>) returns (fun: Option<nat>)
      modifies this`variants, this`created
      ensures fun == Answer(generic, old(CurrentTable()), types)
      ensures CurrentTable() == Request(generic, old(CurrentTable()), types)
    {
      for i := 0 to |variants|
        invariant variants == old(variants) && created == old(created)
        invariant FirstMatch(generic.world, variants, types) == FirstMatch(generic.world, variants[i..], types)
      {
        var same := Check(generic.world, variants[i].fills, types);
        assert variants[i..][1..] == variants[i + 1..];
        if same {
          return Some(variants[i].entity);
        }
      }
      var filled := FillParameters(generic.world, generic.generics, types);
      if filled.None? || !generic.constraint(filled.value) {
        return None;
      }
      fun := Some(created);
      variants := variants + [Variant(created, filled.value)];
      created := created + 1;
    }
  }

  // ---------------------------------------------------------------------------
  // Over many requests

  /** Stored variants are inequivalent, and each has a function of its own. */
  ghost predicate PairwiseInequivalent<T, C>(w: World<T, C>, variants: seq<Variant<T, C>>) {
    forall i, j :: 0 <= i < j < |variants| ==> !SameFills(w, variants[i].fills, variants[j].fills)
  }

  ghost predicate OwnFunctions<T, C>(table: Table<T, C>) {
    && (forall v :: v in table.variants ==> v.entity < table.created)
    && (forall i, j :: 0 <= i < j < |table.variants| ==> table.variants[i].entity != table.variants[j].entity)
  }

  ghost predicate Holds<T, C>(w: World<T, C>, table: Table<T, C>, entity: nat, types: seq<Fill<T, C>>) {
    exists v :: v in table.variants && v.entity == entity && SameFills(w, v.fills, types)
  }

  lemma {:induction false} FirstMatchIsAMatch<T, C>(
      w: World<T, C>, variants: seq<Variant<T, C>>, types: seq<Fill<T, C>>)
    ensures FirstMatch(w, variants, types).None? <==> forall v :: v in variants ==> !SameFills(w, v.fills, types)
    ensures FirstMatch(w, variants, types).Some? ==>
      exists v :: v in variants && v.entity == FirstMatch(w, variants, types).value && SameFills(w, v.fills, types)
  {
    if variants != [] {
      FirstMatchIsAMatch(w, variants[1..], types);
      assert forall v :: v in variants <==> v == variants[0] || v in variants[1..];
    }
  }

  /** A function is created for a request exactly when none of the stored variants matches it. */
  lemma RequestKeepsInequivalent<T(!new), C(!new)>(g: Generic<T, C>, table: Table<T, C>, types: seq<Fill<T, C>>)
    requires Sane(g.world) && PairwiseInequivalent(g.world, table.variants) && OwnFunctions(table)
    requires |types| >= |g.generics|
    ensures PairwiseInequivalent(g.world, Request(g, table, types).variants)
    ensures OwnFunctions(Request(g, table, types))
    ensures table.variants <= Request(g, table, types).variants && table.created <= Request(g, table, types).created
    ensures Answer(g, table, types).Some? ==>
      Holds(g.world, Request(g, table, types), Answer(g, table, types).value, types)
      && Answer(g, table, types).value < Request(g, table, types).created
  {
    FirstMatchIsAMatch(g.world, table.variants, types);
    var after := Request(g, table, types);
    if after != table {
      FullRequestIsKept(g.world, g.generics, types, |g.generics|);
      var last := after.variants[|table.variants|];
      assert last.fills == types;
      CheckIsEquivalence(g.world, types, types, types);
      assert last in after.variants;
      assert forall i :: 0 <= i < |table.variants| ==> after.variants[i] in table.variants;
    }
  }

  /** While stored variants are inequivalent, the function that a request gets is determined by its match. */
  lemma MatchIsUnique<T(!new), C(!new)>(g: Generic<T, C>, table: Table<T, C>, entity: nat, types: seq<Fill<T, C>>)
    requires Sane(g.world) && PairwiseInequivalent(g.world, table.variants) && OwnFunctions(table)
    ensures Holds(g.world, table, entity, types) <==> FirstMatch(g.world, table.variants, types) == Some(entity)
  {
    FirstMatchIsAMatch(g.world, table.variants, types);
    if Holds(g.world, table, entity, types) {
      var v :| v in table.variants && v.entity == entity && SameFills(g.world, v.fills, types);
      var u :| u in table.variants && u.entity == FirstMatch(g.world, table.variants, types).value
        && SameFills(g.world, u.fills, types);
      CheckIsEquivalence(g.world, u.fills, types, v.fills);
      CheckIsEquivalence(g.world, v.fills, types, u.fills);
      var i :| 0 <= i < |table.variants| && table.variants[i] == u;
      var j :| 0 <= j < |table.variants| && table.variants[j] == v;
    }
  }

  /** The table after several requests. */
  ghost function After<T, C>(g: Generic<T, C>, table: Table<T, C>, requests: seq<seq<Fill<T, C>>>): Table<T, C>
    decreases |requests|
  {
    if requests == [] then table
    else Request(g, After(g, table, requests[..|requests| - 1]), requests[|requests| - 1])
  }

  /** What the request number `i` returned. */
  ghost function AnswerTo<T, C>(
      g: Generic<T, C>, table: Table<T, C>, requests: seq<seq<Fill<T, C>>>, i: nat): Option<nat>
    requires i < |requests|
  {
    Answer(g, After(g, table, requests[..i]), requests[i])
  }

  ghost predicate AllFull<T, C>(g: Generic<T, C>, requests: seq<seq<Fill<T, C>>>) {
    forall r :: r in requests ==> |r| >= |g.generics|
  }

  lemma {:induction false} TableStaysInequivalent<T(!new), C(!new)>(
      g: Generic<T, C>, table: Table<T, C>, requests: seq<seq<Fill<T, C>>>)
    requires Sane(g.world) && PairwiseInequivalent(g.world, table.variants) && OwnFunctions(table)
    requires AllFull(g, requests)
    ensures PairwiseInequivalent(g.world, After(g, table, requests).variants)
    ensures OwnFunctions(After(g, table, requests))
    decreases |requests|
  {
    if requests != [] {
      var n := |requests| - 1;
      TableStaysInequivalent(g, table, requests[..n]);
      RequestKeepsInequivalent(g, After(g, table, requests[..n]), requests[n]);
    }
  }

  /** What a table holds, it goes on holding. */
  lemma {:induction false} TableGrows<T(!new), C(!new)>(
      g: Generic<T, C>, table: Table<T, C>, requests: seq<seq<Fill<T, C>>>, i: nat)
    requires Sane(g.world) && PairwiseInequivalent(g.world, table.variants) && OwnFunctions(table)
    requires AllFull(g, requests) && i <= |requests|
    ensures After(g, table, requests[..i]).variants <= After(g, table, requests).variants
    ensures After(g, table, requests[..i]).created <= After(g, table, requests).created
    decreases |requests|
  {
    hide Request, Sane, PairwiseInequivalent, OwnFunctions;
    var n := |requests| - 1;
    if i == |requests| {
      assert requests[..i] == requests;
    } else {
      assert requests[..n][..i] == requests[..i];
      TableGrows(g, table, requests[..n], i);
      TableStaysInequivalent(g, table, requests[..n]);
      RequestKeepsInequivalent(g, After(g, table, requests[..n]), requests[n]);
    }
  }

  /**
   Of two requests that fill every parameter, the later one gets the function of the earlier one
   exactly when the two are equivalent, whatever was requested before and in between.
   */
  lemma EquivalentRequestsShareVariants<T(!new), C(!new)>(
      g: Generic<T, C>, table: Table<T, C>, requests: seq<seq<Fill<T, C>>>, i: nat, j: nat)
    requires Sane(g.world) && PairwiseInequivalent(g.world, table.variants) && OwnFunctions(table)
    requires AllFull(g, requests) && i < j < |requests|
    requires AnswerTo(g, table, requests, i).Some?
    ensures AnswerTo(g, table, requests, j) == AnswerTo(g, table, requests, i) <==>
      SameFills(g.world, requests[i], requests[j])
  {
    hide Request, Answer, SameFills, Sane, PairwiseInequivalent, OwnFunctions, Holds, FirstMatch;
    var before, between := After(g, table, requests[..i]), After(g, table, requests[..j]);
    var entity := AnswerTo(g, table, requests, i).value;
    TableStaysInequivalent(g, table, requests[..i]);
    TableStaysInequivalent(g, table, requests[..j]);
    RequestKeepsInequivalent(g, before, requests[i]);
    assert requests[..j][..i + 1] == requests[..i + 1] && requests[..i + 1][..i] == requests[..i];
    assert After(g, table, requests[..i + 1]) == Request(g, before, requests[i]);
    TableGrows(g, table, requests[..j], i + 1);
    LaterAnswer(g, Request(g, before, requests[i]), between, entity, requests[i], requests[j]);
  }

  /** A request made to a table that holds a function for another request. */
  lemma LaterAnswer<T(!new), C(!new)>(
      g: Generic<T, C>, earlier: Table<T, C>, later: Table<T, C>, entity: nat, types: seq<Fill<T, C>>,
      types': seq<Fill<T, C>>)
    requires Sane(g.world) && PairwiseInequivalent(g.world, later.variants) && OwnFunctions(later)
    requires earlier.variants <= later.variants && entity < earlier.created <= later.created
    requires Holds(g.world, earlier, entity, types)
    ensures Answer(g, later, types') == Some(entity) <==> SameFills(g.world, types, types')
  {
    hide SameFills, Sane, PairwiseInequivalent, FirstMatch;
    var v :| v in earlier.variants && v.entity == entity && SameFills(g.world, v.fills, types);
    assert v in later.variants;
    MatchIsUnique(g, later, entity, types');
    CheckIsEquivalence(g.world, v.fills, types, types');
    CheckIsEquivalence(g.world, types, v.fills, types');
    if Holds(g.world, later, entity, types') {
      var u :| u in later.variants && u.entity == entity && SameFills(g.world, u.fills, types');
      assert u == v;
    }
  }

  // ---------------------------------------------------------------------------
  // Requests that rely on defaults

  /** Every stored list is at least as long as the list of parameters. */
  ghost predicate StoredAreFull<T, C>(g: Generic<T, C>, table: Table<T, C>) {
    forall v :: v in table.variants ==> |v.fills| >= |g.generics|
  }

  lemma RequestStoresFull<T, C>(g: Generic<T, C>, table: Table<T, C>, types: seq<Fill<T, C>>)
    requires StoredAreFull(g, table)
    ensures StoredAreFull(g, Request(g, table, types))
  {
    if Completed(g.world, g.generics, types, |g.generics|).Some? {
      FullRequestIsKept(g.world, g.generics, types, |g.generics|);
    }
  }

  /**
   A request that relies on defaults is never answered from the table. The variant that it makes
   leaves the stored variants inequivalent exactly when none of them matches the completed list,
   which is not looked up.
   */
  lemma ShortRequestsMiss<T(!new), C(!new)>(g: Generic<T, C>, table: Table<T, C>, types: seq<Fill<T, C>>)
    requires Sane(g.world) && PairwiseInequivalent(g.world, table.variants) && StoredAreFull(g, table)
    requires |types| < |g.generics| && Answer(g, table, types).Some?
    ensures Answer(g, table, types) == Some(table.created)
    ensures Completed(g.world, g.generics, types, |g.generics|).Some?
    ensures PairwiseInequivalent(g.world, Request(g, table, types).variants) <==>
      FirstMatch(g.world, table.variants, Completed(g.world, g.generics, types, |g.generics|).value).None?
  {
    FirstMatchIsAMatch(g.world, table.variants, types);
    var list := Completed(g.world, g.generics, types, |g.generics|).value;
    FirstMatchIsAMatch(g.world, table.variants, list);
    var after := Request(g, table, types).variants;
    assert forall i :: 0 <= i < |table.variants| ==> after[i] in table.variants && after[i] == table.variants[i];
    assert after[|table.variants|].fills == list;
  }

  /** So the same request made twice leaves two equivalent variants. */
  lemma {:induction false} ShortRequestTwice<T(!new), C(!new)>(g: Generic<T, C>, types: seq<Fill<T, C>>)
    requires Sane(g.world) && |types| < |g.generics|
    requires Completed(g.world, g.generics, types, |g.generics|).Some?
    requires g.constraint(Completed(g.world, g.generics, types, |g.generics|).value)
    ensures var once := Request(g, Table([], 0), types);
      Answer(g, once, types) != Answer(g, Table([], 0), types)
      && !PairwiseInequivalent(g.world, Request(g, once, types).variants)
  {
    var once := Request(g, Table([], 0), types);
    RequestStoresFull(g, Table([], 0), types);
    var list := Completed(g.world, g.generics, types, |g.generics|).value;
    FirstMatchIsAMatch(g.world, once.variants, types);
    FirstMatchIsAMatch(g.world, once.variants, list);
    CheckIsEquivalence(g.world, list, list, list);
    ShortRequestsMiss(g, once, types);
  }

  // ---------------------------------------------------------------------------
  // The constraint

  /** Everything that was created satisfies the constraint. */
  ghost predicate AllSatisfy<T, C>(g: Generic<T, C>, table: Table<T, C>) {
    forall v :: v in table.variants ==> g.constraint(v.fills)
  }

  /** So it stays, whatever is requested. */
  lemma {:induction false} OnlySatisfyingAreStored<T, C>(
      g: Generic<T, C>, table: Table<T, C>, requests: seq<seq<Fill<T, C>>>)
    requires AllSatisfy(g, table)
    ensures AllSatisfy(g, After(g, table, requests))
    decreases |requests|
  {
    hide Completed, FirstMatch;
    if requests != [] {
      var n := |requests| - 1;
      OnlySatisfyingAreStored(g, table, requests[..n]);
    }
  }

  /**
   A request that fills every parameter gets something exactly when some stored variant matches it, or
   when it fits the parameters and satisfies the constraint. If it gets nothing, nothing is stored.
   */
  lemma FullRequestIsGranted<T, C>(g: Generic<T, C>, table: Table<T, C>, types: seq<Fill<T, C>>)
    requires |types| >= |g.generics|
    ensures Answer(g, table, types).Some? <==>
      || (exists v :: v in table.variants && SameFills(g.world, v.fills, types))
      || ((forall i :: 0 <= i < |g.generics| ==> Fits(g.world, g.generics[i], types[i])) && g.constraint(types))
    ensures Answer(g, table, types).None? ==> Request(g, table, types) == table
  {
    hide SameFills, Fits;
    FirstMatchIsAMatch(g.world, table.variants, types);
    CompletedWhenFitting(g.world, g.generics, types, |g.generics|);
    if Completed(g.world, g.generics, types, |g.generics|).Some? {
      FullRequestIsKept(g.world, g.generics, types, |g.generics|);
      assert Completed(g.world, g.generics, types, |g.generics|).value == types;
    }
  }

  /** Where equivalent lists satisfy the constraint alike, a full request that violates it gets nothing. */
  lemma ViolationsGetNothing<T(!new), C(!new)>(g: Generic<T, C>, requests: seq<seq<Fill<T, C>>>, i: nat)
    requires i < |requests| && |requests[i]| >= |g.generics| && !g.constraint(requests[i])
    requires forall x, y :: SameFills(g.world, x, y) ==> g.constraint(x) == g.constraint(y)
    ensures AnswerTo(g, Table([], 0), requests, i).None?
  {
    hide Answer, After, SameFills;
    OnlySatisfyingAreStored(g, Table([], 0), requests[..i]);
    FullRequestIsGranted(g, After(g, Table([], 0), requests[..i]), requests[i]);
  }
}
