/**
 Lookup of functions by name over submodules and imports. The other kinds of entities are looked up
 the same way. A module is identified by a number; `acc` says which visibilities are accessible
 to the one who asks.
 */
module ModuleLookup {
  import opened Wrappers

  datatype Func<V> = Func(id: nat, name: string, visibility: V)

  datatype Brought<V> = Brought(name: Option<string>, entity: Func<V>, visibility: V)

  datatype BroughtModule = BroughtModule(name: Option<string>, mod: nat)

  datatype Mod<V> = Mod(
    isLib: bool,                           // only these are named in paths
    functions: seq<Func<V>>,
    submodules: seq<nat>,
    broughtFunctions: seq<Brought<V>>,
    broughtModules: seq<BroughtModule>)

  type Graph<V> = map<nat, Mod<V>>

  // ---------------------------------------------------------------------------
  // The graph

  /** A submodule that is searched as if its entities were those of the module around it. */
  predicate SearchesSub<V>(g: Graph<V>, m: nat, i: nat)
    requires m in g && i < |g[m].submodules| && g[m].submodules[i] in g
  {
    !g[g[m].submodules[i]].isLib
  }

  /** An import that is searched when a name is not found closer by. */
  predicate SearchesImport<V>(g: Graph<V>, m: nat, i: nat)
    requires m in g && i < |g[m].broughtModules| && g[m].broughtModules[i].mod in g
  {
    g[m].broughtModules[i].name.None? && !g[g[m].broughtModules[i].mod].isLib
  }

  ghost predicate Closed<V>(g: Graph<V>) {
    forall m :: m in g ==>
      && (forall i :: 0 <= i < |g[m].submodules| ==> g[m].submodules[i] in g)
      && (forall i :: 0 <= i < |g[m].broughtModules| ==> g[m].broughtModules[i].mod in g)
  }

  /** Searching goes from `m` to `n`: a submodule, or an import without a name, that is not a library. */
  ghost predicate Edge<V>(g: Graph<V>, m: nat, n: nat)
    requires Closed(g)
  {
    && m in g
    && (n in g[m].submodules || BroughtModule(None, n) in g[m].broughtModules)
    && !g[n].isLib
  }

  /** `rank` shows that the modules that searching goes through form no cycle. */
  ghost predicate Acyclic<V>(g: Graph<V>, rank: map<nat, nat>) {
    && Closed(g) && g.Keys <= rank.Keys
    && (forall m, n {:trigger Edge(g, m, n)} :: m in g && n in g && Edge(g, m, n) ==> rank[n] < rank[m])
  }

  ghost predicate Path<V>(g: Graph<V>, path: seq<nat>)
    requires Closed(g)
  {
    path != [] && path[0] in g && forall i :: 0 <= i < |path| - 1 ==> Edge(g, path[i], path[i + 1])
  }

  ghost predicate Reaches<V>(g: Graph<V>, m: nat, n: nat)
    requires Closed(g)
  {
    exists path :: Path(g, path) && path[0] == m && path[|path| - 1] == n
  }

  // ---------------------------------------------------------------------------
  // Matches in one module

  predicate Declares<V>(f: Func<V>, name: string, acc: V -> bool) {
    f.name == name && acc(f.visibility)
  }

  predicate MatchBroughtEntity<V>(b: Brought<V>, candName: string, acc: V -> bool) {
    if b.name.Some? then b.name.value == candName && acc(b.visibility) && acc(b.entity.visibility)
    else b.entity.name == candName && acc(b.visibility) && acc(b.entity.visibility)
  }

  /**
   `f` is accessible and declared in the module under the name; or it is brought into it by an entry
   that is accessible, under the name of the entry or, if the entry has none, under its own.
   */
  ghost predicate OffersHere<V>(mod: Mod<V>, name: string, acc: V -> bool, f: Func<V>) {
    && acc(f.visibility)
    && ((f in mod.functions && f.name == name) || BringsUnder(mod, name, acc, f))
  }

  ghost predicate BringsUnder<V>(mod: Mod<V>, name: string, acc: V -> bool, f: Func<V>) {
    exists b :: b in mod.broughtFunctions && b.entity == f && acc(b.visibility)
      && (b.name == Some(name) || (b.name.None? && f.name == name))
  }

  /** Some module that searching reaches from `m` offers `f`. */
  ghost predicate Offers<V>(g: Graph<V>, m: nat, name: string, acc: V -> bool, f: Func<V>)
    requires Closed(g)
  {
    exists n :: n in g && Reaches(g, m, n) && OffersHere(g[n], name, acc, f)
  }

  // ---------------------------------------------------------------------------
  // The lookups

  /** The answer to a search; `Crash` is the use of a null pointer. */
  datatype Answer = Yes | No | Crash

  datatype Found<V> = Found(f: Func<V>) | Null | Crashed

  function FirstDeclared<V>(fs: seq<Func<V>>, name: string, acc: V -> bool): (first: Option<Func<V>>)
    ensures first.Some? ==> first.value in fs && Declares(first.value, name, acc)
    ensures first.None? ==> forall f :: f in fs ==> !Declares(f, name, acc)
  {
    if fs == [] then None
    else if Declares(fs[0], name, acc) then Some(fs[0])
    else FirstDeclared(fs[1..], name, acc)
  }

  function FirstBrought<V>(bs: seq<Brought<V>>, name: string, acc: V -> bool): (first: Option<Func<V>>)
    ensures first.Some? ==> exists b :: b in bs && MatchBroughtEntity(b, name, acc) && b.entity == first.value
    ensures first.None? ==> forall b :: b in bs ==> !MatchBroughtEntity(b, name, acc)
  {
    if bs == [] then None
    else if MatchBroughtEntity(bs[0], name, acc) then Some(bs[0].entity)
    else FirstBrought(bs[1..], name, acc)
  }

  function HasFunction<V>(g: Graph<V>, ghost rank: map<nat, nat>, m: nat, name: string, acc: V -> bool): Answer
    requires Acyclic(g, rank) && m in g
    decreases rank[m], 1, 0
  {
    if FirstDeclared(g[m].functions, name, acc).Some? then Yes
    else SubmodulesHave(g, rank, m, 0, name, acc)
  }

  function SubmodulesHave<V>(
      g: Graph<V>, ghost rank: map<nat, nat>, m: nat, i: nat, name: string, acc: V -> bool): Answer
    requires Acyclic(g, rank) && m in g && i <= |g[m].submodules|
    decreases rank[m], 0, |g[m].submodules| - i
  {
    if i == |g[m].submodules| then No
    else if !SearchesSub(g, m, i) then SubmodulesHave(g, rank, m, i + 1, name, acc)
    else
      var sub := g[m].submodules[i];
      assert Edge(g, m, sub);
      match HasAny(g, rank, sub, name, acc)
      case No => SubmodulesHave(g, rank, m, i + 1, name, acc)
      case answer => answer
  }

  predicate HasBroughtFunction<V>(g: Graph<V>, m: nat, name: string, acc: V -> bool)
    requires m in g
  {
    FirstBrought(g[m].broughtFunctions, name, acc).Some?
  }

  function HasFunctionInImports<V>(
      g: Graph<V>, ghost rank: map<nat, nat>, m: nat, i: nat, name: string, acc: V -> bool): Answer
    requires Acyclic(g, rank) && m in g && i <= |g[m].broughtModules|
    decreases rank[m], 0, |g[m].broughtModules| - i
  {
    if i == |g[m].broughtModules| then No
    else if !SearchesImport(g, m, i) then HasFunctionInImports(g, rank, m, i + 1, name, acc)
    else
      var bMod := g[m].broughtModules[i].mod;
      assert Edge(g, m, bMod);
      match HasAny(g, rank, bMod, name, acc)
      case Crash => Crash
      case No => HasFunctionInImports(g, rank, m, i + 1, name, acc)
      case Yes =>
        match GetFunction(g, rank, bMod, name, acc)
        case Found(f) => if acc(f.visibility) then Yes else HasFunctionInImports(g, rank, m, i + 1, name, acc)
        case _ => Crash
  }

  /** The three questions, asked in turn until one is answered with yes. */
  function HasAny<V>(g: Graph<V>, ghost rank: map<nat, nat>, m: nat, name: string, acc: V -> bool): Answer
    requires Acyclic(g, rank) && m in g
    decreases rank[m], 2, 0
  {
    match HasFunction(g, rank, m, name, acc)
    case No => if HasBroughtFunction(g, m, name, acc) then Yes else HasFunctionInImports(g, rank, m, 0, name, acc)
    case answer => answer
  }

  function GetFunction<V>(g: Graph<V>, ghost rank: map<nat, nat>, m: nat, name: string, acc: V -> bool): Found<V>
    requires Acyclic(g, rank) && m in g
    decreases rank[m], 2, 0
  {
    var declared := FirstDeclared(g[m].functions, name, acc);
    if declared.Some? then Found(declared.value)
    else
      match GetFromSubmodules(g, rank, m, 0, name, acc)
      case Some(found) => found
      case None =>
        var brought := FirstBrought(g[m].broughtFunctions, name, acc);
        if brought.Some? then Found(brought.value) else GetFromImports(g, rank, m, 0, name, acc)
  }

  /** What a submodule returns, or nothing if none of them has the function. */
  function GetFromSubmodules<V>(
      g: Graph<V>, ghost rank: map<nat, nat>, m: nat, i: nat, name: string, acc: V -> bool): Option<Found<V>>
    requires Acyclic(g, rank) && m in g && i <= |g[m].submodules|
    decreases rank[m], 0, |g[m].submodules| - i
  {
    if i == |g[m].submodules| then None
    else if !SearchesSub(g, m, i) then GetFromSubmodules(g, rank, m, i + 1, name, acc)
    else
      var sub := g[m].submodules[i];
      assert Edge(g, m, sub);
      match HasAny(g, rank, sub, name, acc)
      case Yes => Some(GetFunction(g, rank, sub, name, acc))
      case No => GetFromSubmodules(g, rank, m, i + 1, name, acc)
      case Crash => Some(Crashed)
  }

  function GetFromImports<V>(
      g: Graph<V>, ghost rank: map<nat, nat>, m: nat, i: nat, name: string, acc: V -> bool): Found<V>
    requires Acyclic(g, rank) && m in g && i <= |g[m].broughtModules|
    decreases rank[m], 0, |g[m].broughtModules| - i
  {
    if i == |g[m].broughtModules| then Null
    else if !SearchesImport(g, m, i) then GetFromImports(g, rank, m, i + 1, name, acc)
    else
      var bMod := g[m].broughtModules[i].mod;
      assert Edge(g, m, bMod);
      match HasAny(g, rank, bMod, name, acc)
      case Crash => Crashed
      case No => GetFromImports(g, rank, m, i + 1, name, acc)
      case Yes =>
        match GetFunction(g, rank, bMod, name, acc)
        case Found(f) => if acc(f.visibility) then Found(f) else GetFromImports(g, rank, m, i + 1, name, acc)
        case _ => Crashed
  }

  // ---------------------------------------------------------------------------
  // The matches, in order of precedence

  ghost function DeclaredMatches<V>(fs: seq<Func<V>>, name: string, acc: V -> bool): seq<Func<V>> {
    if fs == [] then []
    else (if Declares(fs[0], name, acc) then [fs[0]] else []) + DeclaredMatches(fs[1..], name, acc)
  }

  ghost function BroughtMatches<V>(bs: seq<Brought<V>>, name: string, acc: V -> bool): seq<Func<V>> {
    if bs == [] then []
    else (if MatchBroughtEntity(bs[0], name, acc) then [bs[0].entity] else []) + BroughtMatches(bs[1..], name, acc)
  }

  /** Own functions, then those of searched submodules, then brought ones, then those of imports. */
  ghost function Matches<V>(g: Graph<V>, rank: map<nat, nat>, m: nat, name: string, acc: V -> bool): seq<Func<V>>
    requires Acyclic(g, rank) && m in g
    decreases rank[m], 1, 0
  {
    DeclaredMatches(g[m].functions, name, acc)
    + SubmoduleMatches(g, rank, m, 0, name, acc)
    + BroughtMatches(g[m].broughtFunctions, name, acc)
    + ImportMatches(g, rank, m, 0, name, acc)
  }

  ghost function SubmoduleMatches<V>(
      g: Graph<V>, rank: map<nat, nat>, m: nat, i: nat, name: string, acc: V -> bool): seq<Func<V>>
    requires Acyclic(g, rank) && m in g && i <= |g[m].submodules|
    decreases rank[m], 0, |g[m].submodules| - i
  {
    if i == |g[m].submodules| then []
    else if !SearchesSub(g, m, i) then SubmoduleMatches(g, rank, m, i + 1, name, acc)
    else
      assert Edge(g, m, g[m].submodules[i]);
      Matches(g, rank, g[m].submodules[i], name, acc) + SubmoduleMatches(g, rank, m, i + 1, name, acc)
  }

  ghost function ImportMatches<V>(
      g: Graph<V>, rank: map<nat, nat>, m: nat, i: nat, name: string, acc: V -> bool): seq<Func<V>>
    requires Acyclic(g, rank) && m in g && i <= |g[m].broughtModules|
    decreases rank[m], 0, |g[m].broughtModules| - i
  {
    if i == |g[m].broughtModules| then []
    else if !SearchesImport(g, m, i) then ImportMatches(g, rank, m, i + 1, name, acc)
    else
      assert Edge(g, m, g[m].broughtModules[i].mod);
      Matches(g, rank, g[m].broughtModules[i].mod, name, acc) + ImportMatches(g, rank, m, i + 1, name, acc)
  }

  lemma {:induction false} DeclaredAgree<V>(fs: seq<Func<V>>, name: string, acc: V -> bool)
    ensures FirstDeclared(fs, name, acc) == First(DeclaredMatches(fs, name, acc))
    ensures forall f :: f in DeclaredMatches(fs, name, acc) <==> f in fs && Declares(f, name, acc)
  {
    if fs != [] {
      DeclaredAgree(fs[1..], name, acc);
    }
  }

  lemma {:induction false} BroughtAgree<V>(bs: seq<Brought<V>>, name: string, acc: V -> bool)
    ensures FirstBrought(bs, name, acc) == First(BroughtMatches(bs, name, acc))
    ensures forall f :: f in BroughtMatches(bs, name, acc) ==> acc(f.visibility)
    ensures forall f :: f in BroughtMatches(bs, name, acc) <==>
      exists b :: b in bs && MatchBroughtEntity(b, name, acc) && b.entity == f
  {
    if bs != [] {
      BroughtAgree(bs[1..], name, acc);
      var rest := BroughtMatches(bs[1..], name, acc);
      forall f
        ensures f in BroughtMatches(bs, name, acc) <==>
          exists b :: b in bs && MatchBroughtEntity(b, name, acc) && b.entity == f
      {
        if f in rest {
          var b :| b in bs[1..] && MatchBroughtEntity(b, name, acc) && b.entity == f;
          assert b in bs;
        }
      }
    }
  }

  function First<T>(s: seq<T>): Option<T> {
    if s == [] then None else Some(s[0])
  }

  function AnswerOf<V>(matches: seq<Func<V>>): Answer {
    if matches == [] then No else Yes
  }

  function FoundOf<V>(matches: seq<Func<V>>): Found<V> {
    if matches == [] then Null else Found(matches[0])
  }

  /** What searching a module does is what its list of matches says. */
  ghost predicate Agrees<V>(g: Graph<V>, rank: map<nat, nat>, m: nat, name: string, acc: V -> bool)
    requires Acyclic(g, rank) && m in g
  {
    var matches := Matches(g, rank, m, name, acc);
    && HasAny(g, rank, m, name, acc) == AnswerOf(matches)
    && GetFunction(g, rank, m, name, acc) == FoundOf(matches)
    && (forall f :: f in matches ==> acc(f.visibility))
  }

  lemma {:induction false} LookupAgrees<V>(g: Graph<V>, rank: map<nat, nat>, m: nat, name: string, acc: V -> bool)
    requires Acyclic(g, rank) && m in g
    ensures Agrees(g, rank, m, name, acc)
    decreases rank[m], 1, 0
  {
    DeclaredAgree(g[m].functions, name, acc);
    BroughtAgree(g[m].broughtFunctions, name, acc);
    SubmodulesAgree(g, rank, m, 0, name, acc);
    ImportsAgree(g, rank, m, 0, name, acc);
    Joined(DeclaredMatches(g[m].functions, name, acc), SubmoduleMatches(g, rank, m, 0, name, acc),
           BroughtMatches(g[m].broughtFunctions, name, acc), ImportMatches(g, rank, m, 0, name, acc), acc);
  }

  lemma Joined<V>(a: seq<Func<V>>, b: seq<Func<V>>, c: seq<Func<V>>, d: seq<Func<V>>, acc: V -> bool)
    ensures FoundOf(a + b + c + d) ==
      if a != [] then Found(a[0]) else if b != [] then Found(b[0]) else if c != [] then Found(c[0]) else FoundOf(d)
    ensures AnswerOf(a + b + c + d) == if a + b + c != [] then Yes else AnswerOf(d)
    ensures a + b + c == [] <==> a == [] && b == [] && c == []
    ensures (forall f :: f in a || f in b || f in c || f in d ==> acc(f.visibility)) ==>
      forall f :: f in a + b + c + d ==> acc(f.visibility)
  {
    if a == [] && b == [] && c == [] {
      assert a + b + c + d == d;
    }
  }

  lemma {:induction false} SubmodulesAgree<V>(
      g: Graph<V>, rank: map<nat, nat>, m: nat, i: nat, name: string, acc: V -> bool)
    requires Acyclic(g, rank) && m in g && i <= |g[m].submodules|
    ensures var matches := SubmoduleMatches(g, rank, m, i, name, acc);
      && SubmodulesHave(g, rank, m, i, name, acc) == AnswerOf(matches)
      && GetFromSubmodules(g, rank, m, i, name, acc) == (if matches == [] then None else Some(Found(matches[0])))
      && (forall f :: f in matches ==> acc(f.visibility))
    decreases rank[m], 0, |g[m].submodules| - i
  {
    hide HasAny, GetFunction, Matches;
    if i < |g[m].submodules| {
      SubmodulesAgree(g, rank, m, i + 1, name, acc);
      if SearchesSub(g, m, i) {
        assert Edge(g, m, g[m].submodules[i]);
        LookupAgrees(g, rank, g[m].submodules[i], name, acc);
      }
    }
  }

  lemma {:induction false} ImportsAgree<V>(
      g: Graph<V>, rank: map<nat, nat>, m: nat, i: nat, name: string, acc: V -> bool)
    requires Acyclic(g, rank) && m in g && i <= |g[m].broughtModules|
    ensures var matches := ImportMatches(g, rank, m, i, name, acc);
      && HasFunctionInImports(g, rank, m, i, name, acc) == AnswerOf(matches)
      && GetFromImports(g, rank, m, i, name, acc) == FoundOf(matches)
      && (forall f :: f in matches ==> acc(f.visibility))
    decreases rank[m], 0, |g[m].broughtModules| - i
  {
    hide HasAny, GetFunction, Matches;
    if i < |g[m].broughtModules| {
      ImportsAgree(g, rank, m, i + 1, name, acc);
      if SearchesImport(g, m, i) {
        assert Edge(g, m, g[m].broughtModules[i].mod);
        LookupAgrees(g, rank, g[m].broughtModules[i].mod, name, acc);
      }
    }
  }

  // ---------------------------------------------------------------------------
  // Matches are what reachable modules offer

  lemma ReachesSelf<V>(g: Graph<V>, m: nat)
    requires Closed(g) && m in g
    ensures Reaches(g, m, m)
  {
    assert Path(g, [m]);
  }

  lemma ReachesVia<V>(g: Graph<V>, m: nat, k: nat, n: nat)
    requires Closed(g) && m in g && Edge(g, m, k) && Reaches(g, k, n)
    ensures Reaches(g, m, n)
  {
    var path :| Path(g, path) && path[0] == k && path[|path| - 1] == n;
    var longer := [m] + path;
    assert forall i :: 0 < i < |longer| ==> longer[i] == path[i - 1];
    assert Path(g, longer);
  }

  /** The first step of a path is along one of the edges of the module it starts in. */
  lemma ReachesFirst<V>(g: Graph<V>, m: nat, n: nat) returns (k: nat)
    requires Closed(g) && m in g && Reaches(g, m, n) && m != n
    ensures k in g && Edge(g, m, k) && Reaches(g, k, n)
  {
    var path :| Path(g, path) && path[0] == m && path[|path| - 1] == n;
    k := path[1];
    assert Edge(g, path[0], path[1]);
    var rest := path[1..];
    forall i | 0 <= i < |rest| - 1
      ensures Edge(g, rest[i], rest[i + 1])
    {
      assert Edge(g, path[i + 1], path[i + 2]);
    }
    assert Path(g, rest);
  }

  /** A match of a module that searching goes to next is a match of this module. */
  lemma {:induction false} SubmoduleMatchesAre<V>(
      g: Graph<V>, rank: map<nat, nat>, m: nat, i: nat, name: string, acc: V -> bool, f: Func<V>)
    requires Acyclic(g, rank) && m in g && i <= |g[m].submodules|
    ensures f in SubmoduleMatches(g, rank, m, i, name, acc) <==>
      exists k :: i <= k < |g[m].submodules| && SearchesSub(g, m, k) && rank[g[m].submodules[k]] < rank[m]
        && f in Matches(g, rank, g[m].submodules[k], name, acc)
    decreases |g[m].submodules| - i
  {
    if i < |g[m].submodules| {
      SubmoduleMatchesAre(g, rank, m, i + 1, name, acc, f);
      assert SearchesSub(g, m, i) ==> Edge(g, m, g[m].submodules[i]);
    }
  }

  lemma {:induction false} ImportMatchesAre<V>(
      g: Graph<V>, rank: map<nat, nat>, m: nat, i: nat, name: string, acc: V -> bool, f: Func<V>)
    requires Acyclic(g, rank) && m in g && i <= |g[m].broughtModules|
    ensures f in ImportMatches(g, rank, m, i, name, acc) <==>
      exists k :: i <= k < |g[m].broughtModules| && SearchesImport(g, m, k)
        && rank[g[m].broughtModules[k].mod] < rank[m]
        && f in Matches(g, rank, g[m].broughtModules[k].mod, name, acc)
    decreases |g[m].broughtModules| - i
  {
    if i < |g[m].broughtModules| {
      ImportMatchesAre(g, rank, m, i + 1, name, acc, f);
      assert SearchesImport(g, m, i) ==> Edge(g, m, g[m].broughtModules[i].mod);
    }
  }

  /** The matches that come over edges of a module. */
  lemma EdgeMatchesAre<V>(g: Graph<V>, rank: map<nat, nat>, m: nat, name: string, acc: V -> bool, f: Func<V>)
    requires Acyclic(g, rank) && m in g
    ensures f in SubmoduleMatches(g, rank, m, 0, name, acc) || f in ImportMatches(g, rank, m, 0, name, acc) <==>
      exists n :: n in g && Edge(g, m, n) && f in Matches(g, rank, n, name, acc)
  {
    hide Matches, SubmoduleMatches, ImportMatches;
    SubmoduleMatchesAre(g, rank, m, 0, name, acc, f);
    ImportMatchesAre(g, rank, m, 0, name, acc, f);
    if f in SubmoduleMatches(g, rank, m, 0, name, acc) {
      var k :| 0 <= k < |g[m].submodules| && SearchesSub(g, m, k)
        && f in Matches(g, rank, g[m].submodules[k], name, acc);
      assert Edge(g, m, g[m].submodules[k]);
    }
    if f in ImportMatches(g, rank, m, 0, name, acc) {
      var k :| 0 <= k < |g[m].broughtModules| && SearchesImport(g, m, k)
        && f in Matches(g, rank, g[m].broughtModules[k].mod, name, acc);
      assert Edge(g, m, g[m].broughtModules[k].mod);
    }
  }

  /** The entries that match a name are those that bring a function under it. */
  lemma MatchingIsBringing<V>(mod: Mod<V>, name: string, acc: V -> bool, f: Func<V>)
    ensures (exists b :: b in mod.broughtFunctions && MatchBroughtEntity(b, name, acc) && b.entity == f) <==>
      acc(f.visibility) && BringsUnder(mod, name, acc, f)
  {
  }

  /** Matches, one edge at a time. */
  lemma MatchesStep<V>(g: Graph<V>, rank: map<nat, nat>, m: nat, name: string, acc: V -> bool, f: Func<V>)
    requires Acyclic(g, rank) && m in g
    ensures f in Matches(g, rank, m, name, acc) <==>
      || OffersHere(g[m], name, acc, f)
      || exists n :: n in g && Edge(g, m, n) && f in Matches(g, rank, n, name, acc)
  {
    hide Edge, SubmoduleMatches, ImportMatches, DeclaredMatches, BroughtMatches, BringsUnder, MatchBroughtEntity;
    DeclaredAgree(g[m].functions, name, acc);
    BroughtAgree(g[m].broughtFunctions, name, acc);
    MatchingIsBringing(g[m], name, acc, f);
    EdgeMatchesAre(g, rank, m, name, acc, f);
  }

  /** The matches are exactly what the modules that searching reaches offer. */
  lemma {:induction false} MatchesAreOffers<V>(
      g: Graph<V>, rank: map<nat, nat>, m: nat, name: string, acc: V -> bool, f: Func<V>)
    requires Acyclic(g, rank) && m in g
    ensures f in Matches(g, rank, m, name, acc) <==> Offers(g, m, name, acc, f)
    decreases rank[m]
  {
    MatchesStep(g, rank, m, name, acc, f);
    forall n | n in g && Edge(g, m, n)
      ensures f in Matches(g, rank, n, name, acc) <==> Offers(g, n, name, acc, f)
    {
      MatchesAreOffers(g, rank, n, name, acc, f);
    }
    OffersStep(g, m, name, acc, f);
  }

  lemma {:induction false} OffersStep<V>(g: Graph<V>, m: nat, name: string, acc: V -> bool, f: Func<V>)
    requires Closed(g) && m in g
    ensures Offers(g, m, name, acc, f) <==>
      || OffersHere(g[m], name, acc, f)
      || exists n :: n in g && Edge(g, m, n) && Offers(g, n, name, acc, f)
  {
    ReachesSelf(g, m);
    if Offers(g, m, name, acc, f) && !OffersHere(g[m], name, acc, f) {
      var n :| n in g && Reaches(g, m, n) && OffersHere(g[n], name, acc, f);
      var k := ReachesFirst(g, m, n);
      assert Offers(g, k, name, acc, f);
    }
    if exists n :: n in g && Edge(g, m, n) && Offers(g, n, name, acc, f) {
      var n :| n in g && Edge(g, m, n) && Offers(g, n, name, acc, f);
      var k :| k in g && Reaches(g, n, k) && OffersHere(g[k], name, acc, f);
      ReachesVia(g, m, n, k);
    }
  }

  /**
   Lookup is reachability. When the searched modules form no cycle, no lookup crashes; the three
   questions together are answered with yes exactly when some module reached over searched
   submodules and imports declares or brings an accessible match, and that is exactly when
   `GetFunction` yields one. What it yields is offered by such a module and is accessible.
   */
  lemma LookupIsReachability<V>(g: Graph<V>, rank: map<nat, nat>, m: nat, name: string, acc: V -> bool)
    requires Acyclic(g, rank) && m in g
    ensures HasAny(g, rank, m, name, acc) == (if exists f :: Offers(g, m, name, acc, f) then Yes else No)
    ensures GetFunction(g, rank, m, name, acc).Found? <==> exists f :: Offers(g, m, name, acc, f)
    ensures GetFunction(g, rank, m, name, acc) != Crashed
    ensures GetFunction(g, rank, m, name, acc).Found? ==>
      var f := GetFunction(g, rank, m, name, acc).f;
      Offers(g, m, name, acc, f) && acc(f.visibility)
      && Matches(g, rank, m, name, acc) != [] && f == Matches(g, rank, m, name, acc)[0]
  {
    LookupAgrees(g, rank, m, name, acc);
    var matches := Matches(g, rank, m, name, acc);
    if matches != [] {
      MatchesAreOffers(g, rank, m, name, acc, matches[0]);
    }
    forall f | Offers(g, m, name, acc, f)
      ensures f in matches
    {
      MatchesAreOffers(g, rank, m, name, acc, f);
    }
  }

  /** The first searched submodule that offers anything provides the match. */
  lemma {:induction false} FirstSubmodule<V(!new)>(
      g: Graph<V>, rank: map<nat, nat>, m: nat, i: nat, name: string, acc: V -> bool) returns (k: nat)
    requires Acyclic(g, rank) && m in g && i <= |g[m].submodules|
    requires SubmoduleMatches(g, rank, m, i, name, acc) != []
    ensures i <= k < |g[m].submodules| && !g[g[m].submodules[k]].isLib
    ensures Offers(g, g[m].submodules[k], name, acc, SubmoduleMatches(g, rank, m, i, name, acc)[0])
    ensures forall j, f :: i <= j < k && !g[g[m].submodules[j]].isLib ==> !Offers(g, g[m].submodules[j], name, acc, f)
    decreases |g[m].submodules| - i
  {
    hide Matches, Offers;
    var sub := g[m].submodules[i];
    if SearchesSub(g, m, i) {
      assert Edge(g, m, sub);
      forall f
        ensures f in Matches(g, rank, sub, name, acc) <==> Offers(g, sub, name, acc, f)
      {
        MatchesAreOffers(g, rank, sub, name, acc, f);
      }
      if Matches(g, rank, sub, name, acc) != [] {
        k := i;
        MatchesAreOffers(g, rank, sub, name, acc, Matches(g, rank, sub, name, acc)[0]);
        assert SubmoduleMatches(g, rank, m, i, name, acc)[0] == Matches(g, rank, sub, name, acc)[0];
        return;
      }
    }
    k := FirstSubmodule(g, rank, m, i + 1, name, acc);
  }

  /** The same for imports. */
  lemma {:induction false} FirstImport<V(!new)>(
      g: Graph<V>, rank: map<nat, nat>, m: nat, i: nat, name: string, acc: V -> bool) returns (k: nat)
    requires Acyclic(g, rank) && m in g && i <= |g[m].broughtModules|
    requires ImportMatches(g, rank, m, i, name, acc) != []
    ensures i <= k < |g[m].broughtModules| && Searched(g, g[m].broughtModules[k])
    ensures Offers(g, g[m].broughtModules[k].mod, name, acc, ImportMatches(g, rank, m, i, name, acc)[0])
    ensures forall j, f :: i <= j < k && Searched(g, g[m].broughtModules[j]) ==>
      !Offers(g, g[m].broughtModules[j].mod, name, acc, f)
    decreases |g[m].broughtModules| - i
  {
    hide Matches, Offers;
    var bMod := g[m].broughtModules[i].mod;
    if SearchesImport(g, m, i) {
      assert Edge(g, m, bMod) by {
        assert g[m].broughtModules[i] == BroughtModule(None, bMod);
      }
      forall f
        ensures f in Matches(g, rank, bMod, name, acc) <==> Offers(g, bMod, name, acc, f)
      {
        MatchesAreOffers(g, rank, bMod, name, acc, f);
      }
      if Matches(g, rank, bMod, name, acc) != [] {
        k := i;
        MatchesAreOffers(g, rank, bMod, name, acc, Matches(g, rank, bMod, name, acc)[0]);
        assert ImportMatches(g, rank, m, i, name, acc)[0] == Matches(g, rank, bMod, name, acc)[0];
        return;
      }
    }
    k := FirstImport(g, rank, m, i + 1, name, acc);
  }

  ghost predicate Searched<V>(g: Graph<V>, b: BroughtModule)
    requires b.mod in g
  {
    b.name.None? && !g[b.mod].isLib
  }

  /** Where the result of a lookup comes from. */
  datatype Origin = Own | Submodule(k: nat) | BroughtEntry | Import(k: nat)

  ghost predicate OwnOffers<V(!new)>(mod: Mod<V>, name: string, acc: V -> bool) {
    exists h: Func<V> :: h in mod.functions && h.name == name && acc(h.visibility)
  }

  ghost predicate SubmodulesOffer<V(!new)>(g: Graph<V>, m: nat, name: string, acc: V -> bool)
    requires Closed(g) && m in g
  {
    exists j, h :: 0 <= j < |g[m].submodules| && !g[g[m].submodules[j]].isLib
      && Offers(g, g[m].submodules[j], name, acc, h)
  }

  ghost predicate EntriesOffer<V(!new)>(mod: Mod<V>, name: string, acc: V -> bool) {
    exists h: Func<V> :: acc(h.visibility) && BringsUnder(mod, name, acc, h)
  }

  /** What a lookup yields, and that nothing earlier in the order of search offers anything. */
  ghost predicate ComesFrom<V(!new)>(g: Graph<V>, m: nat, name: string, acc: V -> bool, f: Func<V>, origin: Origin)
    requires Closed(g) && m in g
  {
    match origin
    case Own => f in g[m].functions && f.name == name && acc(f.visibility)
    case Submodule(k) =>
      && !OwnOffers(g[m], name, acc)
      && k < |g[m].submodules| && !g[g[m].submodules[k]].isLib
      && Offers(g, g[m].submodules[k], name, acc, f)
      && (forall j, h :: 0 <= j < k && !g[g[m].submodules[j]].isLib ==> !Offers(g, g[m].submodules[j], name, acc, h))
    case BroughtEntry =>
      && !OwnOffers(g[m], name, acc) && !SubmodulesOffer(g, m, name, acc)
      && acc(f.visibility) && BringsUnder(g[m], name, acc, f)
    case Import(k) =>
      && !OwnOffers(g[m], name, acc) && !SubmodulesOffer(g, m, name, acc) && !EntriesOffer(g[m], name, acc)
      && k < |g[m].broughtModules| && Searched(g, g[m].broughtModules[k])
      && Offers(g, g[m].broughtModules[k].mod, name, acc, f)
      && (forall j, h :: 0 <= j < k && Searched(g, g[m].broughtModules[j]) ==>
            !Offers(g, g[m].broughtModules[j].mod, name, acc, h))
  }

  /** The matches of one sort are there exactly when something is offered in that way. */
  lemma OwnAreOffered<V(!new)>(mod: Mod<V>, name: string, acc: V -> bool)
    ensures OwnOffers(mod, name, acc) <==> DeclaredMatches(mod.functions, name, acc) != []
  {
    var matches := DeclaredMatches(mod.functions, name, acc);
    DeclaredAgree(mod.functions, name, acc);
    if matches != [] {
      assert matches[0] in matches;
    }
    if h :| h in mod.functions && h.name == name && acc(h.visibility) {
      assert Declares(h, name, acc);
    }
  }

  lemma EntriesAreOffered<V(!new)>(mod: Mod<V>, name: string, acc: V -> bool)
    ensures EntriesOffer(mod, name, acc) <==> BroughtMatches(mod.broughtFunctions, name, acc) != []
    ensures forall f :: f in BroughtMatches(mod.broughtFunctions, name, acc) ==>
      acc(f.visibility) && BringsUnder(mod, name, acc, f)
  {
    hide MatchBroughtEntity, BringsUnder, BroughtMatches;
    var matches := BroughtMatches(mod.broughtFunctions, name, acc);
    BroughtAgree(mod.broughtFunctions, name, acc);
    forall f
      ensures f in matches <==> acc(f.visibility) && BringsUnder(mod, name, acc, f)
    {
      MatchingIsBringing(mod, name, acc, f);
    }
    if matches != [] {
      assert matches[0] in matches;
    }
  }

  lemma SubmodulesAreOffered<V(!new)>(g: Graph<V>, rank: map<nat, nat>, m: nat, name: string, acc: V -> bool)
    requires Acyclic(g, rank) && m in g
    ensures SubmodulesOffer(g, m, name, acc) ==> SubmoduleMatches(g, rank, m, 0, name, acc) != []
  {
    hide Matches, SubmoduleMatches, Offers;
    if j, h :| 0 <= j < |g[m].submodules| && !g[g[m].submodules[j]].isLib
               && Offers(g, g[m].submodules[j], name, acc, h) {
      MatchesAreOffers(g, rank, g[m].submodules[j], name, acc, h);
      SubmoduleMatchesAre(g, rank, m, 0, name, acc, h);
      assert Edge(g, m, g[m].submodules[j]) && SearchesSub(g, m, j);
    }
  }

  /**
   The order of search: own functions come first, then the first searched submodule that offers
   something, then brought functions, then the first searched import that offers something.
   */
  lemma LookupOrder<V(!new)>(g: Graph<V>, rank: map<nat, nat>, m: nat, name: string, acc: V -> bool)
    returns (origin: Origin)
    requires Acyclic(g, rank) && m in g && GetFunction(g, rank, m, name, acc).Found?
    ensures ComesFrom(g, m, name, acc, GetFunction(g, rank, m, name, acc).f, origin)
  {
    hide Offers, BringsUnder, GetFunction, HasAny, OwnOffers, EntriesOffer, SubmodulesOffer,
         DeclaredMatches, SubmoduleMatches, BroughtMatches, ImportMatches;
    LookupAgrees(g, rank, m, name, acc);
    OwnAreOffered(g[m], name, acc);
    EntriesAreOffered(g[m], name, acc);
    SubmodulesAreOffered(g, rank, m, name, acc);
    var own, below := DeclaredMatches(g[m].functions, name, acc), SubmoduleMatches(g, rank, m, 0, name, acc);
    var entries, imports :=
      BroughtMatches(g[m].broughtFunctions, name, acc), ImportMatches(g, rank, m, 0, name, acc);
    Joined(own, below, entries, imports, acc);
    var f := GetFunction(g, rank, m, name, acc).f;
    if own != [] {
      DeclaredAgree(g[m].functions, name, acc);
      assert own[0] in own;
      assert f == own[0];
      origin := Own;
    } else if below != [] {
      var k := FirstSubmodule(g, rank, m, 0, name, acc);
      origin := Submodule(k);
      assert f == below[0];
    } else if entries != [] {
      assert entries[0] in entries;
      origin := BroughtEntry;
      assert f == entries[0];
    } else {
      var k := FirstImport(g, rank, m, 0, name, acc);
      origin := Import(k);
      assert f == imports[0];
    }
  }

  /** An entry with a name of its own is found under that name, and not under the name of its function. */
  lemma AliasHidesName<V>(
      g: Graph<V>, rank: map<nat, nat>, m: nat, alias: string, f: Func<V>, v: V, acc: V -> bool)
    requires Acyclic(g, rank) && m in g && alias != f.name && acc(v) && acc(f.visibility)
    requires g[m].functions == [] && g[m].submodules == [] && g[m].broughtModules == []
    requires g[m].broughtFunctions == [Brought(Some(alias), f, v)]
    ensures GetFunction(g, rank, m, alias, acc) == Found(f) && HasAny(g, rank, m, alias, acc) == Yes
    ensures GetFunction(g, rank, m, f.name, acc) == Null && HasAny(g, rank, m, f.name, acc) == No
  {
    LookupAgrees(g, rank, m, alias, acc);
    LookupAgrees(g, rank, m, f.name, acc);
    BroughtAgree(g[m].broughtFunctions, alias, acc);
    assert BroughtMatches(g[m].broughtFunctions, alias, acc)[0] == f;
    assert BroughtMatches(g[m].broughtFunctions, f.name, acc) == [];
    assert Matches(g, rank, m, alias, acc) == BroughtMatches(g[m].broughtFunctions, alias, acc);
    assert Matches(g, rank, m, f.name, acc) == [];
  }
}
