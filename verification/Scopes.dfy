/** What the lookups and the collection of locals over the block tree have in common. */
module Scopes {
  import opened BlockTree

  // ---------------------------------------------------------------------------
  // Scope as reachability

  /**
   The ranks of blocks along links to previous and parent blocks. The locals of the blocks that
   such paths lead to are the ones in scope in the block where they start.
   */
  ghost predicate ScopePath(fn: Function, path: seq<nat>)
    reads fn, fn.all
  {
    && path != []
    && (forall i :: 0 <= i < |path| ==> path[i] < |fn.all|)
    && (forall i :: 0 <= i < |path| - 1 ==> ScopeLink(fn, path[i], path[i + 1]))
  }

  ghost predicate ScopeLink(fn: Function, from: nat, to: nat)
    requires from < |fn.all| && to < |fn.all|
    reads fn, fn.all
  {
    fn.all[from].prevBlock == fn.all[to] || fn.all[from].parent == fn.all[to]
  }

  ghost predicate Reaches(fn: Function, b: Block, c: Block)
    reads fn, fn.all
  {
    exists path: seq<nat> :: ScopePath(fn, path) && path[0] == b.rank && path[|path| - 1] == c.rank
  }

  /** `v` is a local of a block that can be reached from `b`. */
  ghost predicate InScope(fn: Function, b: Block, v: LocalValue)
    reads fn, fn.all
  {
    exists c :: c in fn.all && Reaches(fn, b, c) && v in c.values
  }

  lemma ReachesSelf(fn: Function, b: Block)
    requires fn.Owns(b)
    ensures Reaches(fn, b, b)
  {
    assert ScopePath(fn, [b.rank]);
  }

  lemma ReachesVia(fn: Function, b: Block, d: Block, c: Block)
    requires fn.Owns(b) && fn.Owns(d) && b in fn.all && Reaches(fn, d, c)
    requires b.prevBlock == d || b.parent == d
    ensures Reaches(fn, b, c)
  {
    var path: seq<nat> :|
      ScopePath(fn, path) && path[0] == d.rank && path[|path| - 1] == c.rank;
    var longer := [b.rank] + path;
    forall i | 0 <= i < |longer| - 1
      ensures ScopeLink(fn, longer[i], longer[i + 1])
    {
      if i > 0 {
        assert ScopeLink(fn, path[i - 1], path[i]);
      }
    }
    assert ScopePath(fn, longer);
  }

  /** A block reached from `b` is `b` itself or is reached from its previous or parent block. */
  lemma ReachesFirstLink(fn: Function, b: Block, c: Block)
    requires fn.Valid() && fn.Owns(b) && fn.Owns(c) && Reaches(fn, b, c)
    ensures b in fn.all
    ensures c == b || (b.prevBlock != null && Reaches(fn, b.prevBlock, c)) ||
            (b.parent != null && Reaches(fn, b.parent, c))
  {
    assert b in fn.all && fn.Linked(b);
    var path: seq<nat> :|
      ScopePath(fn, path) && path[0] == b.rank && path[|path| - 1] == c.rank;
    if |path| > 1 {
      var rest := path[1..];
      forall i | 0 <= i < |rest| - 1
        ensures ScopeLink(fn, rest[i], rest[i + 1])
      {
        assert ScopeLink(fn, path[i + 1], path[i + 2]);
      }
      assert ScopePath(fn, rest);
      assert ScopeLink(fn, path[0], path[1]);
    }
  }

  /** Scope, one block at a time. */
  lemma InScopeStep(fn: Function, b: Block, v: LocalValue)
    requires fn.Valid() && fn.Owns(b)
    ensures b in fn.all
    ensures InScope(fn, b, v) <==>
      || v in b.values
      || (b.prevBlock != null && InScope(fn, b.prevBlock, v))
      || (b.parent != null && InScope(fn, b.parent, v))
  {
    assert b in fn.all && fn.Linked(b);
    if v in b.values {
      ReachesSelf(fn, b);
    }
    if b.prevBlock != null && InScope(fn, b.prevBlock, v) {
      var c :| c in fn.all && Reaches(fn, b.prevBlock, c) && v in c.values;
      ReachesVia(fn, b, b.prevBlock, c);
    }
    if b.parent != null && InScope(fn, b.parent, v) {
      var c :| c in fn.all && Reaches(fn, b.parent, c) && v in c.values;
      ReachesVia(fn, b, b.parent, c);
    }
    if InScope(fn, b, v) {
      var c :| c in fn.all && Reaches(fn, b, c) && v in c.values;
      assert fn.Linked(c);
      ReachesFirstLink(fn, b, c);
    }
  }

  // ---------------------------------------------------------------------------
  // Collection

  ghost predicate DistinctIds(values: seq<LocalValue>) {
    forall i, j :: 0 <= i < j < |values| ==> values[i].localId != values[j].localId
  }

  ghost predicate IsLocal(fn: Function, v: LocalValue)
    reads fn, fn.all
  {
    exists b :: b in fn.all && v in b.values
  }

  /** An id belongs to one local of the function. */
  lemma IdDetermines(fn: Function, v: LocalValue, w: LocalValue)
    requires fn.IdsUnique() && IsLocal(fn, v) && IsLocal(fn, w) && v.localId == w.localId
    ensures v == w
  {
    var b :| b in fn.all && v in b.values;
    var c :| c in fn.all && w in c.values;
    var i :| 0 <= i < |b.values| && b.values[i] == v;
    var j :| 0 <= j < |c.values| && c.values[j] == w;
  }

  lemma {:induction false} AddNewMembers(fn: Function, values: seq<LocalValue>, more: seq<LocalValue>)
    requires fn.IdsUnique()
    requires forall v :: v in values || v in more ==> IsLocal(fn, v)
    ensures forall v :: v in AddNew(values, more) <==> v in values || v in more
    ensures DistinctIds(values) ==> DistinctIds(AddNew(values, more))
    decreases |more|
  {
    if more != [] {
      var w := more[|more| - 1];
      var shorter := more[..|more| - 1];
      assert more == shorter + [w];
      AddNewMembers(fn, values, shorter);
      var earlier := AddNew(values, shorter);
      if HasId(earlier, w.localId) {
        var u :| u in earlier && u.localId == w.localId;
        IdDetermines(fn, u, w);
      }
    }
  }

  /** Collecting adds exactly the locals in scope, and each id once. */
  lemma {:induction false} CollectedIsScope(fn: Function, b: Block, vals: seq<LocalValue>)
    requires fn.Valid() && fn.IdsUnique() && fn.Owns(b)
    requires forall v :: v in vals ==> IsLocal(fn, v)
    ensures forall v :: v in b.Collected(vals) <==> v in vals || InScope(fn, b, v)
    ensures DistinctIds(vals) ==> DistinctIds(b.Collected(vals))
    decreases b.rank
  {
    assert b in fn.all && fn.Linked(b);
    var fromParent := vals;
    if b.parent != null {
      CollectedIsScope(fn, b.parent, vals);
      fromParent := b.parent.Collected(vals);
    }
    var fromPrevious := fromParent;
    if b.prevBlock != null {
      CollectedIsScope(fn, b.prevBlock, fromParent);
      fromPrevious := b.prevBlock.Collected(fromParent);
    }
    AddNewMembers(fn, fromPrevious, b.values);
    forall v
      ensures v in b.Collected(vals) <==> v in vals || InScope(fn, b, v)
    {
      InScopeStep(fn, b, v);
    }
  }

  /** The locals in scope in the order of collection: those of the parent, of the previous block, and own ones. */
  ghost function CollectionOrder(fn: Function, b: Block): seq<LocalValue>
    requires fn.Valid() && fn.Owns(b)
    reads fn, fn.all
    decreases b.rank
  {
    assert b in fn.all && fn.Linked(b);
    (if b.parent != null then CollectionOrder(fn, b.parent) else [])
    + (if b.prevBlock != null then CollectionOrder(fn, b.prevBlock) else [])
    + b.values
  }

  lemma {:induction false} AddNewAppend(values: seq<LocalValue>, a: seq<LocalValue>, b: seq<LocalValue>)
    ensures AddNew(AddNew(values, a), b) == AddNew(values, a + b)
    decreases |b|
  {
    if b == [] {
      assert a + b == a;
    } else {
      var shorter := b[..|b| - 1];
      assert (a + b)[..|a + b| - 1] == a + shorter && (a + b)[|a + b| - 1] == b[|b| - 1];
      AddNewAppend(values, a, shorter);
    }
  }

  /** Collecting follows that order and leaves out what has been collected already. */
  lemma {:induction false} CollectedInOrder(fn: Function, b: Block, vals: seq<LocalValue>)
    requires fn.Valid() && fn.Owns(b)
    ensures b.Collected(vals) == AddNew(vals, CollectionOrder(fn, b))
    decreases b.rank
  {
    hide AddNew;
    assert b in fn.all && fn.Linked(b);
    var above := if b.parent != null then CollectionOrder(fn, b.parent) else [];
    var previous := if b.prevBlock != null then CollectionOrder(fn, b.prevBlock) else [];
    AddNothing(vals);
    var fromParent := AddNew(vals, above);
    AddNothing(fromParent);
    if b.parent != null {
      CollectedInOrder(fn, b.parent, vals);
    }
    if b.prevBlock != null {
      CollectedInOrder(fn, b.prevBlock, fromParent);
    }
    AddNewAppend(vals, above, previous);
    AddNewAppend(vals, above + previous, b.values);
  }

  lemma AddNothing(vals: seq<LocalValue>)
    ensures AddNew(vals, []) == vals
  {
  }

  // ---------------------------------------------------------------------------
  // Lookup

  /** The locals in scope in the order in which lookups consider them. */
  ghost function SearchOrder(fn: Function, b: Block): seq<LocalValue>
    requires fn.Valid() && fn.Owns(b)
    reads fn, fn.all
    decreases b.rank
  {
    assert b in fn.all && fn.Linked(b);
    b.values
    + (if b.prevBlock != null then SearchOrder(fn, b.prevBlock) else [])
    + (if b.parent != null then SearchOrder(fn, b.parent) else [])
  }

  lemma {:induction false} FirstNamedAppend(a: seq<LocalValue>, b: seq<LocalValue>, name: string)
    ensures FirstNamed(a + b, name) ==
      if FirstNamed(a, name).Some? then FirstNamed(a, name) else FirstNamed(b, name)
  {
    if a == [] {
      assert a + b == b;
    } else {
      assert (a + b)[1..] == a[1..] + b;
      FirstNamedAppend(a[1..], b, name);
    }
  }

  lemma {:induction false} SearchOrderIsScope(fn: Function, b: Block, v: LocalValue)
    requires fn.Valid() && fn.Owns(b)
    ensures v in SearchOrder(fn, b) <==> InScope(fn, b, v)
    decreases b.rank
  {
    assert b in fn.all && fn.Linked(b);
    InScopeStep(fn, b, v);
    if b.prevBlock != null {
      SearchOrderIsScope(fn, b.prevBlock, v);
    }
    if b.parent != null {
      SearchOrderIsScope(fn, b.parent, v);
    }
  }

  /** `GetValue` is the first match in the search order, and `HasValue` says whether there is one. */
  lemma {:induction false} LookupIsFirstMatch(fn: Function, b: Block, name: string)
    requires fn.Valid() && fn.Owns(b)
    ensures b.GetValue(name) == FirstNamed(SearchOrder(fn, b), name)
    ensures b.HasValue(name) <==> b.GetValue(name).Some?
    decreases b.rank
  {
    assert b in fn.all && fn.Linked(b);
    var previous := if b.prevBlock != null then SearchOrder(fn, b.prevBlock) else [];
    var above := if b.parent != null then SearchOrder(fn, b.parent) else [];
    FirstNamedAppend(b.values + previous, above, name);
    FirstNamedAppend(b.values, previous, name);
    if b.prevBlock != null {
      LookupIsFirstMatch(fn, b.prevBlock, name);
    }
    if b.parent != null {
      LookupIsFirstMatch(fn, b.parent, name);
    }
  }

  /**
   The three views of scope agree: a name has a value exactly when looking it up yields a local,
   and exactly when some local of that name is among the collected ones; what a lookup yields is
   such a local. The collected locals are those of the blocks reachable over previous and parent
   links, each id once.
   */
  lemma ScopeAgreement(fn: Function, b: Block, name: string)
    requires fn.Valid() && fn.IdsUnique() && fn.Owns(b)
    ensures b.HasValue(name) <==> b.GetValue(name).Some?
    ensures b.HasValue(name) <==> exists v :: v in b.Collected([]) && v.name == name
    ensures b.GetValue(name).Some? ==>
      b.GetValue(name).value.name == name && b.GetValue(name).value in b.Collected([])
    ensures forall v :: v in b.Collected([]) <==> InScope(fn, b, v)
    ensures DistinctIds(b.Collected([]))
  {
    LookupIsFirstMatch(fn, b, name);
    CollectedIsScope(fn, b, []);
    forall v
      ensures v in SearchOrder(fn, b) <==> v in b.Collected([])
    {
      SearchOrderIsScope(fn, b, v);
    }
  }
}
