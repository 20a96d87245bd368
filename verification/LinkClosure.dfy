/** What is linked with a module: object files and libraries of the modules that it depends on. */
module LinkClosure {
  import opened Wrappers

  datatype LibToLink =
    | NamedLib(name: string)
    | LibPath(path: string)
    | OtherLib                        // found or shown in ways that need no argument of its own

  /** The modules that a module depends on; for brought entities, the modules that declare them. */
  datatype Imports = Imports(
    dependencies: seq<Mod>, submodules: seq<Mod>, broughtModules: seq<Mod>, structTypes: seq<Mod>,
    genericStructTypes: seq<Mod>, prerunFunctions: seq<Mod>, choiceTypes: seq<Mod>, flagTypes: seq<Mod>,
    opaqueTypes: seq<Mod>, genericOpaqueTypes: seq<Mod>, mixTypes: seq<Mod>, typeDefs: seq<Mod>,
    functions: seq<Mod>, genericFunctions: seq<Mod>, genericTypeDefs: seq<Mod>, globals: seq<Mod>,
    regions: seq<Mod>)
  {
    /** The lists that are followed for libraries. */
    function LibLists(): seq<seq<Mod>> {
      [dependencies, submodules, broughtModules, structTypes, genericStructTypes, choiceTypes, opaqueTypes,
       genericOpaqueTypes, mixTypes, typeDefs, functions, genericFunctions, genericTypeDefs, globals, regions]
    }

    /** The lists that are followed for object files. */
    function ObjectLists(): seq<seq<Mod>> {
      [dependencies, submodules, broughtModules, structTypes, genericStructTypes, prerunFunctions, choiceTypes,
       flagTypes, opaqueTypes, genericOpaqueTypes, mixTypes, typeDefs, functions, genericFunctions,
       genericTypeDefs, globals, regions]
    }
  }

  datatype Follow = ForLibs | ForObjects

  class Mod {
    const nativeLibs: seq<LibToLink>
    const objectFile: Option<string>
    const imports: Imports
    var linkPthread: bool

    constructor (nativeLibs: seq<LibToLink>, objectFile: Option<string>, imports: Imports, linkPthread: bool)
      ensures this.nativeLibs == nativeLibs && this.objectFile == objectFile && this.imports == imports
      ensures this.linkPthread == linkPthread
    {
      this.nativeLibs, this.objectFile, this.imports := nativeLibs, objectFile, imports;
      this.linkPthread := linkPthread;
    }

    function Lists(follow: Follow): seq<seq<Mod>> {
      if follow.ForLibs? then imports.LibLists() else imports.ObjectLists()
    }

    /** The modules that are followed from here. */
    ghost function Next(follow: Follow): set<Mod> {
      set i, j | 0 <= i < |Lists(follow)| && 0 <= j < |Lists(follow)[i]| :: Lists(follow)[i][j]
    }

    /** The arguments for the linker that this module asks for itself. */
    method OwnLibs() returns (result: set<string>)
      ensures result == LibArguments(nativeLibs)
      ensures forall name :: NamedLib(name) in nativeLibs ==> "-l" + name in result
      ensures forall path :: LibPath(path) in nativeLibs ==> "-l" + path in result
      ensures forall lib :: lib in result ==>
        exists i :: 0 <= i < |nativeLibs| && nativeLibs[i] in {NamedLib(lib[2..]), LibPath(lib[2..])} && "-l" <= lib
    {
      result := {};
      for i := 0 to |nativeLibs|
        invariant result == LibArguments(nativeLibs[..i])
      {
        assert nativeLibs[..i + 1] == nativeLibs[..i] + [nativeLibs[i]];
        LibArgumentsSnoc(nativeLibs[..i], nativeLibs[i]);
        match nativeLibs[i] {
          case NamedLib(name) => result := result + {"-l" + name};
          case LibPath(path) => result := result + {"-l" + path};
          case OtherLib => {}
        }
      }
      assert nativeLibs[..|nativeLibs|] == nativeLibs;
    }

    /** The libraries to link with this module. The flag for threads is collected on the way. */
    method GetAllLinkableLibs(ghost all: set<Mod>, ghost rank: map<Mod, nat>) returns (result: set<string>)
      requires this in all && Acyclic(all, ForLibs, rank)
      modifies all`linkPthread
      ensures result == LibsOf(Reach(this, all, ForLibs, rank))
      ensures Flags(all) == Close(old(Flags(all)), Reach(this, all, ForLibs, rank), all, rank)
      decreases rank[this], 1
    {
      hide Close, CloseAround, Reach, ReachOf, LibsOf, Elements;
      ghost var flags := Flags(all);
      result := OwnLibs();
      var lists := Lists(ForLibs);
      NextIsElements(this, ForLibs);
      NothingDone(this, flags, all, rank);
      ghost var done: set<Mod> := {};
      NothingReached(lists, all, rank);
      for i := 0 to |lists|
        invariant Elements(lists[..i]) <= Next(ForLibs) && done == ReachOf(Elements(lists[..i]), all, ForLibs, rank)
        invariant result == LibArguments(nativeLibs) + LibsOf(done)
        invariant Flags(all) == CloseAround(flags, done, all, rank, this)
      {
        ElementsSnoc(lists, i);
        ReachOfBoth(Elements(lists[..i]), Members(lists[i]), all, rank);
        result, done := HandleModules(lists[i], result, all, rank, flags, done);
      }
      assert lists[..|lists|] == lists;
      EverythingReached(this, done, all, rank);
      EverythingClosed(this, flags, done, all, rank);
      EverythingLinked(this, done);
    }

    /** The object files to link for this module. */
    method GetAllObjectFiles(ghost all: set<Mod>, ghost rank: map<Mod, nat>) returns (result: set<string>)
      requires this in all && Acyclic(all, ForObjects, rank)
      ensures result == ObjectsOf(Reach(this, all, ForObjects, rank))
      decreases rank[this], 1
    {
      hide Reach, ReachOf, ObjectsOf, Elements;
      result := {};
      if objectFile.Some? {
        result := result + {objectFile.value};
      }
      ghost var own := result;
      var lists := Lists(ForObjects);
      NextIsElements(this, ForObjects);
      NoObjects(lists, all, rank);
      for i := 0 to |lists|
        invariant Elements(lists[..i]) <= Next(ForObjects)
        invariant result == own + ObjectsOf(ReachOf(Elements(lists[..i]), all, ForObjects, rank))
      {
        ElementsSnoc(lists, i);
        result := HandleObjects(lists[i], result, own, Elements(lists[..i]), all, rank);
      }
      assert lists[..|lists|] == lists;
      EveryObject(this, all, rank);
    }

    /** Adds the object files of the modules of one list. */
    method HandleObjects(list: seq<Mod>, files: set<string>, ghost own: set<string>, ghost sofar: set<Mod>,
                         ghost all: set<Mod>, ghost rank: map<Mod, nat>)
      returns (result: set<string>)
      requires this in all && Acyclic(all, ForObjects, rank) && Members(list) <= Next(ForObjects) && sofar <= all
      requires files == own + ObjectsOf(ReachOf(sofar, all, ForObjects, rank))
      ensures result == own + ObjectsOf(ReachOf(sofar + Members(list), all, ForObjects, rank))
      decreases rank[this], 0
    {
      hide Reach, ReachOf, ObjectsOf, Next;
      result := files;
      ObjectsOfMore(sofar, list, 0, all, rank);
      for j := 0 to |list|
        invariant result == own + ObjectsOf(ReachOf(sofar + Members(list[..j]), all, ForObjects, rank))
      {
        ObjectsOfMore(sofar, list, j, all, rank);
        var objList := list[j].GetAllObjectFiles(all, rank);
        result := result + objList;
      }
      assert list[..|list|] == list;
    }

    /** Collects what the modules of one list need, after those whose needs are known are done. */
    method HandleModules(list: seq<Mod>, libs: set<string>, ghost all: set<Mod>, ghost rank: map<Mod, nat>,
                         ghost flags: map<Mod, bool>, ghost done: set<Mod>)
      returns (result: set<string>, ghost done': set<Mod>)
      requires this in all && Acyclic(all, ForLibs, rank) && Members(list) <= Next(ForLibs)
      requires all == flags.Keys && Flags(all) == CloseAround(flags, done, all, rank, this)
      modifies all`linkPthread
      ensures done' == done + ReachOf(Members(list), all, ForLibs, rank)
      ensures result == libs + LibsOf(ReachOf(Members(list), all, ForLibs, rank))
      ensures Flags(all) == CloseAround(flags, done', all, rank, this)
      decreases rank[this], 0
    {
      hide Close, CloseAround, Reach, ReachOf, LibsOf, Next, Acyclic;
      result, done' := libs, done;
      FollowedAreThere(this, all, rank);
      NoMembers(list, all, rank);
      for i := 0 to |list|
        invariant Members(list[..i]) <= Members(list)
        invariant done' == done + ReachOf(Members(list[..i]), all, ForLibs, rank)
        invariant result == libs + LibsOf(ReachOf(Members(list[..i]), all, ForLibs, rank))
        invariant Flags(all) == CloseAround(flags, done', all, rank, this)
      {
        OneMoreDone(list[i], flags, done', all, rank, this);
        ReachOfSnoc(list, i, all, rank);
        var libList := list[i].GetAllLinkableLibs(all, rank);
        result := result + libList;
        if list[i].linkPthread {
          linkPthread := true;
        }
        done' := done' + Reach(list[i], all, ForLibs, rank);
      }
      assert list[..|list|] == list;
    }
  }

  // ---------------------------------------------------------------------------
  // Modules that can be reached

  /** `rank` shows that no module depends on itself. */
  ghost predicate Acyclic(all: set<Mod>, follow: Follow, rank: map<Mod, nat>) {
    && all <= rank.Keys
    && forall m :: m in all ==> m.Next(follow) <= all && forall n :: n in m.Next(follow) ==> rank[n] < rank[m]
  }

  /** The module and everything that can be reached from it. */
  ghost function Reach(m: Mod, all: set<Mod>, follow: Follow, rank: map<Mod, nat>): set<Mod>
    requires m in all && Acyclic(all, follow, rank)
    decreases rank[m]
  {
    {m} + set n, x | n in m.Next(follow) && x in Reach(n, all, follow, rank) :: x
  }

  ghost function ReachOf(from: set<Mod>, all: set<Mod>, follow: Follow, rank: map<Mod, nat>): set<Mod>
    requires from <= all && Acyclic(all, follow, rank)
  {
    set n, x | n in from && x in Reach(n, all, follow, rank) :: x
  }

  ghost predicate IsClosed(s: set<Mod>, all: set<Mod>, follow: Follow, rank: map<Mod, nat>)
    requires Acyclic(all, follow, rank)
  {
    s <= all && forall n :: n in s ==> Reach(n, all, follow, rank) <= s
  }

  lemma {:induction false} ReachIsClosed(m: Mod, all: set<Mod>, follow: Follow, rank: map<Mod, nat>)
    requires m in all && Acyclic(all, follow, rank)
    ensures IsClosed(Reach(m, all, follow, rank), all, follow, rank)
    ensures forall n :: n in Reach(m, all, follow, rank) ==> n == m || rank[n] < rank[m]
    decreases rank[m]
  {
    forall n | n in m.Next(follow)
      ensures IsClosed(Reach(n, all, follow, rank), all, follow, rank)
      ensures forall k :: k in Reach(n, all, follow, rank) ==> k == n || rank[k] < rank[n]
    {
      ReachIsClosed(n, all, follow, rank);
    }
  }

  /** What can be reached is the least set that contains the module and what its members follow. */
  lemma {:induction false} ReachIsLeast(m: Mod, all: set<Mod>, follow: Follow, rank: map<Mod, nat>, s: set<Mod>)
    requires m in all && Acyclic(all, follow, rank)
    requires m in s && forall n :: n in s ==> n.Next(follow) <= s
    ensures Reach(m, all, follow, rank) <= s
    decreases rank[m]
  {
    forall n | n in m.Next(follow)
      ensures Reach(n, all, follow, rank) <= s
    {
      ReachIsLeast(n, all, follow, rank, s);
    }
  }

  lemma {:induction false} ReachFollows(m: Mod, all: set<Mod>, follow: Follow, rank: map<Mod, nat>)
    requires m in all && Acyclic(all, follow, rank)
    ensures m in Reach(m, all, follow, rank)
    ensures forall n :: n in Reach(m, all, follow, rank) ==> n.Next(follow) <= Reach(m, all, follow, rank)
  {
    ReachIsClosed(m, all, follow, rank);
    forall n, k | n in Reach(m, all, follow, rank) && k in n.Next(follow)
      ensures k in Reach(m, all, follow, rank)
    {
      assert k in Reach(k, all, follow, rank);
      assert k in Reach(n, all, follow, rank);
    }
  }

  lemma NothingReached(lists: seq<seq<Mod>>, all: set<Mod>, rank: map<Mod, nat>)
    requires Acyclic(all, ForLibs, rank)
    ensures Elements(lists[..0]) == {} && ReachOf({}, all, ForLibs, rank) == {} && LibsOf({}) == {}
  {
  }

  lemma NoMembers(list: seq<Mod>, all: set<Mod>, rank: map<Mod, nat>)
    requires Acyclic(all, ForLibs, rank)
    ensures Members(list[..0]) == {} && ReachOf({}, all, ForLibs, rank) == {} && LibsOf({}) == {}
  {
  }

  lemma FollowedAreThere(m: Mod, all: set<Mod>, rank: map<Mod, nat>)
    requires m in all && Acyclic(all, ForLibs, rank)
    ensures m.Next(ForLibs) <= all
  {
  }

  lemma NextIsElements(m: Mod, follow: Follow)
    ensures m.Next(follow) == Elements(m.Lists(follow))
  {
  }

  lemma ReachOfBoth(a: set<Mod>, b: set<Mod>, all: set<Mod>, rank: map<Mod, nat>)
    requires a <= all && b <= all && Acyclic(all, ForLibs, rank)
    ensures ReachOf(a + b, all, ForLibs, rank) == ReachOf(a, all, ForLibs, rank) + ReachOf(b, all, ForLibs, rank)
    ensures LibsOf(ReachOf(a, all, ForLibs, rank) + ReachOf(b, all, ForLibs, rank)) ==
            LibsOf(ReachOf(a, all, ForLibs, rank)) + LibsOf(ReachOf(b, all, ForLibs, rank))
  {
    hide Reach;
    LibsOfBoth(ReachOf(a, all, ForLibs, rank), ReachOf(b, all, ForLibs, rank));
  }

  lemma LibsOfBoth(a: set<Mod>, b: set<Mod>)
    ensures LibsOf(a + b) == LibsOf(a) + LibsOf(b)
  {
  }

  lemma ReachOfSnoc(list: seq<Mod>, i: nat, all: set<Mod>, rank: map<Mod, nat>)
    requires i < |list| && Members(list) <= all && Acyclic(all, ForLibs, rank)
    ensures Members(list[..i + 1]) == Members(list[..i]) + {list[i]} && Members(list[..i + 1]) <= Members(list)
    ensures ReachOf(Members(list[..i + 1]), all, ForLibs, rank) ==
            ReachOf(Members(list[..i]), all, ForLibs, rank) + Reach(list[i], all, ForLibs, rank)
    ensures LibsOf(ReachOf(Members(list[..i + 1]), all, ForLibs, rank)) ==
            LibsOf(ReachOf(Members(list[..i]), all, ForLibs, rank)) + LibsOf(Reach(list[i], all, ForLibs, rank))
  {
    hide Reach;
    assert list[..i + 1] == list[..i] + [list[i]];
    ReachOfBoth(Members(list[..i]), {list[i]}, all, rank);
    assert ReachOf({list[i]}, all, ForLibs, rank) == Reach(list[i], all, ForLibs, rank);
  }

  // ---------------------------------------------------------------------------
  // Libraries

  function LibArguments(libs: seq<LibToLink>): set<string> {
    (set lib | lib in libs && lib.NamedLib? :: "-l" + lib.name)
    + (set lib | lib in libs && lib.LibPath? :: "-l" + lib.path)
  }

  lemma LibArgumentsSnoc(libs: seq<LibToLink>, lib: LibToLink)
    ensures LibArguments(libs + [lib]) == LibArguments(libs) + LibArguments([lib])
  {
  }

  ghost function LibsOf(s: set<Mod>): set<string> {
    set n, lib | n in s && lib in LibArguments(n.nativeLibs) :: lib
  }

  function Members(list: seq<Mod>): set<Mod> {
    set n | n in list
  }

  ghost function Elements(lists: seq<seq<Mod>>): set<Mod> {
    set i, j | 0 <= i < |lists| && 0 <= j < |lists[i]| :: lists[i][j]
  }

  lemma ElementsSnoc(lists: seq<seq<Mod>>, i: nat)
    requires i < |lists|
    ensures Elements(lists[..i + 1]) == Elements(lists[..i]) + Members(lists[i])
    ensures Elements(lists[..i + 1]) <= Elements(lists)
  {
    assert lists[..i + 1] == lists[..i] + [lists[i]];
  }

  // ---------------------------------------------------------------------------
  // Flags

  ghost function Flags(all: set<Mod>): map<Mod, bool>
    reads all
  {
    map m | m in all :: m.linkPthread
  }

  /** Some module that can be reached had the flag to begin with. */
  ghost predicate Wants(flags: map<Mod, bool>, m: Mod, all: set<Mod>, rank: map<Mod, nat>)
    requires m in all && Acyclic(all, ForLibs, rank)
  {
    AnyIn(flags, Reach(m, all, ForLibs, rank))
  }

  ghost predicate AnyIn(flags: map<Mod, bool>, s: set<Mod>) {
    exists n :: n in s && n in flags && flags[n]
  }

  /** The flags of the modules in `s` say what these modules want, and others are as they were. */
  ghost function Close(flags: map<Mod, bool>, s: set<Mod>, all: set<Mod>, rank: map<Mod, nat>): map<Mod, bool>
    requires all == flags.Keys && Acyclic(all, ForLibs, rank)
  {
    map m | m in all :: if m in s then Wants(flags, m, all, rank) else flags[m]
  }

  /** The same, while the module `m` is still collecting. */
  ghost function CloseAround(
      flags: map<Mod, bool>, s: set<Mod>, all: set<Mod>, rank: map<Mod, nat>, m: Mod): map<Mod, bool>
    requires all == flags.Keys && Acyclic(all, ForLibs, rank) && m in all
  {
    Close(flags, s, all, rank)[m := flags[m] || AnyIn(flags, s)]
  }

  lemma NothingDone(m: Mod, flags: map<Mod, bool>, all: set<Mod>, rank: map<Mod, nat>)
    requires m in all && Acyclic(all, ForLibs, rank) && all == flags.Keys
    ensures CloseAround(flags, {}, all, rank, m) == flags
  {
  }

  lemma EverythingReached(m: Mod, done: set<Mod>, all: set<Mod>, rank: map<Mod, nat>)
    requires m in all && Acyclic(all, ForLibs, rank)
    requires done == ReachOf(m.Next(ForLibs), all, ForLibs, rank)
    ensures done + {m} == Reach(m, all, ForLibs, rank)
  {
  }

  lemma EverythingClosed(m: Mod, flags: map<Mod, bool>, done: set<Mod>, all: set<Mod>, rank: map<Mod, nat>)
    requires m in all && Acyclic(all, ForLibs, rank) && all == flags.Keys
    requires done + {m} == Reach(m, all, ForLibs, rank)
    ensures CloseAround(flags, done, all, rank, m) == Close(flags, Reach(m, all, ForLibs, rank), all, rank)
  {
    hide Reach, Acyclic, AnyIn;
    AnyInBoth(flags, done, {m});
    AnyInOne(flags, m);
  }

  lemma AnyInOne(flags: map<Mod, bool>, m: Mod)
    requires m in flags
    ensures AnyIn(flags, {m}) <==> flags[m]
  {
  }

  lemma EverythingLinked(m: Mod, done: set<Mod>)
    ensures LibsOf(done + {m}) == LibArguments(m.nativeLibs) + LibsOf(done)
  {
    LibsOfBoth(done, {m});
    assert LibsOf({m}) == LibArguments(m.nativeLibs);
  }

  /** Flags that are already closed for some modules give the same answers. */
  lemma {:induction false} WantsAgain(
      x: Mod, flags: map<Mod, bool>, done: set<Mod>, all: set<Mod>, rank: map<Mod, nat>, m: Mod)
    requires m in all && x in all && Acyclic(all, ForLibs, rank) && all == flags.Keys
    requires m !in Reach(x, all, ForLibs, rank)
    ensures Wants(CloseAround(flags, done, all, rank, m), x, all, rank) == Wants(flags, x, all, rank)
  {
    var closed := CloseAround(flags, done, all, rank, m);
    ReachIsClosed(x, all, ForLibs, rank);
    if Wants(closed, x, all, rank) {
      var n :| n in Reach(x, all, ForLibs, rank) && n in closed && closed[n];
      if n in done {
        var k :| k in Reach(n, all, ForLibs, rank) && k in flags && flags[k];
        assert k in Reach(x, all, ForLibs, rank);
      }
    }
    if Wants(flags, x, all, rank) {
      var n :| n in Reach(x, all, ForLibs, rank) && n in flags && flags[n];
      assert n in Reach(n, all, ForLibs, rank);
      assert closed[n];
    }
  }

  /** One more module is done. */
  lemma OneMoreDone(e: Mod, flags: map<Mod, bool>, done: set<Mod>, all: set<Mod>, rank: map<Mod, nat>, m: Mod)
    requires m in all && e in m.Next(ForLibs) && Acyclic(all, ForLibs, rank) && all == flags.Keys
    ensures e in all && m !in Reach(e, all, ForLibs, rank) && m in rank && e in rank && rank[e] < rank[m]
    ensures var after := Close(CloseAround(flags, done, all, rank, m), Reach(e, all, ForLibs, rank), all, rank);
      after[m := after[e] || after[m]] == CloseAround(flags, done + Reach(e, all, ForLibs, rank), all, rank, m)
  {
    hide Reach, Mod.Next, Acyclic, AnyIn, Close, CloseAround, Wants;
    NotBack(e, all, rank, m);
    var reached := Reach(e, all, ForLibs, rank);
    SameKeys(flags, done, reached, all, rank, m);
    var after := Close(CloseAround(flags, done, all, rank, m), reached, all, rank);
    var goal := CloseAround(flags, done + reached, all, rank, m);
    forall x | x in all
      ensures x in after && x in goal
      ensures x != m ==> after[x] == goal[x]
    {
      OtherFlag(e, flags, done, all, rank, m, x);
    }
    OwnFlag(e, flags, done, all, rank, m);
    assert after[m := after[e] || after[m]] == goal;
  }

  lemma SameKeys(flags: map<Mod, bool>, done: set<Mod>, reached: set<Mod>, all: set<Mod>, rank: map<Mod, nat>, m: Mod)
    requires m in all && Acyclic(all, ForLibs, rank) && all == flags.Keys
    ensures CloseAround(flags, done, all, rank, m).Keys == all
    ensures Close(CloseAround(flags, done, all, rank, m), reached, all, rank).Keys == all
    ensures CloseAround(flags, done + reached, all, rank, m).Keys == all
  {
    hide Wants, AnyIn, Acyclic;
  }

  /** The flags of other modules when one more module is done. */
  lemma OtherFlag(
      e: Mod, flags: map<Mod, bool>, done: set<Mod>, all: set<Mod>, rank: map<Mod, nat>, m: Mod, x: Mod)
    requires m in all && e in all && x in all && Acyclic(all, ForLibs, rank) && all == flags.Keys
    requires IsClosed(Reach(e, all, ForLibs, rank), all, ForLibs, rank) && m !in Reach(e, all, ForLibs, rank)
    ensures var reached := Reach(e, all, ForLibs, rank);
      var after := Close(CloseAround(flags, done, all, rank, m), reached, all, rank);
      var goal := CloseAround(flags, done + reached, all, rank, m);
      x in after && x in goal && (x != m ==> after[x] == goal[x])
  {
    hide Reach, Mod.Next, Acyclic, AnyIn, Wants;
    if x in Reach(e, all, ForLibs, rank) {
      WantsAgain(x, flags, done, all, rank, m);
    }
  }

  /** The flag of the module that is collecting. */
  lemma OwnFlag(e: Mod, flags: map<Mod, bool>, done: set<Mod>, all: set<Mod>, rank: map<Mod, nat>, m: Mod)
    requires m in all && e in all && Acyclic(all, ForLibs, rank) && all == flags.Keys
    requires e in Reach(e, all, ForLibs, rank) && m !in Reach(e, all, ForLibs, rank)
    ensures var reached := Reach(e, all, ForLibs, rank);
      var after := Close(CloseAround(flags, done, all, rank, m), reached, all, rank);
      var goal := CloseAround(flags, done + reached, all, rank, m);
      && m in after && e in after && m in goal && (after[e] || after[m]) == goal[m]
  {
    hide Reach, Mod.Next, Acyclic, AnyIn;
    AnyInBoth(flags, done, Reach(e, all, ForLibs, rank));
    WantsAgain(e, flags, done, all, rank, m);
  }

  /** A module cannot be reached from the modules that it follows. */
  lemma NotBack(e: Mod, all: set<Mod>, rank: map<Mod, nat>, m: Mod)
    requires m in all && e in m.Next(ForLibs) && Acyclic(all, ForLibs, rank)
    ensures e in all && e in Reach(e, all, ForLibs, rank)
    ensures m in rank && e in rank && rank[e] < rank[m]
    ensures IsClosed(Reach(e, all, ForLibs, rank), all, ForLibs, rank) && m !in Reach(e, all, ForLibs, rank)
  {
    ReachIsClosed(e, all, ForLibs, rank);
  }

  lemma AnyInBoth(flags: map<Mod, bool>, a: set<Mod>, b: set<Mod>)
    ensures AnyIn(flags, a + b) <==> AnyIn(flags, a) || AnyIn(flags, b)
  {
  }

  // ---------------------------------------------------------------------------
  // Object files

  ghost function ObjectsOf(s: set<Mod>): set<string> {
    set n | n in s && n.objectFile.Some? :: n.objectFile.value
  }

  lemma NoObjects(lists: seq<seq<Mod>>, all: set<Mod>, rank: map<Mod, nat>)
    requires Acyclic(all, ForObjects, rank)
    ensures Elements(lists[..0]) == {} && ReachOf({}, all, ForObjects, rank) == {} && ObjectsOf({}) == {}
  {
  }

  lemma ObjectsOfMore(s: set<Mod>, list: seq<Mod>, j: nat, all: set<Mod>, rank: map<Mod, nat>)
    requires j <= |list| && s <= all && Members(list) <= all && Acyclic(all, ForObjects, rank)
    ensures Members(list[..j]) <= Members(list) && s + Members(list[..0]) == s
    ensures j < |list| ==> Members(list[..j + 1]) <= Members(list)
    ensures j < |list| ==>
      ObjectsOf(ReachOf(s + Members(list[..j + 1]), all, ForObjects, rank)) ==
      ObjectsOf(ReachOf(s + Members(list[..j]), all, ForObjects, rank))
      + ObjectsOf(Reach(list[j], all, ForObjects, rank))
  {
    hide Reach;
    if j < |list| {
      assert list[..j + 1] == list[..j] + [list[j]];
      var before, one := s + Members(list[..j]), list[j];
      assert s + Members(list[..j + 1]) == before + {one};
      assert ReachOf(before + {one}, all, ForObjects, rank) ==
             ReachOf(before, all, ForObjects, rank) + Reach(one, all, ForObjects, rank);
    }
  }

  lemma EveryObject(m: Mod, all: set<Mod>, rank: map<Mod, nat>)
    requires m in all && Acyclic(all, ForObjects, rank)
    ensures ObjectsOf(Reach(m, all, ForObjects, rank)) ==
      (if m.objectFile.Some? then {m.objectFile.value} else {})
      + ObjectsOf(ReachOf(m.Next(ForObjects), all, ForObjects, rank))
  {
    assert Reach(m, all, ForObjects, rank) == {m} + ReachOf(m.Next(ForObjects), all, ForObjects, rank);
  }

  // ---------------------------------------------------------------------------
  // What the closures amount to

  /** Collecting libraries a second time changes no flag. */
  lemma {:induction false} ClosingTwice(m: Mod, flags: map<Mod, bool>, all: set<Mod>, rank: map<Mod, nat>)
    requires m in all && Acyclic(all, ForLibs, rank) && all == flags.Keys
    ensures var s := Reach(m, all, ForLibs, rank);
      Close(Close(flags, s, all, rank), s, all, rank) == Close(flags, s, all, rank)
  {
    hide Reach, Mod.Next;
    var s := Reach(m, all, ForLibs, rank);
    var once := Close(flags, s, all, rank);
    ReachIsClosed(m, all, ForLibs, rank);
    forall n | n in s
      ensures Wants(once, n, all, rank) == Wants(flags, n, all, rank)
    {
      WantsOnce(n, flags, s, all, rank);
    }
    assert Close(once, s, all, rank) == once;
  }

  lemma WantsOnce(n: Mod, flags: map<Mod, bool>, s: set<Mod>, all: set<Mod>, rank: map<Mod, nat>)
    requires n in all && Acyclic(all, ForLibs, rank) && all == flags.Keys
    ensures Wants(Close(flags, s, all, rank), n, all, rank) == Wants(flags, n, all, rank)
  {
    hide Reach, Mod.Next;
    var closed, reached := Close(flags, s, all, rank), Reach(n, all, ForLibs, rank);
    ReachIsClosed(n, all, ForLibs, rank);
    if AnyIn(closed, reached) {
      var k :| k in reached && k in closed && closed[k];
      if k in s {
        var j :| j in Reach(k, all, ForLibs, rank) && j in flags && flags[j];
        assert j in reached;
      }
    }
    if AnyIn(flags, reached) {
      var k :| k in reached && k in flags && flags[k];
      ReachFollows(k, all, ForLibs, rank);
      assert closed[k];
    }
  }

  /** Every module that is followed for libraries is followed for object files. */
  lemma LibsAreWithinObjects(m: Mod, all: set<Mod>, rank: map<Mod, nat>)
    requires m in all && Acyclic(all, ForObjects, rank)
    ensures Acyclic(all, ForLibs, rank)
    ensures Reach(m, all, ForLibs, rank) <= Reach(m, all, ForObjects, rank)
  {
    forall n: Mod | n in all
      ensures n.Next(ForLibs) <= n.Next(ForObjects)
    {
      LibListsAreObjectLists(n);
    }
    ReachFollows(m, all, ForObjects, rank);
    ReachIsClosed(m, all, ForObjects, rank);
    ReachIsLeast(m, all, ForLibs, rank, Reach(m, all, ForObjects, rank));
  }

  lemma LibListsAreObjectLists(m: Mod)
    ensures m.Next(ForObjects) == m.Next(ForLibs) + OnlyForObjects(m)
  {
    var i := m.imports;
    var front := [i.dependencies, i.submodules, i.broughtModules, i.structTypes, i.genericStructTypes];
    var back := [i.opaqueTypes, i.genericOpaqueTypes, i.mixTypes, i.typeDefs, i.functions, i.genericFunctions,
                 i.genericTypeDefs, i.globals, i.regions];
    assert i.LibLists() == front + [i.choiceTypes] + back;
    assert i.ObjectLists() == front + [i.prerunFunctions] + [i.choiceTypes] + [i.flagTypes] + back;
    ElementsSum(front, i.choiceTypes);
    ElementsBoth(front + [i.choiceTypes], back);
    ElementsSum(front, i.prerunFunctions);
    ElementsSum(front + [i.prerunFunctions], i.choiceTypes);
    ElementsSum(front + [i.prerunFunctions] + [i.choiceTypes], i.flagTypes);
    ElementsBoth(front + [i.prerunFunctions] + [i.choiceTypes] + [i.flagTypes], back);
    NextIsElements(m, ForLibs);
    NextIsElements(m, ForObjects);
  }

  /** The modules of compile-time functions and flag types, which are not followed for libraries. */
  function OnlyForObjects(m: Mod): set<Mod> {
    Members(m.imports.prerunFunctions) + Members(m.imports.flagTypes)
  }

  /**
   The two closures are the same exactly when every module in the smaller one finds its compile-time
   functions and flag types in modules that are followed for libraries anyway.
   */
  lemma ClosuresAgree(m: Mod, all: set<Mod>, rank: map<Mod, nat>)
    requires m in all && Acyclic(all, ForObjects, rank)
    ensures Acyclic(all, ForLibs, rank)
    ensures Reach(m, all, ForLibs, rank) == Reach(m, all, ForObjects, rank) <==>
      forall n :: n in Reach(m, all, ForLibs, rank) ==> OnlyForObjects(n) <= Reach(m, all, ForLibs, rank)
  {
    hide Reach, Acyclic, Mod.Next, OnlyForObjects;
    LibsAreWithinObjects(m, all, rank);
    ReachFollows(m, all, ForLibs, rank);
    ReachFollows(m, all, ForObjects, rank);
    var libs := Reach(m, all, ForLibs, rank);
    forall n | n in libs
      ensures n.Next(ForLibs) <= libs && n.Next(ForObjects) == n.Next(ForLibs) + OnlyForObjects(n)
    {
      LibListsAreObjectLists(n);
    }
    if forall n :: n in libs ==> OnlyForObjects(n) <= libs {
      ReachIsLeast(m, all, ForObjects, rank, libs);
    }
  }

  /**
   A module that needs another one for its compile-time functions alone is linked with it, but not
   with its libraries.
   */
  lemma PrerunFunctionsBringNoLibraries(m: Mod, other: Mod, all: set<Mod>, rank: map<Mod, nat>)
    requires m in all && Acyclic(all, ForObjects, rank)
    requires other in m.imports.prerunFunctions && m.Next(ForLibs) == {}
    ensures Acyclic(all, ForLibs, rank) && m != other
    ensures Reach(m, all, ForLibs, rank) == {m} && other in Reach(m, all, ForObjects, rank)
  {
    hide Mod.Next, Reach;
    LibsAreWithinObjects(m, all, rank);
    LibListsAreObjectLists(m);
    ReachFollows(m, all, ForLibs, rank);
    ReachFollows(m, all, ForObjects, rank);
    ReachIsLeast(m, all, ForLibs, rank, {m});
  }

  lemma NothingInEmptyLists(lists: seq<seq<Mod>>)
    requires forall i :: 0 <= i < |lists| ==> lists[i] == []
    ensures Elements(lists) == {}
  {
  }

  lemma FollowsNothing(m: Mod)
    requires forall i :: 0 <= i < |m.imports.ObjectLists()| ==> m.imports.ObjectLists()[i] == []
    ensures m.Next(ForLibs) == {} && m.Next(ForObjects) == {}
  {
    NothingInEmptyLists(m.imports.ObjectLists());
    NextIsElements(m, ForObjects);
    LibListsAreObjectLists(m);
  }

  lemma FollowsPrerunFunctions(m: Mod, other: Mod)
    requires forall i :: 0 <= i < |m.imports.LibLists()| ==> m.imports.LibLists()[i] == []
    requires m.imports.prerunFunctions == [other] && m.imports.flagTypes == []
    ensures m.Next(ForLibs) == {} && m.Next(ForObjects) == {other}
  {
    NothingInEmptyLists(m.imports.LibLists());
    NextIsElements(m, ForLibs);
    LibListsAreObjectLists(m);
  }

  /** Two modules, one of which follows the other for object files only. */
  lemma ReachOfTwo(m: Mod, other: Mod, rank: map<Mod, nat>)
    requires m != other && rank == map[m := 1, other := 0]
    requires m.Next(ForLibs) == {} && m.Next(ForObjects) == {other}
    requires other.Next(ForLibs) == {} && other.Next(ForObjects) == {}
    ensures Acyclic({m, other}, ForLibs, rank) && Acyclic({m, other}, ForObjects, rank)
    ensures Reach(m, {m, other}, ForLibs, rank) == {m} && Reach(m, {m, other}, ForObjects, rank) == {m, other}
    ensures LibsOf({m}) == LibArguments(m.nativeLibs)
    ensures m.objectFile.None? && other.objectFile.Some? ==> ObjectsOf({m, other}) == {other.objectFile.value}
  {
    hide Mod.Next;
    assert Reach(other, {m, other}, ForObjects, rank) == {other};
    assert Reach(m, {m, other}, ForObjects, rank) == {m} + {other};
  }

  /** Such a module: it is linked with the object file `file`, but not with the library of that name. */
  method LinkWithPrerunFunction(file: string, library: string) returns (libs: set<string>, files: set<string>)
    ensures libs == {} && files == {file}
  {
    hide Mod.Next, Reach, Flags, Close, Acyclic, ObjectsOf, LibsOf;
    var none := Imports([], [], [], [], [], [], [], [], [], [], [], [], [], [], [], [], []);
    var other := new Mod([NamedLib(library)], Some(file), none, false);
    var m := new Mod([], None, none.(prerunFunctions := [other]), false);
    ghost var rank: map<Mod, nat> := map[m := 1, other := 0];
    FollowsNothing(other);
    FollowsPrerunFunctions(m, other);
    ReachOfTwo(m, other, rank);
    libs := m.GetAllLinkableLibs({m, other}, rank);
    files := m.GetAllObjectFiles({m, other}, rank);
  }

  /** The modules that are followed for libraries, list by list. */
  lemma FollowedForLibs(m: Mod)
    ensures m.Next(ForLibs) ==
      Members(m.imports.dependencies) + Members(m.imports.submodules) + Members(m.imports.broughtModules)
      + Members(m.imports.structTypes) + Members(m.imports.genericStructTypes) + Members(m.imports.choiceTypes)
      + Members(m.imports.opaqueTypes) + Members(m.imports.genericOpaqueTypes) + Members(m.imports.mixTypes)
      + Members(m.imports.typeDefs) + Members(m.imports.functions) + Members(m.imports.genericFunctions)
      + Members(m.imports.genericTypeDefs) + Members(m.imports.globals) + Members(m.imports.regions)
  {
    hide Elements, Members;
    var i := m.imports;
    NextIsElements(m, ForLibs);
    var front := [i.dependencies, i.submodules, i.broughtModules, i.structTypes];
    var middle := [i.genericStructTypes, i.choiceTypes, i.opaqueTypes, i.genericOpaqueTypes];
    var back := [i.mixTypes, i.typeDefs, i.functions, i.genericFunctions];
    var rest := [i.genericTypeDefs, i.globals, i.regions];
    assert i.LibLists() == front + middle + back + rest;
    ElementsBoth(front + middle + back, rest);
    ElementsBoth(front + middle, back);
    ElementsBoth(front, middle);
    FourLists(i.dependencies, i.submodules, i.broughtModules, i.structTypes);
    FourLists(i.genericStructTypes, i.choiceTypes, i.opaqueTypes, i.genericOpaqueTypes);
    FourLists(i.mixTypes, i.typeDefs, i.functions, i.genericFunctions);
    ThreeLists(i.genericTypeDefs, i.globals, i.regions);
  }

  lemma ThreeLists(a: seq<Mod>, b: seq<Mod>, c: seq<Mod>)
    ensures Elements([a, b, c]) == Members(a) + Members(b) + Members(c)
  {
    ElementsSum([], a);
    ElementsSum([a], b);
    ElementsSum([a, b], c);
    assert [] + [a] == [a] && [a] + [b] == [a, b] && [a, b] + [c] == [a, b, c];
  }

  lemma FourLists(a: seq<Mod>, b: seq<Mod>, c: seq<Mod>, d: seq<Mod>)
    ensures Elements([a, b, c, d]) == Members(a) + Members(b) + Members(c) + Members(d)
  {
    ThreeLists(a, b, c);
    ElementsSum([a, b, c], d);
    assert [a, b, c] + [d] == [a, b, c, d];
  }

  lemma ElementsSum(lists: seq<seq<Mod>>, list: seq<Mod>)
    ensures Elements(lists + [list]) == Elements(lists) + Members(list)
  {
    assert (lists + [list])[..|lists|] == lists && (lists + [list])[..|lists| + 1] == lists + [list];
    ElementsSnoc(lists + [list], |lists|);
  }

  lemma ElementsBoth(a: seq<seq<Mod>>, b: seq<seq<Mod>>)
    ensures Elements(a + b) == Elements(a) + Elements(b)
  {
    forall n: Mod | n in Elements(b)
      ensures n in Elements(a + b)
    {
      var i, j :| 0 <= i < |b| && 0 <= j < |b[i]| && b[i][j] == n;
      assert (a + b)[|a| + i][j] == n;
    }
    forall n: Mod | n in Elements(a)
      ensures n in Elements(a + b)
    {
      var i, j :| 0 <= i < |a| && 0 <= j < |a[i]| && a[i][j] == n;
      assert (a + b)[i][j] == n;
    }
  }
}
