/** The tree of imports of a file: each of its leaves is brought into the module at most once. */
module BringEntities {
  import opened Wrappers
  import opened Scheduling

  datatype EntityKind =
    | Module | OpaqueType | StructType | ChoiceType | MixType | TypeDefinition | Region | Function | GenericFunction
    | GenericStructType | Global | PrerunGlobal | PrerunFunction

  /** An entity brought into a module, under another name if there is an alias. */
  datatype Brought = Brought(kind: EntityKind, entity: nat, alias: Option<string>)

  /** What the path of a group leads to. `Failed` covers every error on the way. */
  datatype Outcome =
    | Failed
    | ToModule(mod: nat)
    | ToEntity(kind: EntityKind, entity: nat)
    | ToNothing

  /**
   What paths lead to: it depends on the module where the search starts, on the number of parents
   to go up and on the names, and may change with what has been brought so far.
   */
  type Resolver = (nat, nat, nat, seq<string>) -> Outcome

  /** How often `x` occurs. */
  ghost function Occurrences(s: seq<BroughtGroup?>, x: BroughtGroup): nat {
    if s == [] then 0 else Occurrences(s[..|s| - 1], x) + if s[|s| - 1] == x then 1 else 0
  }

  class Mod {
    const id: nat
    var brought: seq<Brought>
    ghost var broughtBy: seq<BroughtGroup?>    // the groups that the brought entities are for, if any

    constructor (id: nat)
      ensures this.id == id && brought == [] && broughtBy == []
    {
      this.id := id;
      brought, broughtBy := [], [];
    }

    method Bring(entry: Brought, ghost group: BroughtGroup?)
      modifies this
      ensures brought == old(brought) + [entry] && broughtBy == old(broughtBy) + [group]
    {
      brought := brought + [entry];
      broughtBy := broughtBy + [group];
    }
  }

  class BroughtGroup {
    const relative: nat
    const entity: seq<string>
    const alias: Option<string>
    const members: seq<BroughtGroup>
    var isAlreadyBrought: bool
    var entityState: Option<EntityStatus>
    ghost const nodes: set<BroughtGroup>       // this group and the groups below it

    constructor (relative: nat, entity: seq<string>, alias: Option<string>, members: seq<BroughtGroup>)
      requires forall m :: m in members ==> m.IsTree()
      requires forall i, j :: 0 <= i < j < |members| ==> members[i].nodes !! members[j].nodes
      ensures IsTree() && !isAlreadyBrought && entityState == None
      ensures this.entity == entity && this.alias == alias && this.members == members
      ensures nodes == {this} + set m, g | m in members && g in m.nodes :: g
    {
      this.relative, this.entity, this.alias, this.members := relative, entity, alias, members;
      isAlreadyBrought, entityState := false, None;
      nodes := {this} + set m, g | m in members && g in m.nodes :: g;
    }

    /** Groups are nested without sharing. */
    ghost predicate IsTree()
      decreases nodes
    {
      && this in nodes
      && (forall g :: g in nodes && g != this ==> exists i :: 0 <= i < |members| && g in members[i].nodes)
      && (forall i :: 0 <= i < |members| ==>
            members[i].nodes <= nodes && this !in members[i].nodes && members[i].IsTree())
      && (forall i, j :: 0 <= i < j < |members| ==> members[i].nodes !! members[j].nodes)
    }

    /** The groups below are trees of their own. */
    lemma Below()
      requires IsTree()
      ensures forall i :: 0 <= i < |members| ==>
        members[i].IsTree() && members[i].nodes < nodes && this !in members[i].nodes
    {
    }

    lemma Apart()
      requires IsTree()
      ensures forall i, j :: 0 <= i < j < |members| ==> members[i].nodes !! members[j].nodes
    {
    }

    method Bring()
      modifies this`isAlreadyBrought, this`entityState
      ensures isAlreadyBrought
      ensures entityState == if old(entityState).Some? then Some(Complete) else None
    {
      isAlreadyBrought := true;
      if entityState.Some? {
        entityState := Some(Complete);
      }
    }
  }

  lemma Occurs(s: seq<BroughtGroup?>, x: BroughtGroup, y: BroughtGroup?)
    ensures Occurrences(s + [y], x) == Occurrences(s, x) + if x == y then 1 else 0
  {
    assert (s + [y])[..|s|] == s;
  }

  /** A group is marked as brought exactly when the module has an entry for it, of which there is one. */
  ghost predicate IsFine(mod: Mod, g: BroughtGroup)
    reads mod, g
  {
    && Occurrences(mod.broughtBy, g) == (if g.isAlreadyBrought then 1 else 0)
    && (g.isAlreadyBrought ==> g.members == [])
    && (g.isAlreadyBrought && g.entityState.Some? ==> g.entityState.value == Complete)
  }

  ghost predicate Consistent(mod: Mod, all: set<BroughtGroup>)
    reads mod, all
  {
    && |mod.brought| == |mod.broughtBy|
    && (forall k :: 0 <= k < |mod.brought| && mod.broughtBy[k] != null ==>
          mod.brought[k].alias == mod.broughtBy[k].alias)
    && (forall g {:trigger IsFine(mod, g)} :: g in all ==> IsFine(mod, g))
  }

  /** Nothing that was brought is undone. */
  twostate predicate OnlyAdds(mod: Mod, all: set<BroughtGroup>)
    reads mod, all
  {
    && old(mod.brought) <= mod.brought && old(mod.broughtBy) <= mod.broughtBy
    && (forall g :: g in all && old(g.isAlreadyBrought) ==> g.isAlreadyBrought)
    && (forall g :: g in all && old(g.entityState.Some?) ==> g.entityState.Some?)
  }

  /** Every leaf has an entity of its own, on which others can depend. */
  ghost predicate LeavesHaveState(groups: set<BroughtGroup>)
    reads groups
  {
    forall g :: g in groups && g.members == [] ==> g.entityState.Some?
  }

  /** What was brought since then are modules. */
  ghost predicate ModulesFrom(brought: seq<Brought>, start: nat) {
    forall k :: start <= k < |brought| ==> brought[k].kind.Module?
  }

  /** The groups without members: these are what is brought. */
  ghost predicate LeavesBrought(groups: set<BroughtGroup>)
    reads groups
  {
    forall g :: g in groups && g.members == [] ==> g.isAlreadyBrought
  }

  /** Leaves that were brought still are. */
  twostate lemma StillBrought(groups: set<BroughtGroup>)
    requires forall g :: g in groups && old(g.isAlreadyBrought) ==> g.isAlreadyBrought
    ensures old(LeavesBrought(groups)) ==> LeavesBrought(groups)
  {
  }

  twostate lemma MoreAreBrought(all: set<BroughtGroup>)
    requires forall g :: g in all && old(g.isAlreadyBrought) ==> g.isAlreadyBrought
    ensures old(BroughtOf(all)) <= BroughtOf(all)
  {
  }

  twostate lemma StillHaveState(groups: set<BroughtGroup>)
    requires forall g :: g in groups && old(g.entityState.Some?) ==> g.entityState.Some?
    ensures old(LeavesHaveState(groups)) ==> LeavesHaveState(groups)
  {
  }

  lemma StatesAbove(ent: BroughtGroup)
    requires ent.IsTree() && ent.members != []
    requires forall i :: 0 <= i < |ent.members| ==> LeavesHaveState(ent.members[i].nodes)
    ensures LeavesHaveState(ent.nodes)
  {
  }

  lemma LeavesBelow(ent: BroughtGroup)
    requires ent.IsTree() && LeavesBrought(ent.nodes)
    ensures forall i :: 0 <= i < |ent.members| ==> LeavesBrought(ent.members[i].nodes)
  {
  }

  lemma LeavesAbove(ent: BroughtGroup)
    requires ent.IsTree() && ent.members != []
    requires forall i :: 0 <= i < |ent.members| ==> LeavesBrought(ent.members[i].nodes)
    ensures LeavesBrought(ent.nodes)
  {
  }

  // ---------------------------------------------------------------------------
  // What the paths of groups lead to

  /** The group that is found by going down from `ent`, at each step to the member of that index. */
  function GroupAt(ent: BroughtGroup, path: seq<nat>): BroughtGroup
    decreases |path|
  {
    if path == [] || path[0] >= |ent.members| then ent else GroupAt(ent.members[path[0]], path[1..])
  }

  ghost predicate IsPath(ent: BroughtGroup, path: seq<nat>)
    decreases |path|
  {
    path == [] || (path[0] < |ent.members| && IsPath(ent.members[path[0]], path[1..]))
  }

  /** What the names of the group that `path` leads to stand for, seen from the module `mod` at a time. */
  function Meaning(resolve: Resolver, ent: BroughtGroup, path: seq<nat>, time: nat, mod: nat): Outcome {
    resolve(time, mod, GroupAt(ent, path).relative, GroupAt(ent, path).entity)
  }

  /**
   Each group on the way from `ent` is resolved in the module that the group above it leads to,
   beginning with `mod`, one after the other and not before `start`.
   */
  ghost predicate Follows(
      resolve: Resolver, ent: BroughtGroup, mod: nat, start: nat, path: seq<nat>, times: seq<nat>, mods: seq<nat>)
  {
    && IsPath(ent, path) && |times| == |mods| == |path| + 1
    && mods[0] == mod && start <= times[0]
    && forall i :: 0 <= i < |path| ==>
         times[i] <= times[i + 1] && Meaning(resolve, ent, path[..i], times[i], mods[i]) == ToModule(mods[i + 1])
  }

  /** The way to `g` leads to `out`, at that time. */
  ghost predicate Leads(
      resolve: Resolver, ent: BroughtGroup, mod: nat, start: nat, g: BroughtGroup, at: nat, out: Outcome)
  {
    exists path, times, mods :: Follows(resolve, ent, mod, start, path, times, mods) && GroupAt(ent, path) == g
      && times[|path|] == at && Meaning(resolve, ent, path, at, mods[|path|]) == out
  }

  /** A group is on the way to itself. */
  lemma LeadsHere(resolve: Resolver, ent: BroughtGroup, mod: nat, at: nat)
    ensures Leads(resolve, ent, mod, at, ent, at, resolve(at, mod, ent.relative, ent.entity))
  {
    assert Follows(resolve, ent, mod, at, [], [at], [mod]);
  }

  /** The way from a member is a way from the group above it, if that leads to the module where it begins. */
  lemma LeadsFromAbove(
      resolve: Resolver, ent: BroughtGroup, mod: nat, start: nat, i: nat, inner: nat, later: nat, g: BroughtGroup,
      at: nat, out: Outcome)
    requires i < |ent.members| && resolve(start, mod, ent.relative, ent.entity) == ToModule(inner) && start <= later
    requires Leads(resolve, ent.members[i], inner, later, g, at, out)
    ensures Leads(resolve, ent, mod, start, g, at, out)
  {
    var path, times, mods :| Follows(resolve, ent.members[i], inner, later, path, times, mods)
      && GroupAt(ent.members[i], path) == g && times[|path|] == at
      && Meaning(resolve, ent.members[i], path, at, mods[|path|]) == out;
    var path', times', mods' := [i] + path, [start] + times, [mod] + mods;
    assert path'[1..] == path;
    forall k | 0 <= k < |path'|
      ensures times'[k] <= times'[k + 1]
      ensures Meaning(resolve, ent, path'[..k], times'[k], mods'[k]) == ToModule(mods'[k + 1])
    {
      if k > 0 {
        assert path'[..k][1..] == path[..k - 1];
        assert Meaning(resolve, ent.members[i], path[..k - 1], times[k - 1], mods[k - 1]) == ToModule(mods[k]);
      }
    }
    assert Follows(resolve, ent, mod, start, path', times', mods');
  }

  /** The entry at position `k` is for what the way to its group leads to when there are `k` entries. */
  ghost predicate IsFounded(
      resolve: Resolver, ent: BroughtGroup, mod: nat, start: nat, k: nat, entry: Brought, g: BroughtGroup?)
  {
    && g != null && entry.alias == g.alias
    && (Leads(resolve, ent, mod, start, g, k, ToEntity(entry.kind, entry.entity))
        || (entry.kind.Module? && Leads(resolve, ent, mod, start, g, k, ToModule(entry.entity))))
  }

  /** The entries from position `start` on are founded. */
  ghost predicate AllFounded(
      resolve: Resolver, ent: BroughtGroup, mod: nat, start: nat, brought: seq<Brought>, groups: seq<BroughtGroup?>)
  {
    && |brought| == |groups|
    && forall k :: start <= k < |brought| ==> IsFounded(resolve, ent, mod, start, k, brought[k], groups[k])
  }

  /** A way to `g` leads to something for which there is nothing to bring. */
  ghost predicate IsSkipped(resolve: Resolver, ent: BroughtGroup, mod: nat, start: nat, g: BroughtGroup, early: bool) {
    exists at: nat, out :: Leads(resolve, ent, mod, start, g, at, out) && (out.ToNothing? || (early && out.ToEntity?))
  }

  ghost function BroughtOf(all: set<BroughtGroup>): set<BroughtGroup>
    reads all
  {
    set g | g in all && g.isAlreadyBrought
  }

  /** Every leaf among these groups is one of those brought, or there was nothing to bring for it. */
  ghost predicate Accounted(
      resolve: Resolver, ent: BroughtGroup, mod: nat, start: nat, early: bool, groups: set<BroughtGroup>,
      done: set<BroughtGroup>)
  {
    forall g :: g in groups && g.members == [] ==> g in done || IsSkipped(resolve, ent, mod, start, g, early)
  }

  /** A way to some group leads to an error. */
  ghost predicate Faulty(resolve: Resolver, ent: BroughtGroup, mod: nat, start: nat, mustFind: bool) {
    exists g :: g in ent.nodes && IsError(resolve, ent, mod, start, g, mustFind)
  }

  ghost predicate IsError(resolve: Resolver, ent: BroughtGroup, mod: nat, start: nat, g: BroughtGroup, mustFind: bool) {
    exists at: nat, out :: Leads(resolve, ent, mod, start, g, at, out)
      && (out.Failed? || (g.members != [] && !out.ToModule?) || (g.members == [] && out.ToNothing? && mustFind))
  }

  /** What holds below a member holds below the group. */
  lemma FoundedFromAbove(
      resolve: Resolver, ent: BroughtGroup, mod: nat, start: nat, i: nat, inner: nat,
      before: seq<Brought>, groupsBefore: seq<BroughtGroup?>, brought: seq<Brought>, groups: seq<BroughtGroup?>)
    requires i < |ent.members| && resolve(start, mod, ent.relative, ent.entity) == ToModule(inner)
    requires AllFounded(resolve, ent, mod, start, before, groupsBefore) && start <= |before|
    requires before <= brought && groupsBefore <= groups
    requires AllFounded(resolve, ent.members[i], inner, |before|, brought, groups)
    ensures AllFounded(resolve, ent, mod, start, brought, groups)
  {
    hide Leads;
    forall k | start <= k < |brought|
      ensures IsFounded(resolve, ent, mod, start, k, brought[k], groups[k])
    {
      if k < |before| {
        assert IsFounded(resolve, ent, mod, start, k, before[k], groupsBefore[k]);
        assert brought[k] == before[k] && groups[k] == groupsBefore[k];
      } else {
        var g, entry := groups[k], brought[k];
        assert IsFounded(resolve, ent.members[i], inner, |before|, k, entry, g);
        var out := if Leads(resolve, ent.members[i], inner, |before|, g, k, ToEntity(entry.kind, entry.entity))
          then ToEntity(entry.kind, entry.entity) else ToModule(entry.entity);
        LeadsFromAbove(resolve, ent, mod, start, i, inner, |before|, g, k, out);
      }
    }
  }

  lemma AccountedFromAbove(
      resolve: Resolver, ent: BroughtGroup, mod: nat, start: nat, i: nat, inner: nat, later: nat, early: bool,
      groups: set<BroughtGroup>, done: set<BroughtGroup>)
    requires i < |ent.members| && resolve(start, mod, ent.relative, ent.entity) == ToModule(inner) && start <= later
    requires Accounted(resolve, ent.members[i], inner, later, early, groups, done)
    ensures Accounted(resolve, ent, mod, start, early, groups, done)
  {
    hide Leads;
    forall g | g in groups && g.members == [] && g !in done
      ensures IsSkipped(resolve, ent, mod, start, g, early)
    {
      assert IsSkipped(resolve, ent.members[i], inner, later, g, early);
      var at: nat, out :| Leads(resolve, ent.members[i], inner, later, g, at, out)
        && (out.ToNothing? || (early && out.ToEntity?));
      LeadsFromAbove(resolve, ent, mod, start, i, inner, later, g, at, out);
    }
  }

  lemma FaultyFromAbove(
      resolve: Resolver, ent: BroughtGroup, mod: nat, start: nat, i: nat, inner: nat, later: nat, mustFind: bool)
    requires i < |ent.members| && resolve(start, mod, ent.relative, ent.entity) == ToModule(inner) && start <= later
    requires ent.members[i].nodes <= ent.nodes && Faulty(resolve, ent.members[i], inner, later, mustFind)
    ensures Faulty(resolve, ent, mod, start, mustFind)
  {
    hide Leads;
    var g :| g in ent.members[i].nodes && IsError(resolve, ent.members[i], inner, later, g, mustFind);
    var at: nat, out :| Leads(resolve, ent.members[i], inner, later, g, at, out)
      && (out.Failed? || (g.members != [] && !out.ToModule?) || (g.members == [] && out.ToNothing? && mustFind));
    LeadsFromAbove(resolve, ent, mod, start, i, inner, later, g, at, out);
    assert IsError(resolve, ent, mod, start, g, mustFind);
  }

  lemma AccountedAbove(
      resolve: Resolver, ent: BroughtGroup, mod: nat, start: nat, early: bool, done: set<BroughtGroup>)
    requires ent.IsTree() && ent.members != []
    requires forall i :: 0 <= i < |ent.members| ==>
      Accounted(resolve, ent, mod, start, early, ent.members[i].nodes, done)
    ensures Accounted(resolve, ent, mod, start, early, ent.nodes, done)
  {
    hide IsSkipped;
  }

  lemma StillAccounted(
      resolve: Resolver, ent: BroughtGroup, mod: nat, start: nat, early: bool, groups: set<BroughtGroup>,
      done: set<BroughtGroup>, done': set<BroughtGroup>)
    requires Accounted(resolve, ent, mod, start, early, groups, done) && done <= done'
    ensures Accounted(resolve, ent, mod, start, early, groups, done')
  {
    hide IsSkipped;
  }

  /** An error where a group itself is resolved. */
  lemma FaultyHere(resolve: Resolver, ent: BroughtGroup, mod: nat, start: nat, mustFind: bool)
    requires ent in ent.nodes
    requires var out := resolve(start, mod, ent.relative, ent.entity);
      out.Failed? || (ent.members != [] && !out.ToModule?) || (ent.members == [] && out.ToNothing? && mustFind)
    ensures Faulty(resolve, ent, mod, start, mustFind)
  {
    hide Leads;
    LeadsHere(resolve, ent, mod, start);
    assert IsError(resolve, ent, mod, start, ent, mustFind);
  }

  /** A leaf for which there is nothing to bring. */
  lemma SkippedHere(resolve: Resolver, ent: BroughtGroup, mod: nat, start: nat, early: bool)
    requires ent.IsTree() && ent.members == []
    requires var out := resolve(start, mod, ent.relative, ent.entity);
      out.ToNothing? || (early && out.ToEntity?)
    ensures Accounted(resolve, ent, mod, start, early, ent.nodes, {})
  {
    hide Leads;
    LeadsHere(resolve, ent, mod, start);
    assert IsSkipped(resolve, ent, mod, start, ent, early);
  }

  lemma NothingAddedYet(
      resolve: Resolver, ent: BroughtGroup, mod: nat, currMod: Mod, all: set<BroughtGroup>)
    requires Consistent(currMod, all)
    ensures AllFounded(resolve, ent, mod, |currMod.brought|, currMod.brought, currMod.broughtBy)
  {
  }

  /** One entry, for what a leaf itself leads to. */
  lemma FoundedHere(
      resolve: Resolver, ent: BroughtGroup, mod: nat, brought: seq<Brought>, groups: seq<BroughtGroup?>, entry: Brought)
    requires |brought| == |groups| && entry.alias == ent.alias
    requires var out := resolve(|brought|, mod, ent.relative, ent.entity);
      out == ToEntity(entry.kind, entry.entity) || (entry.kind.Module? && out == ToModule(entry.entity))
    ensures AllFounded(resolve, ent, mod, |brought|, brought + [entry], groups + [ent])
  {
    hide Leads;
    LeadsHere(resolve, ent, mod, |brought|);
    assert IsFounded(resolve, ent, mod, |brought|, |brought|, entry, ent);
  }

  // ---------------------------------------------------------------------------
  // The same for all trees of a sentence

  /** A way that is not taken before one time is not taken before an earlier one. */
  lemma LeadsEarlier(
      resolve: Resolver, ent: BroughtGroup, mod: nat, start: nat, later: nat, g: BroughtGroup, at: nat, out: Outcome)
    requires start <= later && Leads(resolve, ent, mod, later, g, at, out)
    ensures Leads(resolve, ent, mod, start, g, at, out)
  {
    var path, times, mods :| Follows(resolve, ent, mod, later, path, times, mods)
      && GroupAt(ent, path) == g && times[|path|] == at && Meaning(resolve, ent, path, at, mods[|path|]) == out;
    assert Follows(resolve, ent, mod, start, path, times, mods);
  }

  /** Each entry from position `start` on is founded in one of the trees. */
  ghost predicate SomeFounded(
      resolve: Resolver, roots: seq<BroughtGroup>, mod: nat, start: nat, k: nat, entry: Brought, g: BroughtGroup?)
  {
    exists i :: 0 <= i < |roots| && IsFounded(resolve, roots[i], mod, start, k, entry, g)
  }

  ghost predicate AllFoundedInTrees(
      resolve: Resolver, roots: seq<BroughtGroup>, mod: nat, start: nat, brought: seq<Brought>,
      groups: seq<BroughtGroup?>)
  {
    && |brought| == |groups|
    && forall k :: start <= k < |brought| ==> SomeFounded(resolve, roots, mod, start, k, brought[k], groups[k])
  }

  lemma FoundedInTree(
      resolve: Resolver, roots: seq<BroughtGroup>, mod: nat, start: nat, i: nat, before: seq<Brought>,
      groupsBefore: seq<BroughtGroup?>, brought: seq<Brought>, groups: seq<BroughtGroup?>)
    requires i < |roots| && start <= |before| && before <= brought && groupsBefore <= groups
    requires AllFoundedInTrees(resolve, roots, mod, start, before, groupsBefore)
    requires AllFounded(resolve, roots[i], mod, |before|, brought, groups)
    ensures AllFoundedInTrees(resolve, roots, mod, start, brought, groups)
  {
    hide Leads;
    forall k | start <= k < |brought|
      ensures SomeFounded(resolve, roots, mod, start, k, brought[k], groups[k])
    {
      var g, entry := groups[k], brought[k];
      if k < |before| {
        assert SomeFounded(resolve, roots, mod, start, k, before[k], groupsBefore[k]);
      } else {
        assert IsFounded(resolve, roots[i], mod, |before|, k, entry, g);
        var out := if Leads(resolve, roots[i], mod, |before|, g, k, ToEntity(entry.kind, entry.entity))
          then ToEntity(entry.kind, entry.entity) else ToModule(entry.entity);
        LeadsEarlier(resolve, roots[i], mod, start, |before|, g, k, out);
        assert IsFounded(resolve, roots[i], mod, start, k, entry, g);
      }
    }
  }

  lemma AccountedEarlier(
      resolve: Resolver, ent: BroughtGroup, mod: nat, start: nat, later: nat, early: bool, done: set<BroughtGroup>)
    requires start <= later && Accounted(resolve, ent, mod, later, early, ent.nodes, done)
    ensures Accounted(resolve, ent, mod, start, early, ent.nodes, done)
  {
    hide Leads;
    forall g | g in ent.nodes && g.members == [] && g !in done
      ensures IsSkipped(resolve, ent, mod, start, g, early)
    {
      assert IsSkipped(resolve, ent, mod, later, g, early);
      var at: nat, out :| Leads(resolve, ent, mod, later, g, at, out) && (out.ToNothing? || (early && out.ToEntity?));
      LeadsEarlier(resolve, ent, mod, start, later, g, at, out);
    }
  }

  lemma FaultyEarlier(resolve: Resolver, ent: BroughtGroup, mod: nat, start: nat, later: nat, mustFind: bool)
    requires start <= later && Faulty(resolve, ent, mod, later, mustFind)
    ensures Faulty(resolve, ent, mod, start, mustFind)
  {
    hide Leads;
    var g :| g in ent.nodes && IsError(resolve, ent, mod, later, g, mustFind);
    var at: nat, out :| Leads(resolve, ent, mod, later, g, at, out)
      && (out.Failed? || (g.members != [] && !out.ToModule?) || (g.members == [] && out.ToNothing? && mustFind));
    LeadsEarlier(resolve, ent, mod, start, later, g, at, out);
    assert IsError(resolve, ent, mod, start, g, mustFind);
  }

  /** Each entry from position `start` on is founded on one of the resolvers. */
  ghost predicate FoundedOnOne(
      resolvers: seq<Resolver>, roots: seq<BroughtGroup>, mod: nat, start: nat, k: nat, entry: Brought,
      g: BroughtGroup?)
  {
    exists j :: 0 <= j < |resolvers| && SomeFounded(resolvers[j], roots, mod, start, k, entry, g)
  }

  ghost predicate AllFoundedSometime(
      resolvers: seq<Resolver>, roots: seq<BroughtGroup>, mod: nat, start: nat, brought: seq<Brought>,
      groups: seq<BroughtGroup?>)
  {
    && |brought| == |groups|
    && forall k :: start <= k < |brought| ==> FoundedOnOne(resolvers, roots, mod, start, k, brought[k], groups[k])
  }

  lemma FoundedAtOnce(
      resolvers: seq<Resolver>, j: nat, roots: seq<BroughtGroup>, mod: nat, start: nat, brought: seq<Brought>,
      groups: seq<BroughtGroup?>)
    requires j < |resolvers| && AllFoundedInTrees(resolvers[j], roots, mod, start, brought, groups)
    ensures AllFoundedSometime(resolvers, roots, mod, start, brought, groups)
  {
    hide SomeFounded;
  }

  lemma FoundedLater(
      resolvers: seq<Resolver>, j: nat, roots: seq<BroughtGroup>, mod: nat, start: nat, before: seq<Brought>,
      groupsBefore: seq<BroughtGroup?>, brought: seq<Brought>, groups: seq<BroughtGroup?>)
    requires j < |resolvers| && start <= |before| && before <= brought && groupsBefore <= groups
    requires AllFoundedSometime(resolvers, roots, mod, start, before, groupsBefore)
    requires AllFoundedInTrees(resolvers[j], roots, mod, |before|, brought, groups)
    ensures AllFoundedSometime(resolvers, roots, mod, start, brought, groups)
  {
    hide SomeFounded;
    forall k | start <= k < |brought|
      ensures FoundedOnOne(resolvers, roots, mod, start, k, brought[k], groups[k])
    {
      if k < |before| {
        assert FoundedOnOne(resolvers, roots, mod, start, k, before[k], groupsBefore[k]);
      } else {
        SomeFoundedEarlier(resolvers[j], roots, mod, start, |before|, k, brought[k], groups[k]);
      }
    }
  }

  lemma SomeFoundedEarlier(
      resolve: Resolver, roots: seq<BroughtGroup>, mod: nat, start: nat, later: nat, k: nat, entry: Brought,
      g: BroughtGroup?)
    requires start <= later && SomeFounded(resolve, roots, mod, later, k, entry, g)
    ensures SomeFounded(resolve, roots, mod, start, k, entry, g)
  {
    hide Leads;
    var i :| 0 <= i < |roots| && IsFounded(resolve, roots[i], mod, later, k, entry, g);
    var out := if Leads(resolve, roots[i], mod, later, g, k, ToEntity(entry.kind, entry.entity))
      then ToEntity(entry.kind, entry.entity) else ToModule(entry.entity);
    LeadsEarlier(resolve, roots[i], mod, start, later, g, k, out);
    assert IsFounded(resolve, roots[i], mod, start, k, entry, g);
  }

  ghost predicate AllAccounted(
      resolve: Resolver, roots: seq<BroughtGroup>, n: nat, mod: nat, start: nat, early: bool, done: set<BroughtGroup>)
    requires n <= |roots|
  {
    forall i :: 0 <= i < n ==> Accounted(resolve, roots[i], mod, start, early, roots[i].nodes, done)
  }

  ghost predicate SomeFaulty(resolve: Resolver, roots: seq<BroughtGroup>, mod: nat, start: nat, mustFind: bool) {
    exists i :: 0 <= i < |roots| && Faulty(resolve, roots[i], mod, start, mustFind)
  }

  lemma OneMoreAccounted(
      resolve: Resolver, roots: seq<BroughtGroup>, i: nat, mod: nat, start: nat, later: nat, early: bool,
      done: set<BroughtGroup>, done': set<BroughtGroup>)
    requires i < |roots| && start <= later && done <= done'
    requires AllAccounted(resolve, roots, i, mod, start, early, done)
    requires Accounted(resolve, roots[i], mod, later, early, roots[i].nodes, done')
    ensures AllAccounted(resolve, roots, i + 1, mod, start, early, done')
  {
    hide Accounted;
    AccountedEarlier(resolve, roots[i], mod, start, later, early, done');
    forall k | 0 <= k < i
      ensures Accounted(resolve, roots[k], mod, start, early, roots[k].nodes, done')
    {
      StillAccounted(resolve, roots[k], mod, start, early, roots[k].nodes, done, done');
    }
  }

  // ---------------------------------------------------------------------------
  // Bringing

  /** Brings an entity for a leaf and marks the leaf. */
  method BringFor(group: BroughtGroup, kind: EntityKind, entity: nat, mod: Mod, ghost all: set<BroughtGroup>)
    requires Consistent(mod, all) && group in all && group.members == [] && !group.isAlreadyBrought
    modifies mod, group`isAlreadyBrought, group`entityState
    ensures Consistent(mod, all) && OnlyAdds(mod, all)
    ensures mod.brought == old(mod.brought) + [Brought(kind, entity, group.alias)] && group.isAlreadyBrought
    ensures mod.broughtBy == old(mod.broughtBy) + [group]
  {
    assert IsFine(mod, group);
    ghost var before := mod.broughtBy;
    mod.Bring(Brought(kind, entity, group.alias), group);
    group.Bring();
    forall g | g in all
      ensures IsFine(mod, g)
    {
      assert old(IsFine(mod, g));
      Occurs(before, g, group);
    }
  }

  /** Brings a module that a path leads to: this entry is for no group. */
  method BringPath(target: nat, name: Option<string>, mod: Mod, ghost all: set<BroughtGroup>)
    requires Consistent(mod, all)
    modifies mod
    ensures Consistent(mod, all) && OnlyAdds(mod, all)
    ensures mod.brought == old(mod.brought) + [Brought(Module, target, name)]
    ensures mod.broughtBy == old(mod.broughtBy) + [null]
  {
    ghost var before := mod.broughtBy;
    mod.Bring(Brought(Module, target, name), null);
    forall g | g in all
      ensures IsFine(mod, g)
    {
      assert old(IsFine(mod, g));
      Occurs(before, g, null);
    }
  }

  class BringEntities {
    const entities: seq<BroughtGroup>
    const throwErrorsWhenUnfound: bool

    constructor (entities: seq<BroughtGroup>, throwErrorsWhenUnfound: bool)
      ensures this.entities == entities && this.throwErrorsWhenUnfound == throwErrorsWhenUnfound
    {
      this.entities, this.throwErrorsWhenUnfound := entities, throwErrorsWhenUnfound;
    }

    /** The groups of all trees. */
    ghost function Nodes(): set<BroughtGroup> {
      set i, g | 0 <= i < |entities| && g in entities[i].nodes :: g
    }

    /** The trees share nothing. */
    ghost predicate IsForest() {
      && (forall i :: 0 <= i < |entities| ==> entities[i].IsTree())
      && (forall i, j :: 0 <= i < j < |entities| ==> entities[i].nodes !! entities[j].nodes)
    }

    lemma TreesAreWithin()
      ensures forall i :: 0 <= i < |entities| ==> entities[i].nodes <= Nodes()
    {
    }

    lemma LeavesOfTrees()
      ensures LeavesBrought(Nodes()) <==> forall i :: 0 <= i < |entities| ==> LeavesBrought(entities[i].nodes)
      ensures LeavesHaveState(Nodes()) <==> forall i :: 0 <= i < |entities| ==> LeavesHaveState(entities[i].nodes)
    {
    }

    /** One group when the entity is created: modules are brought at once, other entities later. */
    method CreateHandler(ent: BroughtGroup, parentMod: nat, currMod: Mod, resolve: Resolver,
                         ghost all: set<BroughtGroup>)
      returns (ok: bool)
      requires ent.IsTree() && ent.nodes <= all && Consistent(currMod, all)
      requires forall g :: g in ent.nodes ==> !g.isAlreadyBrought
      modifies currMod, ent.nodes
      ensures Consistent(currMod, all) && OnlyAdds(currMod, all)
      ensures ModulesFrom(currMod.brought, |old(currMod.brought)|)
      ensures AllFounded(resolve, ent, parentMod, |old(currMod.brought)|, currMod.brought, currMod.broughtBy)
      ensures ok ==> Accounted(resolve, ent, parentMod, |old(currMod.brought)|, true, ent.nodes, BroughtOf(all))
      ensures !ok ==> Faulty(resolve, ent, parentMod, |old(currMod.brought)|, false)
      ensures ok ==> LeavesHaveState(ent.nodes)
      decreases ent.nodes
    {
      hide Leads, IsSkipped, IsError, IsFounded, Faulty;
      ghost var brought, groups := currMod.brought, currMod.broughtBy;
      match resolve(|currMod.brought|, parentMod, ent.relative, ent.entity) {
        case Failed =>
          FaultyHere(resolve, ent, parentMod, |brought|, false);
          ok := false;
        case ToModule(mod) =>
          if ent.members == [] {
            FoundedHere(resolve, ent, parentMod, brought, groups, Brought(Module, mod, ent.alias));
            GiveState(ent, currMod, all);
            BringFor(ent, Module, mod, currMod, all);
            ok := true;
          } else {
            ok := CreateMembers(ent, mod, currMod, resolve, parentMod, all);
          }
        case _ =>
          if ent.members != [] {
            FaultyHere(resolve, ent, parentMod, |brought|, false);
            return false;
          }
          GiveState(ent, currMod, all);
          SkippedHere(resolve, ent, parentMod, |brought|, true);
          StillAccounted(resolve, ent, parentMod, |brought|, true, ent.nodes, {}, BroughtOf(all));
          ok := true;
      }
    }

    method GiveState(ent: BroughtGroup, ghost currMod: Mod, ghost all: set<BroughtGroup>)
      requires Consistent(currMod, all) && ent in all && !ent.isAlreadyBrought
      modifies ent`entityState
      ensures Consistent(currMod, all) && ent.entityState == Some(NotBegun)
    {
      ent.entityState := Some(NotBegun);
      forall g | g in all
        ensures IsFine(currMod, g)
      {
        assert old(IsFine(currMod, g));
      }
    }

    method CreateMembers(ent: BroughtGroup, mod: nat, currMod: Mod, resolve: Resolver, ghost parentMod: nat,
                         ghost all: set<BroughtGroup>)
      returns (ok: bool)
      requires ent.IsTree() && ent.nodes <= all && ent.members != [] && Consistent(currMod, all)
      requires forall g :: g in ent.nodes ==> !g.isAlreadyBrought
      requires resolve(|currMod.brought|, parentMod, ent.relative, ent.entity) == ToModule(mod)
      modifies currMod, ent.nodes - {ent}
      ensures Consistent(currMod, all) && OnlyAdds(currMod, all)
      ensures ModulesFrom(currMod.brought, |old(currMod.brought)|)
      ensures AllFounded(resolve, ent, parentMod, |old(currMod.brought)|, currMod.brought, currMod.broughtBy)
      ensures ok ==> Accounted(resolve, ent, parentMod, |old(currMod.brought)|, true, ent.nodes, BroughtOf(all))
      ensures !ok ==> Faulty(resolve, ent, parentMod, |old(currMod.brought)|, false)
      ensures ok ==> LeavesHaveState(ent.nodes)
      decreases ent.nodes, 0
    {
      hide BroughtGroup.IsTree, IsFine, Consistent, LeavesHaveState, Accounted, Leads, IsSkipped, IsError, IsFounded,
           Faulty;
      ent.Below();
      ent.Apart();
      ghost var start := |currMod.brought|;
      NothingAddedYet(resolve, ent, parentMod, currMod, all);
      for i := 0 to |ent.members|
        invariant Consistent(currMod, all) && OnlyAdds(currMod, all)
        invariant ModulesFrom(currMod.brought, |old(currMod.brought)|)
        invariant AllFounded(resolve, ent, parentMod, start, currMod.brought, currMod.broughtBy)
        invariant forall k, g :: i <= k < |ent.members| && g in ent.members[k].nodes ==> !g.isAlreadyBrought
        invariant forall k :: 0 <= k < i ==> LeavesHaveState(ent.members[k].nodes)
        invariant forall k :: 0 <= k < i ==>
          Accounted(resolve, ent, parentMod, start, true, ent.members[k].nodes, BroughtOf(all))
      {
        ghost var brought, groups, done := currMod.brought, currMod.broughtBy, BroughtOf(all);
        label before:
        ok := CreateHandler(ent.members[i], mod, currMod, resolve, all);
        FoundedFromAbove(resolve, ent, parentMod, start, i, mod, brought, groups, currMod.brought, currMod.broughtBy);
        forall k | 0 <= k < i
          ensures LeavesHaveState(ent.members[k].nodes)
          ensures Accounted(resolve, ent, parentMod, start, true, ent.members[k].nodes, BroughtOf(all))
        {
          StillHaveState@before(ent.members[k].nodes);
          StillAccounted(resolve, ent, parentMod, start, true, ent.members[k].nodes, done, BroughtOf(all));
        }
        if !ok {
          FaultyFromAbove(resolve, ent, parentMod, start, i, mod, |brought|, false);
          return;
        }
        AccountedFromAbove(resolve, ent, parentMod, start, i, mod, |brought|, true, ent.members[i].nodes,
                           BroughtOf(all));
      }
      ok := true;
      StatesAbove(ent);
      AccountedAbove(resolve, ent, parentMod, start, true, BroughtOf(all));
    }

    /**
     One group when a phase runs: what is not brought yet is brought, if it can be found. Members are
     looked for in the module that their group leads to.
     */
    method BringHandler(ent: BroughtGroup, parentMod: nat, currentMod: Mod, resolve: Resolver,
                        ghost all: set<BroughtGroup>)
      returns (ok: bool)
      requires ent.IsTree() && ent.nodes <= all && Consistent(currentMod, all)
      modifies currentMod, ent.nodes
      ensures Consistent(currentMod, all) && OnlyAdds(currentMod, all)
      ensures AllFounded(resolve, ent, parentMod, |old(currentMod.brought)|, currentMod.brought, currentMod.broughtBy)
      ensures ok ==>
        Accounted(resolve, ent, parentMod, |old(currentMod.brought)|, false, ent.nodes, BroughtOf(all))
      ensures !ok ==> Faulty(resolve, ent, parentMod, |old(currentMod.brought)|, throwErrorsWhenUnfound)
      ensures ok && throwErrorsWhenUnfound ==> LeavesBrought(ent.nodes)
      ensures old(LeavesBrought(ent.nodes)) ==> currentMod.brought == old(currentMod.brought)
      decreases ent.nodes
    {
      hide Leads, IsSkipped, IsError, IsFounded, Faulty;
      if ent.isAlreadyBrought {
        assert IsFine(currentMod, ent);
        return true;
      }
      ghost var brought, groups := currentMod.brought, currentMod.broughtBy;
      match resolve(|currentMod.brought|, parentMod, ent.relative, ent.entity) {
        case Failed =>
          FaultyHere(resolve, ent, parentMod, |brought|, throwErrorsWhenUnfound);
          ok := false;
        case ToModule(mod) =>
          if ent.members == [] {
            FoundedHere(resolve, ent, parentMod, brought, groups, Brought(Module, mod, ent.alias));
            BringFor(ent, Module, mod, currentMod, all);
            ok := true;
          } else {
            ok := BringMembers(ent, mod, currentMod, resolve, parentMod, all);
          }
        case ToEntity(kind, entity) =>
          if ent.members != [] {
            FaultyHere(resolve, ent, parentMod, |brought|, throwErrorsWhenUnfound);
            return false;
          }
          FoundedHere(resolve, ent, parentMod, brought, groups, Brought(kind, entity, ent.alias));
          BringFor(ent, kind, entity, currentMod, all);
          ok := true;
        case ToNothing =>
          ok := ent.members == [] && !throwErrorsWhenUnfound;
          if ok {
            SkippedHere(resolve, ent, parentMod, |brought|, false);
            StillAccounted(resolve, ent, parentMod, |brought|, false, ent.nodes, {}, BroughtOf(all));
          } else {
            FaultyHere(resolve, ent, parentMod, |brought|, throwErrorsWhenUnfound);
          }
      }
    }

    method BringMembers(ent: BroughtGroup, mod: nat, currentMod: Mod, resolve: Resolver, ghost parentMod: nat,
                        ghost all: set<BroughtGroup>)
      returns (ok: bool)
      requires ent.IsTree() && ent.nodes <= all && ent.members != [] && Consistent(currentMod, all)
      requires resolve(|currentMod.brought|, parentMod, ent.relative, ent.entity) == ToModule(mod)
      modifies currentMod, ent.nodes - {ent}
      ensures Consistent(currentMod, all) && OnlyAdds(currentMod, all)
      ensures AllFounded(resolve, ent, parentMod, |old(currentMod.brought)|, currentMod.brought, currentMod.broughtBy)
      ensures ok ==>
        Accounted(resolve, ent, parentMod, |old(currentMod.brought)|, false, ent.nodes, BroughtOf(all))
      ensures !ok ==> Faulty(resolve, ent, parentMod, |old(currentMod.brought)|, throwErrorsWhenUnfound)
      ensures ok && throwErrorsWhenUnfound ==> LeavesBrought(ent.nodes)
      ensures old(LeavesBrought(ent.nodes)) ==> currentMod.brought == old(currentMod.brought)
      decreases ent.nodes, 0
    {
      hide BroughtGroup.IsTree, IsFine, LeavesBrought, Accounted, Leads, IsSkipped, IsError, IsFounded, Faulty;
      ent.Below();
      if LeavesBrought(ent.nodes) {
        LeavesBelow(ent);
      }
      ghost var start := |currentMod.brought|;
      for i := 0 to |ent.members|
        invariant Consistent(currentMod, all) && OnlyAdds(currentMod, all)
        invariant AllFounded(resolve, ent, parentMod, start, currentMod.brought, currentMod.broughtBy)
        invariant forall k :: 0 <= k < i ==>
          Accounted(resolve, ent, parentMod, start, false, ent.members[k].nodes, BroughtOf(all))
        invariant throwErrorsWhenUnfound ==> forall k :: 0 <= k < i ==> LeavesBrought(ent.members[k].nodes)
        invariant old(LeavesBrought(ent.nodes)) ==> currentMod.brought == old(currentMod.brought)
      {
        ghost var brought, groups, done := currentMod.brought, currentMod.broughtBy, BroughtOf(all);
        label before:
        StillBrought(ent.members[i].nodes);
        ok := BringHandler(ent.members[i], mod, currentMod, resolve, all);
        FoundedFromAbove(resolve, ent, parentMod, start, i, mod, brought, groups, currentMod.brought,
                         currentMod.broughtBy);
        forall k | 0 <= k < i
          ensures throwErrorsWhenUnfound ==> LeavesBrought(ent.members[k].nodes)
          ensures Accounted(resolve, ent, parentMod, start, false, ent.members[k].nodes, BroughtOf(all))
        {
          StillBrought@before(ent.members[k].nodes);
          StillAccounted(resolve, ent, parentMod, start, false, ent.members[k].nodes, done, BroughtOf(all));
        }
        if !ok {
          FaultyFromAbove(resolve, ent, parentMod, start, i, mod, |brought|, throwErrorsWhenUnfound);
          return;
        }
        AccountedFromAbove(resolve, ent, parentMod, start, i, mod, |brought|, false, ent.members[i].nodes,
                           BroughtOf(all));
      }
      ok := true;
      AccountedAbove(resolve, ent, parentMod, start, false, BroughtOf(all));
      if throwErrorsWhenUnfound {
        LeavesAbove(ent);
      }
    }

    method CreateEntity(currMod: Mod, resolve: Resolver, ghost all: set<BroughtGroup>) returns (ok: bool)
      requires IsForest() && Nodes() <= all && Consistent(currMod, all)
      requires forall g :: g in Nodes() ==> !g.isAlreadyBrought
      modifies currMod, Nodes()
      ensures Consistent(currMod, all) && OnlyAdds(currMod, all)
      ensures ModulesFrom(currMod.brought, |old(currMod.brought)|)
      ensures AllFoundedInTrees(resolve, entities, currMod.id, |old(currMod.brought)|, currMod.brought,
                                currMod.broughtBy)
      ensures ok ==>
        AllAccounted(resolve, entities, |entities|, currMod.id, |old(currMod.brought)|, true, BroughtOf(all))
      ensures !ok ==> SomeFaulty(resolve, entities, currMod.id, |old(currMod.brought)|, false)
      ensures ok ==> LeavesHaveState(Nodes())
    {
      hide IsFine, Consistent, Nodes, LeavesHaveState, Accounted, Faulty, IsFounded, BroughtOf;
      TreesAreWithin();
      ghost var start := |currMod.brought|;
      NothingAddedByTrees(resolve, currMod, all);
      for i := 0 to |entities|
        invariant Consistent(currMod, all) && OnlyAdds(currMod, all)
        invariant ModulesFrom(currMod.brought, |old(currMod.brought)|)
        invariant AllFoundedInTrees(resolve, entities, currMod.id, start, currMod.brought, currMod.broughtBy)
        invariant AllAccounted(resolve, entities, i, currMod.id, start, true, BroughtOf(all))
        invariant forall k, g :: i <= k < |entities| && g in entities[k].nodes ==> !g.isAlreadyBrought
        invariant forall k :: 0 <= k < i ==> LeavesHaveState(entities[k].nodes)
      {
        ghost var brought, groups, done := currMod.brought, currMod.broughtBy, BroughtOf(all);
        label before:
        ok := CreateHandler(entities[i], currMod.id, currMod, resolve, all);
        FoundedInTree(resolve, entities, currMod.id, start, i, brought, groups, currMod.brought, currMod.broughtBy);
        forall k | 0 <= k < i
          ensures LeavesHaveState(entities[k].nodes)
        {
          StillHaveState@before(entities[k].nodes);
        }
        if !ok {
          FaultyEarlier(resolve, entities[i], currMod.id, start, |brought|, false);
          return;
        }
        MoreAreBrought@before(all);
        OneMoreAccounted(resolve, entities, i, currMod.id, start, |brought|, true, done, BroughtOf(all));
      }
      ok := true;
      LeavesOfTrees();
    }

    lemma NothingAddedByTrees(resolve: Resolver, currMod: Mod, all: set<BroughtGroup>)
      requires Consistent(currMod, all)
      ensures AllFoundedInTrees(resolve, entities, currMod.id, |currMod.brought|, currMod.brought, currMod.broughtBy)
    {
    }

    /** A phase of the imports, or of the entity of any of their leaves: the phase makes no difference. */
    method DoPhase(currentMod: Mod, resolve: Resolver, ghost all: set<BroughtGroup>) returns (ok: bool)
      requires IsForest() && Nodes() <= all && Consistent(currentMod, all)
      modifies currentMod, Nodes()
      ensures Consistent(currentMod, all) && OnlyAdds(currentMod, all)
      ensures AllFoundedInTrees(resolve, entities, currentMod.id, |old(currentMod.brought)|, currentMod.brought,
                                currentMod.broughtBy)
      ensures ok ==>
        AllAccounted(resolve, entities, |entities|, currentMod.id, |old(currentMod.brought)|, false, BroughtOf(all))
      ensures !ok ==>
        SomeFaulty(resolve, entities, currentMod.id, |old(currentMod.brought)|, throwErrorsWhenUnfound)
      ensures ok && throwErrorsWhenUnfound ==> LeavesBrought(Nodes())
      ensures old(LeavesBrought(Nodes())) ==> currentMod.brought == old(currentMod.brought)
    {
      hide IsFine, Consistent, Nodes, LeavesBrought, Accounted, Faulty, IsFounded, BroughtOf;
      TreesAreWithin();
      LeavesOfTrees();
      ghost var start := |currentMod.brought|;
      NothingAddedByTrees(resolve, currentMod, all);
      for i := 0 to |entities|
        invariant Consistent(currentMod, all) && OnlyAdds(currentMod, all)
        invariant AllFoundedInTrees(resolve, entities, currentMod.id, start, currentMod.brought, currentMod.broughtBy)
        invariant AllAccounted(resolve, entities, i, currentMod.id, start, false, BroughtOf(all))
        invariant throwErrorsWhenUnfound ==> forall k :: 0 <= k < i ==> LeavesBrought(entities[k].nodes)
        invariant old(LeavesBrought(Nodes())) ==> currentMod.brought == old(currentMod.brought)
      {
        ghost var brought, groups, done := currentMod.brought, currentMod.broughtBy, BroughtOf(all);
        label before:
        StillBrought(entities[i].nodes);
        ok := BringHandler(entities[i], currentMod.id, currentMod, resolve, all);
        FoundedInTree(resolve, entities, currentMod.id, start, i, brought, groups, currentMod.brought,
                      currentMod.broughtBy);
        forall k | 0 <= k < i && throwErrorsWhenUnfound
          ensures LeavesBrought(entities[k].nodes)
        {
          StillBrought@before(entities[k].nodes);
        }
        if !ok {
          FaultyEarlier(resolve, entities[i], currentMod.id, start, |brought|, throwErrorsWhenUnfound);
          return;
        }
        MoreAreBrought@before(all);
        OneMoreAccounted(resolve, entities, i, currentMod.id, start, |brought|, false, done, BroughtOf(all));
      }
      ok := true;
      LeavesOfTrees();
    }

    /**
     The imports of one sentence over the whole run of the compiler: they are created once, and then
     any number of phases runs on them, each finding whatever it finds. Each leaf ends up with at most
     one entry in the module, whatever the module held before.
     */
    method Emit(currMod: Mod, onCreate: Resolver, onPhase: seq<Resolver>, ghost all: set<BroughtGroup>)
      returns (created: bool, ok: bool)
      requires IsForest() && Nodes() <= all && Consistent(currMod, all)
      requires forall g :: g in Nodes() ==> !g.isAlreadyBrought
      modifies currMod, Nodes()
      ensures Consistent(currMod, all) && OnlyAdds(currMod, all)
      ensures forall g :: g in Nodes() ==> Occurrences(currMod.broughtBy, g) == if g.isAlreadyBrought then 1 else 0
      ensures created ==> BroughtAreComplete(Nodes())
      ensures AllFoundedSometime([onCreate] + onPhase, entities, currMod.id, |old(currMod.brought)|, currMod.brought,
                                 currMod.broughtBy)
    {
      hide SomeFounded, Accounted, SomeFaulty;
      ghost var start, resolvers := |currMod.brought|, [onCreate] + onPhase;
      created := CreateEntity(currMod, onCreate, all);
      ok := created;
      FoundedAtOnce(resolvers, 0, entities, currMod.id, start, currMod.brought, currMod.broughtBy);
      for i := 0 to |onPhase|
        invariant Consistent(currMod, all) && OnlyAdds(currMod, all)
        invariant created ==> LeavesHaveState(Nodes())
        invariant AllFoundedSometime(resolvers, entities, currMod.id, start, currMod.brought, currMod.broughtBy)
      {
        ghost var brought, groups := currMod.brought, currMod.broughtBy;
        ok := DoPhase(currMod, onPhase[i], all);
        FoundedLater(resolvers, i + 1, entities, currMod.id, start, brought, groups, currMod.brought,
                     currMod.broughtBy);
      }
      assert forall g :: g in Nodes() ==> IsFine(currMod, g);
    }
  }

  /** The entity of a leaf that was brought is complete. */
  ghost predicate BroughtAreComplete(groups: set<BroughtGroup>)
    reads groups
  {
    forall g :: g in groups && g.isAlreadyBrought ==> g.entityState == Some(Complete)
  }

  // ---------------------------------------------------------------------------
  // All imports of a module

  /** What happens to the imports of a module, in the order in which it happens. */
  datatype Event =
    | Create(node: BringEntities, resolve: Resolver)
    | Phase(node: BringEntities, resolve: Resolver)
    | Path(target: nat, name: Option<string>)

  /** Import sentences have trees of their own, and each is created before anything else happens to it. */
  ghost predicate InOrder(events: seq<Event>, all: set<BroughtGroup>) {
    && (forall k :: 0 <= k < |events| && !events[k].Path? ==>
          events[k].node.IsForest() && events[k].node.Nodes() <= all)
    && (forall k, l :: 0 <= k < l < |events| && !events[k].Path? && !events[l].Path? ==>
          events[k].node == events[l].node || events[k].node.Nodes() !! events[l].node.Nodes())
    && (forall k, l :: 0 <= k < l < |events| && !events[k].Path? && events[l].Create? ==>
          events[k].node != events[l].node)
  }

  /** The groups of a sentence that is created later are not brought yet. */
  ghost predicate NotYetBrought(events: seq<Event>, from: nat)
    reads set k, g | from <= k < |events| && events[k].Create? && g in events[k].node.Nodes() :: g
  {
    forall k, g :: from <= k < |events| && events[k].Create? && g in events[k].node.Nodes() ==> !g.isAlreadyBrought
  }

  /** What a successful event has established is still so. */
  ghost predicate Settled(event: Event)
    reads if event.Path? then {} else event.node.Nodes()
  {
    && (event.Create? ==> LeavesHaveState(event.node.Nodes()))
    && (event.Phase? && event.node.throwErrorsWhenUnfound ==> LeavesBrought(event.node.Nodes()))
  }

  twostate lemma StillSettled(event: Event)
    requires event.Path? || forall g :: g in event.node.Nodes() && old(g.isAlreadyBrought) ==> g.isAlreadyBrought
    requires event.Path? || forall g :: g in event.node.Nodes() && old(g.entityState.Some?) ==> g.entityState.Some?
    requires old(Settled(event))
    ensures Settled(event)
  {
  }

  /** The event explains the entry at position `k`. */
  ghost predicate Explains(event: Event, mod: nat, start: nat, k: nat, entry: Brought, g: BroughtGroup?) {
    match event
    case Create(node, resolve) => SomeFounded(resolve, node.entities, mod, start, k, entry, g)
    case Phase(node, resolve) => SomeFounded(resolve, node.entities, mod, start, k, entry, g)
    case Path(target, name) => g == null && entry == Brought(Module, target, name)
  }

  ghost predicate ExplainedByOne(
      events: seq<Event>, n: nat, mod: nat, start: nat, k: nat, entry: Brought, g: BroughtGroup?)
    requires n <= |events|
  {
    exists j :: 0 <= j < n && Explains(events[j], mod, start, k, entry, g)
  }

  ghost predicate AllExplained(
      events: seq<Event>, n: nat, mod: nat, start: nat, brought: seq<Brought>, groups: seq<BroughtGroup?>)
    requires n <= |events|
  {
    && |brought| == |groups|
    && forall k :: start <= k < |brought| ==> ExplainedByOne(events, n, mod, start, k, brought[k], groups[k])
  }

  /** An event has gone well if every leaf is accounted for, and badly if some way led to an error. */
  ghost predicate Went(event: Event, ok: bool, mod: nat, start: nat, done: set<BroughtGroup>) {
    match event
    case Create(node, resolve) =>
      if ok then AllAccounted(resolve, node.entities, |node.entities|, mod, start, true, done)
      else SomeFaulty(resolve, node.entities, mod, start, false)
    case Phase(node, resolve) =>
      if ok then AllAccounted(resolve, node.entities, |node.entities|, mod, start, false, done)
      else SomeFaulty(resolve, node.entities, mod, start, node.throwErrorsWhenUnfound)
    case Path(_, _) => ok
  }

  /** The entries of one more event. */
  lemma OneMoreExplained(
      events: seq<Event>, i: nat, mod: nat, start: nat, before: seq<Brought>, groupsBefore: seq<BroughtGroup?>,
      brought: seq<Brought>, groups: seq<BroughtGroup?>)
    requires i < |events| && start <= |before| && before <= brought && groupsBefore <= groups
    requires |brought| == |groups|
    requires AllExplained(events, i, mod, start, before, groupsBefore)
    requires forall k :: |before| <= k < |brought| ==>
      Explains(events[i], mod, |before|, k, brought[k], groups[k])
    ensures AllExplained(events, i + 1, mod, start, brought, groups)
  {
    hide SomeFounded;
    forall k | start <= k < |brought|
      ensures ExplainedByOne(events, i + 1, mod, start, k, brought[k], groups[k])
    {
      if k < |before| {
        assert ExplainedByOne(events, i, mod, start, k, before[k], groupsBefore[k]);
      } else {
        assert Explains(events[i], mod, |before|, k, brought[k], groups[k]);
        if !events[i].Path? {
          SomeFoundedEarlier(events[i].resolve, events[i].node.entities, mod, start, |before|, k, brought[k],
                             groups[k]);
        }
        assert Explains(events[i], mod, start, k, brought[k], groups[k]);
      }
    }
  }

  lemma WentEarlier(
      event: Event, ok: bool, mod: nat, start: nat, later: nat, done: set<BroughtGroup>, done': set<BroughtGroup>)
    requires start <= later && done <= done' && Went(event, ok, mod, later, done)
    ensures Went(event, ok, mod, start, done')
  {
    hide Accounted, Faulty;
    if !event.Path? {
      var entities, early := event.node.entities, event.Create?;
      if ok {
        forall k | 0 <= k < |entities|
          ensures Accounted(event.resolve, entities[k], mod, start, early, entities[k].nodes, done')
        {
          AccountedEarlier(event.resolve, entities[k], mod, start, later, early, done);
          StillAccounted(event.resolve, entities[k], mod, start, early, entities[k].nodes, done, done');
        }
      } else {
        var mustFind := event.Phase? && event.node.throwErrorsWhenUnfound;
        var k :| 0 <= k < |entities| && Faulty(event.resolve, entities[k], mod, later, mustFind);
        FaultyEarlier(event.resolve, entities[k], mod, start, later, mustFind);
      }
    }
  }

  /**
   All imports of a module over the whole run of the compiler, where the creations and the phases of
   different sentences and the imports of paths are mixed in any way: each leaf of each sentence has
   one entry if it was brought and none otherwise. Each entry is for a path, or for what the way to
   its leaf led to in one of the events; and each event accounts for its leaves, or met an error.
   */
  method EmitImports(currMod: Mod, events: seq<Event>, ghost all: set<BroughtGroup>) returns (oks: seq<bool>)
    requires InOrder(events, all) && NotYetBrought(events, 0) && Consistent(currMod, all)
    modifies currMod, all
    ensures |oks| == |events| && Consistent(currMod, all) && OnlyAdds(currMod, all)
    ensures forall g :: g in all ==> Occurrences(currMod.broughtBy, g) == if g.isAlreadyBrought then 1 else 0
    ensures AllExplained(events, |events|, currMod.id, |old(currMod.brought)|, currMod.brought, currMod.broughtBy)
    ensures forall k :: 0 <= k < |events| ==>
      Went(events[k], oks[k], currMod.id, |old(currMod.brought)|, BroughtOf(all))
    ensures forall k :: 0 <= k < |events| && oks[k] ==> Settled(events[k])
    ensures forall k :: 0 <= k < |events| && oks[k] && events[k].Create? ==>
      BroughtAreComplete(events[k].node.Nodes())
    ensures forall k :: 0 <= k < |events| && events[k].Path? ==>
      Brought(Module, events[k].target, events[k].name) in currMod.brought
  {
    hide Explains, Went, BroughtOf, ExplainedByOne;
    ghost var start := |currMod.brought|;
    oks := [];
    for i := 0 to |events|
      invariant Consistent(currMod, all) && OnlyAdds(currMod, all)
      invariant NotYetBrought(events, i)
      invariant |oks| == i && forall k :: 0 <= k < i && oks[k] ==> Settled(events[k])
      invariant AllExplained(events, i, currMod.id, start, currMod.brought, currMod.broughtBy)
      invariant forall k :: 0 <= k < i ==> Went(events[k], oks[k], currMod.id, start, BroughtOf(all))
      invariant forall k :: 0 <= k < i && events[k].Path? ==>
        Brought(Module, events[k].target, events[k].name) in currMod.brought
    {
      ghost var brought, groups, done := currMod.brought, currMod.broughtBy, BroughtOf(all);
      label before:
      var ok := OneEvent(currMod, events, i, all);
      OneMoreExplained(events, i, currMod.id, start, brought, groups, currMod.brought, currMod.broughtBy);
      MoreAreBrought@before(all);
      WentEarlier(events[i], ok, currMod.id, start, |brought|, BroughtOf(all), BroughtOf(all));
      forall k | 0 <= k < i
        ensures oks[k] ==> Settled(events[k])
        ensures Went(events[k], oks[k], currMod.id, start, BroughtOf(all))
      {
        if oks[k] {
          StillSettled@before(events[k]);
        }
        WentEarlier(events[k], oks[k], currMod.id, start, start, done, BroughtOf(all));
      }
      oks := oks + [ok];
    }
    assert forall g :: g in all ==> IsFine(currMod, g);
  }

  method OneEvent(currMod: Mod, events: seq<Event>, i: nat, ghost all: set<BroughtGroup>) returns (ok: bool)
    requires i < |events| && InOrder(events, all) && NotYetBrought(events, i) && Consistent(currMod, all)
    modifies currMod, all
    ensures Consistent(currMod, all) && OnlyAdds(currMod, all)
    ensures NotYetBrought(events, i + 1) && (ok ==> Settled(events[i]))
    ensures forall k :: |old(currMod.brought)| <= k < |currMod.brought| ==>
      Explains(events[i], currMod.id, |old(currMod.brought)|, k, currMod.brought[k], currMod.broughtBy[k])
    ensures Went(events[i], ok, currMod.id, |old(currMod.brought)|, BroughtOf(all))
    ensures events[i].Path? ==>
      currMod.brought == old(currMod.brought) + [Brought(Module, events[i].target, events[i].name)]
  {
    hide SomeFounded, AllAccounted, SomeFaulty;
    match events[i] {
      case Create(node, resolve) => ok := node.CreateEntity(currMod, resolve, all);
      case Phase(node, resolve) => ok := node.DoPhase(currMod, resolve, all);
      case Path(target, name) =>
        BringPath(target, name, currMod, all);
        ok := true;
    }
  }

  /** Entries are at most as many as groups: no group has two. */
  lemma AtMostOneEntry(mod: Mod, all: set<BroughtGroup>, i: nat, j: nat)
    requires Consistent(mod, all) && i < j < |mod.broughtBy|
    requires mod.broughtBy[i] != null && mod.broughtBy[i] in all
    ensures mod.broughtBy[i] != mod.broughtBy[j]
  {
    if mod.broughtBy[i] == mod.broughtBy[j] {
      assert IsFine(mod, mod.broughtBy[i]);
      OccursTwice(mod.broughtBy, i, j);
    }
  }

  lemma {:induction false} OccursTwice(s: seq<BroughtGroup?>, i: nat, j: nat)
    requires i < j < |s| && s[i] != null && s[i] == s[j]
    ensures Occurrences(s, s[i]) >= 2
    decreases |s|
  {
    var n := |s| - 1;
    if j < n {
      OccursTwice(s[..n], i, j);
    } else {
      OccursOnce(s[..n], i);
    }
  }

  lemma {:induction false} OccursOnce(s: seq<BroughtGroup?>, i: nat)
    requires i < |s| && s[i] != null
    ensures Occurrences(s, s[i]) >= 1
    decreases |s|
  {
    if i < |s| - 1 {
      OccursOnce(s[..|s| - 1], i);
    }
  }
}
