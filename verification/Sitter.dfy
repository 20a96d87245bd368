/**
 The objects the phase scheduler works on and the driver loop over them, proved against the
 transition system of `Scheduling`.
 */
module Sitter {
  import opened Wrappers
  import opened EmitPhases
  import opened Scheduling
  import opened SchedulingTheory

  /** One declaration of the program and how far it has been emitted. */
  class EntityState {
    var name: Option<string>
    var status: EntityStatus
    var maxPhase: EmitPhase
    var dependencies: seq<Dependency<EntityState>>
    var phaseToCompletion: Option<EmitPhase>
    var phaseToPartial: Option<EmitPhase>
    var supportsChildren: bool
    var phaseToChildrenPartial: Option<EmitPhase>
    var currentPhase: Option<EmitPhase>
    var iterations: nat

    ghost function Configuration(): Config<EntityState>
      reads this
    {
      Config(maxPhase, phaseToPartial, phaseToCompletion, supportsChildren, phaseToChildrenPartial,
             dependencies)
    }

    ghost function CurrentProgress(): Progress
      reads this
    {
      Progress(currentPhase, status)
    }

    constructor (name: Option<string>, maxPhase: EmitPhase)
      ensures this.name == name && iterations == 0
      ensures Configuration() == Config(maxPhase, None, None, false, None, [])
      ensures CurrentProgress() == Progress(None, NotBegun)
    {
      this.name, this.maxPhase := name, maxPhase;
      status, currentPhase, iterations := NotBegun, None, 0;
      dependencies := [];
      phaseToCompletion, phaseToPartial, phaseToChildrenPartial := None, None, None;
      supportsChildren := false;
    }

    /** A dependency is recorded once, and never on the entity itself. */
    method AddDependency(dep: Dependency<EntityState>)
      modifies this`dependencies
      ensures dependencies ==
        if dep.entity == this || dep in old(dependencies) then old(dependencies)
        else old(dependencies) + [dep]
      ensures (forall d :: d in old(dependencies) ==> d.entity != this) ==>
        forall d :: d in dependencies ==> d.entity != this
      ensures Distinct(old(dependencies)) ==> Distinct(dependencies)
    {
      if this == dep.entity {
        return;
      }
      var alreadyPresent := false;
      for i := 0 to |dependencies|
        invariant !alreadyPresent && dep !in dependencies[..i]
        invariant dependencies == old(dependencies)
      {
        if dependencies[i] == dep {
          alreadyPresent := true;
          break;
        }
      }
      if !alreadyPresent {
        dependencies := dependencies + [dep];
      }
    }

    predicate AreAllPhasesComplete()
      reads this
    {
      currentPhase.Some? && currentPhase.value == maxPhase
    }

    method IsReadyForNextPhase(ghost all: set<EntityState>) returns (ready: bool)
      requires this in all && forall d :: d in dependencies ==> d.entity in all
      ensures ready == Ready(SystemOf(all), StateOf(all), this)
      ensures WellFormedState(SystemOf(all), StateOf(all)) ==>
        (ready <==> TaggedHaveRunEnough(SystemOf(all), StateOf(all), this))
    {
      if WellFormedState(SystemOf(all), StateOf(all)) {
        ReadyInPhases(SystemOf(all), StateOf(all), this);
      }
      hide TaggedHaveRunEnough, WellFormedState;
      var nextPhase := GetNextPhase(currentPhase);
      ghost var sys, st := SystemOf(all), StateOf(all);
      assert sys[this].dependencies == dependencies && st[this].phase == currentPhase;
      ready := true;
      for i := 0 to |dependencies|
        invariant ready
        invariant forall k :: 0 <= k < i && dependencies[k].phase == nextPhase.value ==>
          MeetsIn(sys, st, dependencies[k])
      {
        var dep := dependencies[i];
        assert dep in dependencies;
        assert MeetsIn(sys, st, dep) == Meets(dep.kind, dep.entity.supportsChildren, dep.entity.status);
        if dep.phase == nextPhase.value {
          var entity := dep.entity;
          if dep.kind == OnPartial {
            if entity.status == NotBegun {
              ready := false;
              assert !MeetsIn(sys, st, sys[this].dependencies[i]);
              break;
            }
          } else if dep.kind == OnComplete {
            if Level(entity.status) < Level(Complete) {
              ready := false;
              assert !MeetsIn(sys, st, sys[this].dependencies[i]);
              break;
            }
          } else {
            if Level(entity.status) < Level(if entity.supportsChildren then ChildrenPartial else Complete) {
              ready := false;
              assert !MeetsIn(sys, st, sys[this].dependencies[i]);
              break;
            }
          }
        }
      }
    }

    /** Executes the next phase; what the phase emits is not modelled, only that it happened. */
    method DoNextPhase()
      modifies this`currentPhase, this`status
      ensures CurrentProgress() == Advance(old(Configuration()), old(CurrentProgress()))
    {
      var nextPhase := GetNextPhase(currentPhase).value;
      currentPhase := Some(nextPhase);
      if phaseToPartial.Some? && phaseToPartial.value == nextPhase {
        status := Partial;
      } else if phaseToCompletion.Some? && phaseToCompletion.value == nextPhase {
        status := Complete;
      } else if phaseToChildrenPartial.Some? && phaseToChildrenPartial.value == nextPhase {
        status := ChildrenPartial;
      } else if nextPhase == maxPhase && nextPhase != PHASE_LAST {
        status := if supportsChildren then ChildrenPartial else Complete;
      }
    }
  }

  /** A module, as far as scheduling is concerned. */
  class Mod {
    var entityEntries: seq<EntityState>

    constructor ()
      ensures entityEntries == []
    {
      entityEntries := [];
    }

    method AddEntity(name: Option<string>, maxPhase: EmitPhase) returns (entity: EntityState)
      modifies this
      ensures fresh(entity) && entityEntries == old(entityEntries) + [entity]
      ensures entity.Configuration() == Config(maxPhase, None, None, false, None, [])
      ensures entity.CurrentProgress() == Progress(None, NotBegun)
    {
      entity := new EntityState(name, maxPhase);
      entityEntries := entityEntries + [entity];
    }
  }

  ghost function SystemOf(all: set<EntityState>): System<EntityState>
    reads all
  {
    map e | e in all :: e.Configuration()
  }

  ghost function StateOf(all: set<EntityState>): State<EntityState>
    reads all
  {
    map e | e in all :: e.CurrentProgress()
  }

  /** The entries of the first `n` modules, in the order in which a sweep visits them. */
  ghost function Entries(modules: seq<Mod>, n: nat): seq<EntityState>
    requires n <= |modules|
    reads modules
  {
    if n == 0 then [] else Entries(modules, n - 1) + modules[n - 1].entityEntries
  }

  ghost predicate Lists(all: set<EntityState>, modules: seq<Mod>)
    reads modules
  {
    && Distinct(Entries(modules, |modules|))
    && (forall e :: e in all ==> e in Entries(modules, |modules|))
    && (forall e :: e in Entries(modules, |modules|) ==> e in all)
  }

  lemma {:induction false} EntriesPrefix(modules: seq<Mod>, n: nat)
    requires n < |modules|
    ensures Entries(modules, n) + modules[n].entityEntries <= Entries(modules, |modules|)
    decreases |modules| - n
  {
    if n + 1 < |modules| {
      EntriesPrefix(modules, n + 1);
    }
  }

  /** The turn of one entity within a sweep. */
  method Visit(entity: EntityState, ghost all: set<EntityState>)
    returns (moved: bool, incomplete: bool)
    requires entity in all && forall d :: d in entity.dependencies ==> d.entity in all
    modifies entity`status, entity`currentPhase, entity`iterations
    ensures SystemOf(all) == old(SystemOf(all))
    ensures moved == old(Enabled(SystemOf(all), StateOf(all), entity))
    ensures StateOf(all) ==
      if moved then Step(SystemOf(all), old(StateOf(all)), entity) else old(StateOf(all))
    ensures incomplete == Incomplete(SystemOf(all), StateOf(all), entity)
    ensures entity.iterations == old(entity.iterations) + 1
  {
    hide Advance, Ready, TaggedHaveRunEnough, WellFormedState;
    moved, incomplete := false, false;
    ghost var sys, st := SystemOf(all), StateOf(all);
    if !entity.AreAllPhasesComplete() {
      var ready := entity.IsReadyForNextPhase(all);
      if ready {
        entity.DoNextPhase();
        moved := true;
      }
      if !entity.AreAllPhasesComplete() {
        incomplete := true;
      }
    }
    entity.iterations := entity.iterations + 1;
    OneVisited(sys, st, SystemOf(all), StateOf(all), entity, moved);
  }

  /** After the visit of one entity everything is as it was, but for the phase that ran. */
  lemma OneVisited(
      sys: System<EntityState>, st: State<EntityState>, sys': System<EntityState>, st': State<EntityState>,
      entity: EntityState, moved: bool)
    requires entity in sys && sys.Keys == st.Keys == sys'.Keys == st'.Keys
    requires forall e :: e in sys ==> sys'[e] == sys[e]
    requires forall e :: e in st && e != entity ==> st'[e] == st[e]
    requires st'[entity] == if moved then Advance(sys[entity], st[entity]) else st[entity]
    ensures sys' == sys && st' == if moved then Step(sys, st, entity) else st
  {
    hide Advance;
  }

  /** What a sweep knows after visiting the entities in `visited`. */
  ghost predicate SweepInvariant(
      sys: System<EntityState>, st0: State<EntityState>, st: State<EntityState>, run0: seq<EntityState>,
      run: seq<EntityState>, visited: seq<EntityState>, moved: bool, incomplete: bool)
  {
    && ValidRun(sys, st0, run) && st == After(sys, st0, run)
    && run0 <= run && (moved <==> |run| > |run0|)
    && (incomplete <==> exists e :: e in visited && Incomplete(sys, st, e))
    && (!moved ==> forall e :: e in visited ==> !Enabled(sys, st, e))
  }

  /** Visiting one more entity keeps what the sweep knows. */
  lemma SweepVisit(
      sys: System<EntityState>, st0: State<EntityState>, st: State<EntityState>, run0: seq<EntityState>,
      run: seq<EntityState>, visited: seq<EntityState>, entity: EntityState, moved: bool, incomplete: bool)
    requires SweepInvariant(sys, st0, st, run0, run, visited, moved, incomplete)
    requires entity in sys && entity in st && entity !in visited
    ensures Enabled(sys, st, entity) ==>
      SweepInvariant(sys, st0, Step(sys, st, entity), run0, run + [entity], visited + [entity], true,
                     incomplete || Incomplete(sys, Step(sys, st, entity), entity))
    ensures !Enabled(sys, st, entity) ==>
      SweepInvariant(sys, st0, st, run0, run, visited + [entity], moved,
                     incomplete || Incomplete(sys, st, entity))
  {
    if Enabled(sys, st, entity) {
      RunSnoc(sys, st0, run, entity);
      var st' := Step(sys, st, entity);
      assert forall e :: e in visited ==> (Incomplete(sys, st', e) <==> Incomplete(sys, st, e));
      StillIncomplete(sys, st', visited, entity, incomplete);
    } else {
      StillIncomplete(sys, st, visited, entity, incomplete);
    }
  }

  lemma StillIncomplete(
      sys: System<EntityState>, st: State<EntityState>, visited: seq<EntityState>, entity: EntityState,
      incomplete: bool)
    requires incomplete <==> exists e :: e in visited && Incomplete(sys, st, e)
    ensures incomplete || Incomplete(sys, st, entity) <==>
      exists e :: e in visited + [entity] && Incomplete(sys, st, e)
  {
    if incomplete {
      var e :| e in visited && Incomplete(sys, st, e);
      assert e in visited + [entity];
    }
    assert entity in visited + [entity];
  }

  /** The part of a sweep that visits the entries of one module. */
  method SweepModule(
      mod: Mod, ghost all: set<EntityState>, ghost st0: State<EntityState>,
      ghost run0: seq<EntityState>, ghost run1: seq<EntityState>, ghost visited: seq<EntityState>,
      moved: bool, incomplete: bool)
    returns (atleastOneEntityDone: bool, hasIncompleteEntities: bool, ghost run: seq<EntityState>)
    requires WellFormedState(SystemOf(all), st0)
    requires forall e :: e in mod.entityEntries ==> e in all
    requires Distinct(visited + mod.entityEntries)
    requires SweepInvariant(SystemOf(all), st0, StateOf(all), run0, run1, visited, moved, incomplete)
    modifies all`status, all`currentPhase, all`iterations
    ensures SystemOf(all) == old(SystemOf(all))
    ensures SweepInvariant(SystemOf(all), st0, StateOf(all), run0, run, visited + mod.entityEntries,
                           atleastOneEntityDone, hasIncompleteEntities)
    ensures forall e :: e in all ==>
      e.iterations == old(e.iterations) + (if e in mod.entityEntries then 1 else 0)
  {
    hide SweepInvariant, ValidRun, After;
    atleastOneEntityDone, hasIncompleteEntities, run := moved, incomplete, run1;
    ghost var sys := SystemOf(all);
    var entries := mod.entityEntries;
    assert visited + entries[..0] == visited;
    for j := 0 to |entries|
      invariant SystemOf(all) == sys
      invariant SweepInvariant(sys, st0, StateOf(all), run0, run, visited + entries[..j],
                               atleastOneEntityDone, hasIncompleteEntities)
      invariant forall e :: e in all ==>
        e.iterations == old(e.iterations) + (if e in entries[..j] then 1 else 0)
    {
      var entity := entries[j];
      NotYetVisited(visited, entries, j);
      EntityIsClosed(all, entity);
      SweepVisit(sys, st0, StateOf(all), run0, run, visited + entries[..j], entity,
                 atleastOneEntityDone, hasIncompleteEntities);
      var entityMoved, entityIncomplete := Visit(entity, all);
      if entityMoved {
        atleastOneEntityDone := true;
        run := run + [entity];
      }
      if entityIncomplete {
        hasIncompleteEntities := true;
      }
    }
    assert entries[..|entries|] == entries;
  }

  lemma NotYetVisited(visited: seq<EntityState>, entries: seq<EntityState>, j: nat)
    requires j < |entries| && Distinct(visited + entries)
    ensures entries[j] !in entries[..j] && entries[j] !in visited + entries[..j]
    ensures visited + entries[..j + 1] == visited + entries[..j] + [entries[j]]
    ensures forall e :: e in entries[..j + 1] <==> e in entries[..j] || e == entries[j]
  {
    var both := visited + entries;
    assert both[|visited| + j] == entries[j];
    forall k | 0 <= k < |visited| + j
      ensures (visited + entries[..j])[k] != entries[j]
    {
      assert both[k] == (visited + entries[..j])[k];
    }
    forall k | 0 <= k < j
      ensures entries[..j][k] != entries[j]
    {
      assert both[|visited| + k] == entries[..j][k];
    }
    assert entries[..j + 1] == entries[..j] + [entries[j]];
  }

  lemma EntityIsClosed(all: set<EntityState>, entity: EntityState)
    requires WellFormedSystem(SystemOf(all)) && entity in all
    ensures forall d :: d in entity.dependencies ==> d.entity in all
  {
    var sys := SystemOf(all);
    forall d | d in entity.dependencies
      ensures d.entity in all
    {
      var i :| 0 <= i < |entity.dependencies| && entity.dependencies[i] == d;
      assert sys[entity].dependencies[i].entity in sys;
    }
  }

  lemma SweepStarts(
      sys: System<EntityState>, st0: State<EntityState>, st: State<EntityState>, run: seq<EntityState>)
    requires ValidRun(sys, st0, run) && st == After(sys, st0, run)
    ensures SweepInvariant(sys, st0, st, run, run, [], false, false)
  {
  }

  /** What a sweep knows once it has visited every entity. */
  lemma SweepEnds(
      sys: System<EntityState>, st0: State<EntityState>, st: State<EntityState>, run0: seq<EntityState>,
      run: seq<EntityState>, visited: seq<EntityState>, moved: bool, incomplete: bool)
    requires SweepInvariant(sys, st0, st, run0, run, visited, moved, incomplete)
    requires forall e :: e in sys ==> e in visited
    ensures ValidRun(sys, st0, run) && st == After(sys, st0, run)
    ensures run0 <= run && (moved <==> |run| > |run0|)
    ensures incomplete <==> !AllComplete(sys, st)
    ensures !moved ==> Quiescent(sys, st)
  {
  }

  /** What holds of the module a sweep turns to next. */
  lemma NextModule(modules: seq<Mod>, all: set<EntityState>, i: nat)
    requires i < |modules| && Lists(all, modules)
    ensures Distinct(Entries(modules, i) + modules[i].entityEntries)
    ensures forall e :: e in modules[i].entityEntries ==> e in all
    ensures forall e :: e in Entries(modules, i) ==> e !in modules[i].entityEntries
    ensures forall e :: e in Entries(modules, i + 1) <==>
      e in Entries(modules, i) || e in modules[i].entityEntries
  {
    EntriesPrefix(modules, i);
    PrefixIsDistinct(Entries(modules, i) + modules[i].entityEntries, Entries(modules, |modules|));
    DistinctPartsAreDisjoint(Entries(modules, i), modules[i].entityEntries);
  }

  /** One pass over all modules and their entries. */
  method Sweep(modules: seq<Mod>, ghost all: set<EntityState>, ghost st0: State<EntityState>,
               ghost run0: seq<EntityState>)
    returns (atleastOneEntityDone: bool, hasIncompleteEntities: bool, ghost run: seq<EntityState>)
    requires Lists(all, modules) && WellFormedState(SystemOf(all), st0)
    requires SweepInvariant(SystemOf(all), st0, StateOf(all), run0, run0, [], false, false)
    modifies all`status, all`currentPhase, all`iterations
    ensures SystemOf(all) == old(SystemOf(all))
    ensures SweepInvariant(SystemOf(all), st0, StateOf(all), run0, run, Entries(modules, |modules|),
                           atleastOneEntityDone, hasIncompleteEntities)
    ensures forall e :: e in all ==>
      e.iterations == old(e.iterations) + (if e in Entries(modules, |modules|) then 1 else 0)
  {
    hide SweepInvariant;
    atleastOneEntityDone, hasIncompleteEntities, run := false, false, run0;
    ghost var sys := SystemOf(all);
    for i := 0 to |modules|
      invariant SystemOf(all) == sys
      invariant SweepInvariant(sys, st0, StateOf(all), run0, run, Entries(modules, i),
                               atleastOneEntityDone, hasIncompleteEntities)
      invariant forall e :: e in all ==>
        e.iterations == old(e.iterations) + (if e in Entries(modules, i) then 1 else 0)
    {
      NextModule(modules, all, i);
      atleastOneEntityDone, hasIncompleteEntities, run :=
        SweepModule(modules[i], all, st0, run0, run, Entries(modules, i), atleastOneEntityDone,
                    hasIncompleteEntities);
    }
  }

  lemma DistinctPartsAreDisjoint(a: seq<EntityState>, b: seq<EntityState>)
    requires Distinct(a + b)
    ensures forall e :: e in a ==> e !in b
    ensures forall e :: e in a + b <==> e in a || e in b
  {
    forall i, j | 0 <= i < |a| && 0 <= j < |b|
      ensures a[i] != b[j]
    {
      assert (a + b)[i] == a[i] && (a + b)[|a| + j] == b[j];
    }
  }

  lemma PrefixIsDistinct(prefix: seq<EntityState>, whole: seq<EntityState>)
    requires prefix <= whole && Distinct(whole)
    ensures Distinct(prefix)
    ensures forall e :: e in prefix ==> e in whole
  {
    forall i, j | 0 <= i < j < |prefix|
      ensures prefix[i] != prefix[j]
    {
      assert prefix[i] == whole[i] && prefix[j] == whole[j];
    }
  }

  /** What holds before the first sweep. */
  lemma StartOfPhases(modules: seq<Mod>, all: set<EntityState>)
    requires Lists(all, modules) && WellFormedState(SystemOf(all), StateOf(all))
    ensures ValidRun(SystemOf(all), StateOf(all), []) && After(SystemOf(all), StateOf(all), []) == StateOf(all)
    ensures Distinct(Entries(modules, |modules|))
    ensures forall e :: e in Entries(modules, |modules|) <==> e in SystemOf(all)
    ensures forall e :: e in Entries(modules, |modules|) ==> e in StateOf(all)
  {
  }

  /**
   The driver: sweeps over all modules until every entity is complete or nothing moves. `run` is
   the order in which phases were executed and `sweeps` the number of passes made.
   */
  method RunPhases(modules: seq<Mod>, ghost all: set<EntityState>)
    returns (atleastOneEntityDone: bool, hasIncompleteEntities: bool, sweeps: nat,
             ghost run: seq<EntityState>)
    requires Lists(all, modules) && WellFormedState(SystemOf(all), StateOf(all))
    modifies all`status, all`currentPhase, all`iterations
    ensures SystemOf(all) == old(SystemOf(all))
    ensures ValidRun(SystemOf(all), old(StateOf(all)), run)
    ensures StateOf(all) == After(SystemOf(all), old(StateOf(all)), run)
    ensures Quiescent(SystemOf(all), StateOf(all))
    ensures hasIncompleteEntities <==> !AllComplete(SystemOf(all), StateOf(all))
    ensures hasIncompleteEntities ==> !atleastOneEntityDone
    ensures sweeps <= |run| + 1
    ensures sweeps <= old(Remaining(SystemOf(all), StateOf(all), Entries(modules, |modules|))) + 1
    ensures forall e :: e in all ==> e.iterations == old(e.iterations) + sweeps
  {
    hide SweepInvariant, ValidRun, After, Quiescent, AllComplete, Remaining, WellFormedState, Entries;
    ghost var sys, st0 := SystemOf(all), StateOf(all);
    ghost var order := Entries(modules, |modules|);
    StartOfPhases(modules, all);
    atleastOneEntityDone, hasIncompleteEntities, sweeps, run := true, true, 0, [];
    while hasIncompleteEntities && atleastOneEntityDone
      invariant SystemOf(all) == sys
      invariant ValidRun(sys, st0, run) && StateOf(all) == After(sys, st0, run)
      invariant sweeps > 0 ==> (hasIncompleteEntities <==> !AllComplete(sys, StateOf(all)))
      invariant !atleastOneEntityDone ==> Quiescent(sys, StateOf(all))
      invariant sweeps == 0 ==> hasIncompleteEntities && atleastOneEntityDone
      invariant sweeps <= |run| + if atleastOneEntityDone then 0 else 1
      invariant forall e :: e in all ==> e.iterations == old(e.iterations) + sweeps
      decreases Remaining(sys, st0, order) - |run|, atleastOneEntityDone
    {
      ghost var run0 := run;
      SweepStarts(sys, st0, StateOf(all), run0);
      atleastOneEntityDone, hasIncompleteEntities, run := Sweep(modules, all, st0, run0);
      sweeps := sweeps + 1;
      SweepEnds(sys, st0, StateOf(all), run0, run, order, atleastOneEntityDone, hasIncompleteEntities);
      RunLength(sys, st0, run, order);
    }
    RunLength(sys, st0, run, order);
    CompleteIsQuiescent(sys, StateOf(all));
  }

  lemma CompleteIsQuiescent(sys: System<EntityState>, st: State<EntityState>)
    ensures AllComplete(sys, st) ==> Quiescent(sys, st)
  {
  }
}
