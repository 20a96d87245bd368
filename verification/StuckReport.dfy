/** The report the driver makes when scheduling is stuck. */
module StuckReport {
  import opened EmitPhases
  import opened Scheduling
  import opened SchedulingTheory
  import opened Sitter

  /** A dependency named in a report; `partially` selects the wording. */
  datatype ReportLine = ReportLine(partially: bool, entity: EntityState)

  datatype Diagnosis = Diagnosis(
    entity: EntityState, partiallyCreated: bool, incompleteDepCount: nat, lines: seq<ReportLine>)

  /** The test of the report, which asks for the final status rather than a sufficient one. */
  ghost predicate Unsettled(sys: System<EntityState>, st: State<EntityState>, d: EntityState) {
    d in sys && d in st && st[d].status != Settled(sys[d])
  }

  /** The entities that `deps` names. */
  ghost function Targets(deps: seq<Dependency<EntityState>>): set<EntityState> {
    set i | 0 <= i < |deps| :: deps[i].entity
  }

  /** One line for the first mention of each unsettled entity, in order. */
  ghost function Lines(
      sys: System<EntityState>, st: State<EntityState>, deps: seq<Dependency<EntityState>>)
    : (lines: seq<ReportLine>)
    decreases |deps|
  {
    if deps == [] then []
    else
      var earlier, dep := deps[..|deps| - 1], deps[|deps| - 1];
      Lines(sys, st, earlier) +
      if dep.entity !in Targets(earlier) && Unsettled(sys, st, dep.entity) then
        [ReportLine(dep.kind == OnPartial, dep.entity)]
      else []
  }

  lemma TargetsSnoc(deps: seq<Dependency<EntityState>>)
    requires deps != []
    ensures Targets(deps) == Targets(deps[..|deps| - 1]) + {deps[|deps| - 1].entity}
  {
    var earlier := deps[..|deps| - 1];
    forall i | 0 <= i < |deps|
      ensures deps[i].entity in Targets(earlier) + {deps[|deps| - 1].entity}
    {
      if i < |deps| - 1 {
        assert earlier[i] == deps[i];
      }
    }
    forall i | 0 <= i < |earlier|
      ensures earlier[i].entity in Targets(deps)
    {
      assert earlier[i] == deps[i];
    }
    assert deps[|deps| - 1].entity in Targets(deps);
  }

  ghost function UnsettledTargets(
      sys: System<EntityState>, st: State<EntityState>, deps: seq<Dependency<EntityState>>): set<EntityState>
  {
    set d | d in Targets(deps) && Unsettled(sys, st, d)
  }

  /** The number of lines is the number of distinct unsettled dependencies. */
  lemma {:induction false} LinesCountUnsettled(
      sys: System<EntityState>, st: State<EntityState>, deps: seq<Dependency<EntityState>>)
    ensures |Lines(sys, st, deps)| == |UnsettledTargets(sys, st, deps)|
    ensures forall d :: d in UnsettledTargets(sys, st, deps) <==>
      exists k :: 0 <= k < |Lines(sys, st, deps)| && Lines(sys, st, deps)[k].entity == d
    decreases |deps|
  {
    if deps != [] {
      var earlier, d := deps[..|deps| - 1], deps[|deps| - 1].entity;
      LinesCountUnsettled(sys, st, earlier);
      TargetsSnoc(deps);
      var before, now := Lines(sys, st, earlier), Lines(sys, st, deps);
      if d !in Targets(earlier) && Unsettled(sys, st, d) {
        assert UnsettledTargets(sys, st, deps) == UnsettledTargets(sys, st, earlier) + {d};
        assert now[|now| - 1].entity == d;
        assert forall k :: 0 <= k < |before| ==> now[k] == before[k];
      } else {
        assert UnsettledTargets(sys, st, deps) == UnsettledTargets(sys, st, earlier);
        assert now == before;
      }
    }
  }

  /**
   When scheduling is stuck, every incomplete entity has at least one unsettled dependency, so the
   diagnosis made for it is never empty.
   */
  lemma DiagnosisNotEmpty(sys: System<EntityState>, st: State<EntityState>, e: EntityState)
    requires WellFormedState(sys, st) && Quiescent(sys, st) && Incomplete(sys, st, e)
    ensures |Lines(sys, st, sys[e].dependencies)| >= 1
  {
    var i := StuckDependency(sys, st, e);
    var dep := sys[e].dependencies[i];
    LinesCountUnsettled(sys, st, sys[e].dependencies);
    assert dep.entity in Targets(sys[e].dependencies);
    assert dep.entity in UnsettledTargets(sys, st, sys[e].dependencies);
  }

  /** The diagnosis of one incomplete entity. */
  ghost function DiagnosisOf(sys: System<EntityState>, st: State<EntityState>, e: EntityState): Diagnosis
    requires e in sys && e in st
  {
    var lines := Lines(sys, st, sys[e].dependencies);
    Diagnosis(e, st[e].status == Partial, |lines|, lines)
  }

  /** The diagnoses of the incomplete entities among `entries`, in order. */
  ghost function Diagnoses(
      sys: System<EntityState>, st: State<EntityState>, entries: seq<EntityState>): seq<Diagnosis>
    decreases |entries|
  {
    if entries == [] then []
    else
      var earlier, e := entries[..|entries| - 1], entries[|entries| - 1];
      Diagnoses(sys, st, earlier) + if Incomplete(sys, st, e) then [DiagnosisOf(sys, st, e)] else []
  }

  lemma {:induction false} DiagnosesAppend(
      sys: System<EntityState>, st: State<EntityState>, a: seq<EntityState>, b: seq<EntityState>)
    ensures Diagnoses(sys, st, a + b) == Diagnoses(sys, st, a) + Diagnoses(sys, st, b)
    decreases |b|
  {
    if b == [] {
      assert a + b == a;
    } else {
      var c := b[..|b| - 1];
      assert (a + b)[..|a + b| - 1] == a + c;
      DiagnosesAppend(sys, st, a, c);
    }
  }

  /**
   When scheduling is stuck, each diagnosis is about an incomplete entity, and the count it gives
   is the number of distinct unsettled dependencies of that entity, which is at least one.
   */
  lemma {:induction false} DiagnosesAreSound(
      sys: System<EntityState>, st: State<EntityState>, entries: seq<EntityState>, k: nat)
    requires WellFormedState(sys, st) && Quiescent(sys, st)
    requires k < |Diagnoses(sys, st, entries)|
    ensures var d := Diagnoses(sys, st, entries)[k];
      && d.entity in entries && Incomplete(sys, st, d.entity)
      && d.incompleteDepCount == |UnsettledTargets(sys, st, sys[d.entity].dependencies)| >= 1
      && |d.lines| == d.incompleteDepCount
      && (d.partiallyCreated <==>
            !SettledInAdvance(sys[d.entity], st[d.entity])
            && RanEnough(OnPartial, sys[d.entity], Rank(st[d.entity].phase))
            && !RanEnough(OnComplete, sys[d.entity], Rank(st[d.entity].phase)))
    decreases |entries|
  {
    hide Lines, UnsettledTargets, RanEnough, SettledInAdvance, Quiescent, WellFormedConfig, Coherent;
    var earlier, e := entries[..|entries| - 1], entries[|entries| - 1];
    if k < |Diagnoses(sys, st, earlier)| {
      DiagnosesAreSound(sys, st, earlier, k);
    } else {
      LinesCountUnsettled(sys, st, sys[e].dependencies);
      DiagnosisNotEmpty(sys, st, e);
      MeetsInPhases(OnPartial, sys[e], st[e]);
      MeetsInPhases(OnComplete, sys[e], st[e]);
    }
  }

  /** What the report calls unsettled has not run the phase after which its children can be used. */
  lemma UnsettledInPhases(sys: System<EntityState>, st: State<EntityState>, d: EntityState)
    requires WellFormedState(sys, st) && d in sys
    ensures Unsettled(sys, st, d) <==>
      !SettledInAdvance(sys[d], st[d]) && !RanEnough(OnChildrenPartial, sys[d], Rank(st[d].phase))
  {
    MeetsInPhases(OnChildrenPartial, sys[d], st[d]);
  }

  /** A line tells the kind of the first dependency on its entity. */
  lemma {:induction false} LineTellsFirstMention(
      sys: System<EntityState>, st: State<EntityState>, deps: seq<Dependency<EntityState>>, k: nat)
    returns (i: nat)
    requires k < |Lines(sys, st, deps)|
    ensures i < |deps| && deps[i].entity == Lines(sys, st, deps)[k].entity
    ensures forall j :: 0 <= j < i ==> deps[j].entity != deps[i].entity
    ensures Lines(sys, st, deps)[k].partially <==> deps[i].kind.OnPartial?
    decreases |deps|
  {
    var earlier := deps[..|deps| - 1];
    if k < |Lines(sys, st, earlier)| {
      i := LineTellsFirstMention(sys, st, earlier, k);
    } else {
      i := |deps| - 1;
      assert forall j :: 0 <= j < i ==> earlier[j].entity in Targets(earlier);
    }
  }

  /** Every incomplete entity is diagnosed. */
  lemma {:induction false} DiagnosesAreComplete(
      sys: System<EntityState>, st: State<EntityState>, entries: seq<EntityState>, i: nat)
    returns (k: nat)
    requires i < |entries| && Incomplete(sys, st, entries[i])
    ensures k < |Diagnoses(sys, st, entries)|
    ensures Diagnoses(sys, st, entries)[k] == DiagnosisOf(sys, st, entries[i])
    decreases |entries|
  {
    var earlier := entries[..|entries| - 1];
    if i < |earlier| {
      k := DiagnosesAreComplete(sys, st, earlier, i);
    } else {
      k := |Diagnoses(sys, st, earlier)|;
    }
  }

  /** The lines of the report on one entity. */
  method Describe(ent: EntityState, ghost all: set<EntityState>) returns (error: Diagnosis)
    requires ent in all && forall d :: d in ent.dependencies ==> d.entity in all
    ensures error == DiagnosisOf(SystemOf(all), StateOf(all), ent)
  {
    ghost var sys, st := SystemOf(all), StateOf(all);
    var deps := ent.dependencies;
    var lines: seq<ReportLine> := [];
    var incompleteDepCount := 0;
    var ents: set<EntityState> := {};
    for i := 0 to |deps|
      invariant ents == Targets(deps[..i])
      invariant lines == Lines(sys, st, deps[..i]) && incompleteDepCount == |lines|
    {
      var dep := deps[i];
      assert dep in ent.dependencies;
      assert deps[..i + 1][..i] == deps[..i];
      TargetsSnoc(deps[..i + 1]);
      if dep.entity in ents {
        continue;
      }
      ents := ents + {dep.entity};
      if if dep.entity.supportsChildren then dep.entity.status != ChildrenPartial
         else dep.entity.status != Complete {
        lines := lines + [ReportLine(dep.kind == OnPartial, dep.entity)];
        incompleteDepCount := incompleteDepCount + 1;
      }
    }
    assert deps[..|deps|] == deps;
    error := Diagnosis(ent, ent.status == Partial, incompleteDepCount, lines);
  }

  /** Reports the incomplete entities of one module. */
  method ReportModule(mod: Mod, ghost all: set<EntityState>) returns (errors: seq<Diagnosis>)
    requires WellFormedSystem(SystemOf(all)) && forall e :: e in mod.entityEntries ==> e in all
    ensures errors == Diagnoses(SystemOf(all), StateOf(all), mod.entityEntries)
  {
    ghost var sys, st := SystemOf(all), StateOf(all);
    errors := [];
    var entries := mod.entityEntries;
    for j := 0 to |entries|
      invariant errors == Diagnoses(sys, st, entries[..j])
    {
      var ent := entries[j];
      assert entries[..j + 1][..j] == entries[..j];
      if !ent.AreAllPhasesComplete() {
        EntityIsClosed(all, ent);
        var error := Describe(ent, all);
        errors := errors + [error];
      }
    }
    assert entries[..|entries|] == entries;
  }

  lemma ModuleIsListed(all: set<EntityState>, modules: seq<Mod>, i: nat)
    requires i < |modules| && Lists(all, modules)
    ensures forall e :: e in modules[i].entityEntries ==> e in all
  {
    EntriesPrefix(modules, i);
    PrefixIsDistinct(Entries(modules, i) + modules[i].entityEntries, Entries(modules, |modules|));
    forall e | e in modules[i].entityEntries
      ensures e in all
    {
      assert e in Entries(modules, i) + modules[i].entityEntries;
    }
  }

  /** Reports every incomplete entity of every module. */
  method ReportStuck(modules: seq<Mod>, ghost all: set<EntityState>) returns (errors: seq<Diagnosis>)
    requires Lists(all, modules) && WellFormedSystem(SystemOf(all))
    ensures errors == Diagnoses(SystemOf(all), StateOf(all), Entries(modules, |modules|))
  {
    hide WellFormedSystem, Lists, DiagnosisOf;
    ghost var sys, st := SystemOf(all), StateOf(all);
    errors := [];
    for i := 0 to |modules|
      invariant errors == Diagnoses(sys, st, Entries(modules, i))
    {
      ModuleIsListed(all, modules, i);
      DiagnosesAppend(sys, st, Entries(modules, i), modules[i].entityEntries);
      var moduleErrors := ReportModule(modules[i], all);
      errors := errors + moduleErrors;
    }
  }

  /** There is something to report exactly when some entity is incomplete. */
  lemma ReportMeansIncomplete(
      sys: System<EntityState>, st: State<EntityState>, entries: seq<EntityState>)
    requires WellFormedState(sys, st) && Quiescent(sys, st)
    requires forall e :: e in sys ==> e in entries
    ensures Diagnoses(sys, st, entries) == [] <==> AllComplete(sys, st)
  {
    if !AllComplete(sys, st) {
      var e :| e in sys && Incomplete(sys, st, e);
      var i :| 0 <= i < |entries| && entries[i] == e;
      var k := DiagnosesAreComplete(sys, st, entries, i);
    }
    if Diagnoses(sys, st, entries) != [] {
      DiagnosesAreSound(sys, st, entries, 0);
    }
  }

  /**
   Scheduling as a whole: runs all phases and reports what is stuck. Errors are reported exactly
   when some entity cannot be completed.
   */
  method Schedule(modules: seq<Mod>, ghost all: set<EntityState>)
    returns (errors: seq<Diagnosis>, ghost run: seq<EntityState>)
    requires Lists(all, modules) && WellFormedState(SystemOf(all), StateOf(all))
    modifies all`status, all`currentPhase, all`iterations
    ensures SystemOf(all) == old(SystemOf(all))
    ensures ValidRun(SystemOf(all), old(StateOf(all)), run)
    ensures StateOf(all) == After(SystemOf(all), old(StateOf(all)), run)
    ensures Quiescent(SystemOf(all), StateOf(all))
    ensures errors == [] <==> AllComplete(SystemOf(all), StateOf(all))
    ensures errors == Diagnoses(SystemOf(all), StateOf(all), Entries(modules, |modules|))
  {
    hide ValidRun, After, Quiescent, WellFormedState, Diagnoses, StateOf, Entries;
    ghost var sys, st0 := SystemOf(all), StateOf(all);
    var atleastOneEntityDone, hasIncompleteEntities, sweeps;
    atleastOneEntityDone, hasIncompleteEntities, sweeps, run := RunPhases(modules, all);
    RunKeepsWellFormed(sys, st0, run);
    ReportMeansIncomplete(sys, StateOf(all), Entries(modules, |modules|));
    errors := [];
    if !atleastOneEntityDone && hasIncompleteEntities {
      errors := ReportStuck(modules, all);
    }
  }
}
