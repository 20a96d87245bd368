/**
 What holds of every run of the phase scheduler, whatever the order in which the driver
 visits the entities.
 */
module SchedulingTheory {
  import opened Wrappers
  import opened EmitPhases
  import opened Scheduling

  // ---------------------------------------------------------------------------
  // The state is determined by how often each entity has moved

  function AdvanceN<E>(cfg: Config<E>, p: Progress, n: nat): Progress {
    if n == 0 then p else Advance(cfg, AdvanceN(cfg, p, n - 1))
  }

  lemma {:induction false} AdvanceNKeepsCoherent<E>(cfg: Config<E>, p: Progress, n: nat)
    requires WellFormedConfig(cfg) && Coherent(cfg, p)
    requires Rank(p.phase) + n <= Rank(Some(cfg.maxPhase))
    ensures Coherent(cfg, AdvanceN(cfg, p, n))
    ensures Rank(AdvanceN(cfg, p, n).phase) == Rank(p.phase) + n
    ensures p.status == ExpectedStatus(cfg, Rank(p.phase)) ==>
      AdvanceN(cfg, p, n).status == ExpectedStatus(cfg, Rank(p.phase) + n)
    ensures SettledInAdvance(cfg, p) ==> SettledInAdvance(cfg, AdvanceN(cfg, p, n))
  {
    hide ExpectedStatus, SettledInAdvance, Advance, WellFormedConfig;
    if n > 0 {
      AdvanceNKeepsCoherent(cfg, p, n - 1);
      AdvanceKeepsCoherent(cfg, AdvanceN(cfg, p, n - 1));
    }
  }

  /** Statuses never decrease as an entity moves through its phases. */
  lemma {:induction false} StatusMonotone<E>(cfg: Config<E>, p: Progress, m: nat, n: nat)
    requires WellFormedConfig(cfg) && Coherent(cfg, p)
    requires m <= n && Rank(p.phase) + n <= Rank(Some(cfg.maxPhase))
    ensures Level(AdvanceN(cfg, p, m).status) <= Level(AdvanceN(cfg, p, n).status)
  {
    if m < n {
      StatusMonotone(cfg, p, m, n - 1);
      AdvanceNKeepsCoherent(cfg, p, n - 1);
      AdvanceKeepsCoherent(cfg, AdvanceN(cfg, p, n - 1));
    }
  }

  /** A dependency is met after `n` phases exactly when these, or the ones before, include one it waits for. */
  lemma MetAfterPhases<E>(kind: DependType, cfg: Config<E>, p: Progress, n: nat)
    requires WellFormedConfig(cfg) && Coherent(cfg, p)
    requires Rank(p.phase) + n <= Rank(Some(cfg.maxPhase))
    ensures Meets(kind, cfg.supportsChildren, AdvanceN(cfg, p, n).status) <==>
      SettledInAdvance(cfg, p) || RanEnough(kind, cfg, Rank(p.phase) + n)
  {
    hide AdvanceN, WellFormedConfig;
    AdvanceNKeepsCoherent(cfg, p, n);
    MeetsInPhases(kind, cfg, AdvanceN(cfg, p, n));
    if !SettledInAdvance(cfg, p) {
      PlainUnlessSettled(kind, cfg, AdvanceN(cfg, p, n));
    }
  }

  /** A plain entity whose status follows from its phases is settled when it has run all of them. */
  lemma PlainUnlessSettled<E>(kind: DependType, cfg: Config<E>, p: Progress)
    requires WellFormedConfig(cfg) && p.status == ExpectedStatus(cfg, Rank(p.phase))
    ensures SettledInAdvance(cfg, p) ==> RanEnough(kind, cfg, Rank(p.phase))
  {
  }

  /** The number of turns entity `e` had in a run. */
  ghost function Turns<E>(run: seq<E>, e: E): nat
    decreases |run|
  {
    if run == [] then 0
    else Turns(run[..|run| - 1], e) + if run[|run| - 1] == e then 1 else 0
  }

  lemma {:induction false} TurnsGrow<E>(run: seq<E>, i: nat, j: nat, e: E)
    requires i <= j <= |run|
    ensures Turns(run[..i], e) <= Turns(run[..j], e)
    decreases j
  {
    if i < j {
      TurnsGrow(run, i, j - 1, e);
      assert run[..j][..j - 1] == run[..j - 1];
    }
  }

  lemma RunKeys<E>(sys: System<E>, st: State<E>, run: seq<E>)
    requires WellFormedState(sys, st) && ValidRun(sys, st, run)
    ensures After(sys, st, run).Keys == sys.Keys
  {
    RunKeepsWellFormed(sys, st, run);
  }

  lemma {:induction false} RunPosition<E>(sys: System<E>, st: State<E>, run: seq<E>, e: E)
    requires WellFormedState(sys, st) && ValidRun(sys, st, run) && e in sys
    ensures e in After(sys, st, run)
    ensures After(sys, st, run)[e] == AdvanceN(sys[e], st[e], Turns(run, e))
    decreases |run|
  {
    hide Advance, Ready;
    if run != [] {
      RunPosition(sys, st, run[..|run| - 1], e);
    }
  }

  /** An incomplete entity of a well-formed state is below its last phase, and a turn lifts it by one. */
  lemma TurnLiftsRank<E>(sys: System<E>, st: State<E>, e: E)
    requires WellFormedState(sys, st) && Incomplete(sys, st, e)
    ensures Rank(Step(sys, st, e)[e].phase) == Rank(st[e].phase) + 1
    ensures Rank(st[e].phase) + 1 <= Rank(Some(sys[e].maxPhase))
  {
    AdvanceKeepsCoherent(sys[e], st[e]);
  }

  lemma {:induction false} RunRank<E>(sys: System<E>, st: State<E>, run: seq<E>, e: E)
    requires WellFormedState(sys, st) && ValidRun(sys, st, run) && e in sys
    ensures e in After(sys, st, run)
    ensures Rank(After(sys, st, run)[e].phase) == Rank(st[e].phase) + Turns(run, e)
    ensures Rank(st[e].phase) + Turns(run, e) <= Rank(Some(sys[e].maxPhase))
    decreases |run|
  {
    if run != [] {
      var prefix, last := run[..|run| - 1], run[|run| - 1];
      RunRank(sys, st, prefix, e);
      RunKeepsWellFormed(sys, st, prefix);
      TurnLiftsRank(sys, After(sys, st, prefix), last);
    }
  }

  /**
   After a run, an entity's progress is its initial progress moved once per turn it had, so
   nothing but the entity's own turns changes it.
   */
  lemma RunProgress<E>(sys: System<E>, st: State<E>, run: seq<E>, e: E)
    requires WellFormedState(sys, st) && ValidRun(sys, st, run) && e in sys
    ensures e in After(sys, st, run)
    ensures After(sys, st, run)[e] == AdvanceN(sys[e], st[e], Turns(run, e))
    ensures Rank(After(sys, st, run)[e].phase) == Rank(st[e].phase) + Turns(run, e)
    ensures Rank(st[e].phase) + Turns(run, e) <= Rank(Some(sys[e].maxPhase))
  {
    RunPosition(sys, st, run, e);
    RunRank(sys, st, run, e);
  }

  // ---------------------------------------------------------------------------
  // Least fixpoint and confluence

  /** The state in which every entity `e` has moved `moves[e]` times from `st`. */
  ghost function Stage<E>(sys: System<E>, st: State<E>, moves: map<E, nat>): State<E>
    requires moves.Keys == sys.Keys == st.Keys
  {
    map e | e in sys :: AdvanceN(sys[e], st[e], moves[e])
  }

  /**
   A fixpoint of the readiness rule above `st`: no entity goes past its last phase and none that
   is short of it is ready. It need not be reachable.
   */
  ghost predicate IsFixpoint<E>(sys: System<E>, st: State<E>, moves: map<E, nat>) {
    && moves.Keys == sys.Keys == st.Keys
    && (forall e :: e in sys ==> Rank(st[e].phase) + moves[e] <= Rank(Some(sys[e].maxPhase)))
    && Quiescent(sys, Stage(sys, st, moves))
  }

  /** The number of turns of each entity. */
  ghost function Moves<E>(sys: System<E>, run: seq<E>): map<E, nat> {
    map e | e in sys :: Turns(run, e)
  }

  lemma RunIsStage<E>(sys: System<E>, st: State<E>, run: seq<E>)
    requires WellFormedState(sys, st) && ValidRun(sys, st, run)
    ensures After(sys, st, run) == Stage(sys, st, Moves(sys, run))
  {
    hide After, Turns, AdvanceN, ValidRun;
    RunKeys(sys, st, run);
    forall e | e in sys
      ensures After(sys, st, run)[e] == Stage(sys, st, Moves(sys, run))[e]
    {
      RunPosition(sys, st, run, e);
    }
  }

  /** What is ready stays ready when the other entities have moved further. */
  lemma {:induction false} ReadyMonotone<E>(sys: System<E>, st: State<E>, low: map<E, nat>, high: map<E, nat>, e: E)
    requires WellFormedState(sys, st)
    requires low.Keys == high.Keys == sys.Keys
    requires forall d :: d in sys ==> low[d] <= high[d]
    requires forall d :: d in sys ==> Rank(st[d].phase) + high[d] <= Rank(Some(sys[d].maxPhase))
    requires e in sys && low[e] == high[e] && Ready(sys, Stage(sys, st, low), e)
    ensures Ready(sys, Stage(sys, st, high), e)
  {
    forall i | 0 <= i < |sys[e].dependencies| &&
               Some(sys[e].dependencies[i].phase) == GetNextPhase(Stage(sys, st, high)[e].phase)
      ensures MeetsIn(sys, Stage(sys, st, high), sys[e].dependencies[i])
    {
      var d := sys[e].dependencies[i].entity;
      assert MeetsIn(sys, Stage(sys, st, low), sys[e].dependencies[i]);
      StatusMonotone(sys[d], st[d], low[d], high[d]);
    }
  }

  /** An entity that has moved as far as in a fixpoint cannot move on. */
  lemma {:induction false} FixpointBlocks<E>(sys: System<E>, st: State<E>, low: map<E, nat>, fix: map<E, nat>, e: E)
    requires WellFormedState(sys, st) && IsFixpoint(sys, st, fix)
    requires low.Keys == sys.Keys && forall d :: d in sys ==> low[d] <= fix[d]
    requires e in sys && Enabled(sys, Stage(sys, st, low), e)
    ensures low[e] < fix[e]
  {
    if low[e] == fix[e] {
      ReadyMonotone(sys, st, low, fix, e);
      assert Stage(sys, st, fix)[e] == Stage(sys, st, low)[e];
      assert Enabled(sys, Stage(sys, st, fix), e);
      assert false;
    }
  }

  /** No run ever moves an entity beyond any fixpoint. */
  lemma {:induction false} RunStaysBelowFixpoint<E>(
      sys: System<E>, st: State<E>, run: seq<E>, fix: map<E, nat>)
    requires WellFormedState(sys, st) && ValidRun(sys, st, run)
    requires IsFixpoint(sys, st, fix)
    ensures forall e :: e in sys ==> Turns(run, e) <= fix[e]
    decreases |run|
  {
    if run != [] {
      var prefix, last := run[..|run| - 1], run[|run| - 1];
      RunStaysBelowFixpoint(sys, st, prefix, fix);
      RunIsStage(sys, st, prefix);
      FixpointBlocks(sys, st, Moves(sys, prefix), fix, last);
      assert Moves(sys, prefix)[last] == Turns(prefix, last);
    }
  }

  /** The result of a run that cannot be continued is the least fixpoint of the readiness rule. */
  lemma {:induction false} LeastFixpoint<E>(sys: System<E>, st: State<E>, run: seq<E>, fix: map<E, nat>)
    requires WellFormedState(sys, st) && ValidRun(sys, st, run)
    requires Quiescent(sys, After(sys, st, run))
    ensures After(sys, st, run) == Stage(sys, st, Moves(sys, run))
    ensures IsFixpoint(sys, st, Moves(sys, run))
    ensures IsFixpoint(sys, st, fix) ==> forall e :: e in sys ==> Moves(sys, run)[e] <= fix[e]
  {
    RunIsStage(sys, st, run);
    forall e | e in sys
      ensures Rank(st[e].phase) + Moves(sys, run)[e] <= Rank(Some(sys[e].maxPhase))
    {
      RunProgress(sys, st, run, e);
    }
    if IsFixpoint(sys, st, fix) {
      RunStaysBelowFixpoint(sys, st, run, fix);
    }
  }

  lemma {:induction false} QuiescentRunsAgree<E>(sys: System<E>, st: State<E>, run1: seq<E>, run2: seq<E>)
    requires WellFormedState(sys, st)
    requires ValidRun(sys, st, run1)
    requires ValidRun(sys, st, run2) && Quiescent(sys, After(sys, st, run2))
    ensures forall e :: e in sys ==> Turns(run1, e) <= Turns(run2, e)
  {
    LeastFixpoint(sys, st, run2, Moves(sys, run2));
    RunStaysBelowFixpoint(sys, st, run1, Moves(sys, run2));
    assert forall e :: e in sys ==> Moves(sys, run2)[e] == Turns(run2, e);
  }

  /** Every order of visiting modules and entities ends in the same state. */
  lemma Confluence<E>(sys: System<E>, st: State<E>, run1: seq<E>, run2: seq<E>)
    requires WellFormedState(sys, st)
    requires ValidRun(sys, st, run1) && Quiescent(sys, After(sys, st, run1))
    requires ValidRun(sys, st, run2) && Quiescent(sys, After(sys, st, run2))
    ensures After(sys, st, run1) == After(sys, st, run2)
    ensures forall e :: e in sys ==> Turns(run1, e) == Turns(run2, e)
  {
    QuiescentRunsAgree(sys, st, run1, run2);
    QuiescentRunsAgree(sys, st, run2, run1);
    RunIsStage(sys, st, run1);
    RunIsStage(sys, st, run2);
    assert Moves(sys, run1) == Moves(sys, run2);
  }

  // ---------------------------------------------------------------------------
  // Safety over whole runs

  /** The phase that the `i`-th turn of the run executes. */
  ghost function PhaseAt<E>(sys: System<E>, st: State<E>, run: seq<E>, i: nat): Option<EmitPhase>
    requires ValidRun(sys, st, run) && i < |run|
  {
    RunPrefix(sys, st, run, i);
    RunPrefix(sys, st, run, i + 1);
    assert run[..i + 1][..i] == run[..i];
    assert Enabled(sys, After(sys, st, run[..i]), run[i]);
    GetNextPhase(After(sys, st, run[..i])[run[i]].phase)
  }

  /**
   Each entity receives its phases in order, with none skipped and none repeated: a turn executes
   the phase whose rank is one more than the initial rank plus the number of earlier turns.
   */
  lemma {:induction false} PhasesInOrder<E>(sys: System<E>, st: State<E>, run: seq<E>, i: nat)
    requires WellFormedState(sys, st) && ValidRun(sys, st, run) && i < |run|
    ensures run[i] in sys
    ensures Rank(PhaseAt(sys, st, run, i)) == Rank(st[run[i]].phase) + Turns(run[..i], run[i]) + 1
    ensures Rank(PhaseAt(sys, st, run, i)) <= Rank(Some(sys[run[i]].maxPhase))
  {
    RunPrefix(sys, st, run, i);
    RunPrefix(sys, st, run, i + 1);
    assert run[..i + 1][..i] == run[..i];
    var e := run[i];
    assert Enabled(sys, After(sys, st, run[..i]), e);
    RunProgress(sys, st, run[..i], e);
    RunKeepsWellFormed(sys, st, run[..i]);
    AdvanceKeepsCoherent(sys[e], After(sys, st, run[..i])[e]);
    RunKeepsWellFormed(sys, st, run[..i + 1]);
  }

  /** The targets of all dependencies tagged with the phase that comes next have run enough. */
  ghost predicate TaggedHaveRunEnough<E>(sys: System<E>, st: State<E>, e: E)
    requires e in sys && e in st
  {
    forall i :: 0 <= i < |sys[e].dependencies| ==>
      Rank(Some(sys[e].dependencies[i].phase)) == Rank(GetNextPhase(st[e].phase)) ==>
        HasRunEnough(sys, st, sys[e].dependencies[i])
  }

  /** That is exactly when an entity is ready. */
  lemma ReadyInPhases<E>(sys: System<E>, st: State<E>, e: E)
    requires WellFormedState(sys, st) && e in sys
    ensures Ready(sys, st, e) <==> TaggedHaveRunEnough(sys, st, e)
  {
    forall i | 0 <= i < |sys[e].dependencies|
      ensures MeetsIn(sys, st, sys[e].dependencies[i]) <==> HasRunEnough(sys, st, sys[e].dependencies[i])
    {
      var d := sys[e].dependencies[i].entity;
      MeetsInPhases(sys[e].dependencies[i].kind, sys[d], st[d]);
    }
    forall i | 0 <= i < |sys[e].dependencies|
      ensures Some(sys[e].dependencies[i].phase) == GetNextPhase(st[e].phase) <==>
        Rank(Some(sys[e].dependencies[i].phase)) == Rank(GetNextPhase(st[e].phase))
    {
      if Rank(Some(sys[e].dependencies[i].phase)) == Rank(GetNextPhase(st[e].phase)) {
        RankInjective(Some(sys[e].dependencies[i].phase), GetNextPhase(st[e].phase));
      }
    }
  }

  /** The target has run a phase that the dependency waits for, or was settled in advance. */
  ghost predicate HasRunEnough<E>(sys: System<E>, st: State<E>, dep: Dependency<E>) {
    && dep.entity in sys && dep.entity in st
    && (SettledInAdvance(sys[dep.entity], st[dep.entity])
        || RanEnough(dep.kind, sys[dep.entity], Rank(st[dep.entity].phase)))
  }

  /**
   Whenever a phase runs, the target of each dependency tagged with that phase has run a phase that
   the dependency waits for, unless it was settled before scheduling; and so it is in every later
   state of the run.
   */
  lemma DependenciesMetFromThenOn<E>(
      sys: System<E>, st: State<E>, run: seq<E>, i: nat, j: nat, k: nat)
    requires WellFormedState(sys, st) && ValidRun(sys, st, run)
    requires i < |run| && i <= j <= |run|
    requires run[i] in sys && k < |sys[run[i]].dependencies|
    requires Some(sys[run[i]].dependencies[k].phase) == PhaseAt(sys, st, run, i)
    ensures ValidRun(sys, st, run[..j])
    ensures MeetsIn(sys, After(sys, st, run[..j]), sys[run[i]].dependencies[k])
    ensures var dep := sys[run[i]].dependencies[k];
      && dep.entity in sys
      && (SettledInAdvance(sys[dep.entity], st[dep.entity])
          || RanEnough(dep.kind, sys[dep.entity], Rank(st[dep.entity].phase) + Turns(run[..j], dep.entity)))
  {
    hide After, Turns, MeetsIn, RanEnough, SettledInAdvance, ValidRun, WellFormedConfig, Coherent;
    TurnWasReady(sys, st, run, i, k);
    StaysMet(sys, st, run, i, j, sys[run[i]].dependencies[k]);
  }

  /** A dependency that is met stays met. */
  lemma StaysMet<E>(sys: System<E>, st: State<E>, run: seq<E>, i: nat, j: nat, dep: Dependency<E>)
    requires WellFormedState(sys, st) && ValidRun(sys, st, run) && i <= j <= |run| && dep.entity in sys
    requires ValidRun(sys, st, run[..i]) && MeetsIn(sys, After(sys, st, run[..i]), dep)
    ensures ValidRun(sys, st, run[..j]) && MeetsIn(sys, After(sys, st, run[..j]), dep)
    ensures SettledInAdvance(sys[dep.entity], st[dep.entity])
      || RanEnough(dep.kind, sys[dep.entity], Rank(st[dep.entity].phase) + Turns(run[..j], dep.entity))
  {
    hide After, Turns, MeetsIn, RanEnough, SettledInAdvance, ValidRun, WellFormedConfig, Coherent;
    RunPrefix(sys, st, run, j);
    MetInRun(sys, st, run[..i], dep);
    MetInRun(sys, st, run[..j], dep);
    TurnsGrow(run, i, j, dep.entity);
    if !SettledInAdvance(sys[dep.entity], st[dep.entity]) {
      RanMore(dep.kind, sys[dep.entity], Rank(st[dep.entity].phase) + Turns(run[..i], dep.entity),
              Rank(st[dep.entity].phase) + Turns(run[..j], dep.entity));
    }
  }

  /** The dependencies tagged with the phase of a turn are met when it comes. */
  lemma TurnWasReady<E>(sys: System<E>, st: State<E>, run: seq<E>, i: nat, k: nat)
    requires WellFormedState(sys, st) && ValidRun(sys, st, run) && i < |run|
    requires run[i] in sys && k < |sys[run[i]].dependencies|
    requires Some(sys[run[i]].dependencies[k].phase) == PhaseAt(sys, st, run, i)
    ensures ValidRun(sys, st, run[..i])
    ensures MeetsIn(sys, After(sys, st, run[..i]), sys[run[i]].dependencies[k])
  {
    hide After, MeetsIn, WellFormedState;
    RunPrefix(sys, st, run, i);
    RunPrefix(sys, st, run, i + 1);
    assert run[..i + 1][..i] == run[..i];
    assert Enabled(sys, After(sys, st, run[..i]), run[i]);
  }

  /** In terms of the turns that the target has had: when a dependency is met. */
  lemma MetInRun<E>(sys: System<E>, st: State<E>, run: seq<E>, dep: Dependency<E>)
    requires WellFormedState(sys, st) && ValidRun(sys, st, run) && dep.entity in sys
    ensures MeetsIn(sys, After(sys, st, run), dep) <==>
      SettledInAdvance(sys[dep.entity], st[dep.entity])
      || RanEnough(dep.kind, sys[dep.entity], Rank(st[dep.entity].phase) + Turns(run, dep.entity))
  {
    hide After, Turns, RanEnough, SettledInAdvance;
    RunProgress(sys, st, run, dep.entity);
    MetAfterPhases(dep.kind, sys[dep.entity], st[dep.entity], Turns(run, dep.entity));
  }

  lemma RanMore<E>(kind: DependType, cfg: Config<E>, r: nat, r': nat)
    requires r <= r' && RanEnough(kind, cfg, r)
    ensures RanEnough(kind, cfg, r')
  {
  }

  // ---------------------------------------------------------------------------
  // Termination

  /** The phases still to run, summed over the entities listed in `order`. */
  ghost function Remaining<E>(sys: System<E>, st: State<E>, order: seq<E>): int
    requires forall e :: e in order ==> e in sys && e in st
  {
    if order == [] then 0
    else Rank(Some(sys[order[0]].maxPhase)) - Rank(st[order[0]].phase) + Remaining(sys, st, order[1..])
  }

  lemma {:induction false} RemainingNonNegative<E>(sys: System<E>, st: State<E>, order: seq<E>)
    requires WellFormedState(sys, st) && forall e :: e in order ==> e in sys
    ensures 0 <= Remaining(sys, st, order)
  {
    if order != [] {
      RemainingNonNegative(sys, st, order[1..]);
    }
  }

  /** A turn lowers the remaining work by exactly one. */
  lemma {:induction false} StepLowersRemaining<E>(sys: System<E>, st: State<E>, order: seq<E>, e: E)
    requires WellFormedState(sys, st) && forall d :: d in order ==> d in sys
    requires Distinct(order) && Incomplete(sys, st, e)
    ensures Remaining(sys, Step(sys, st, e), order)
            == Remaining(sys, st, order) - (if e in order then 1 else 0)
  {
    if order != [] {
      StepLowersRemaining(sys, st, order[1..], e);
      AdvanceKeepsCoherent(sys[e], st[e]);
    }
  }

  /** A run is as long as the work it has done, so no run is longer than the initial work. */
  lemma {:induction false} RunLength<E>(sys: System<E>, st: State<E>, run: seq<E>, order: seq<E>)
    requires WellFormedState(sys, st) && ValidRun(sys, st, run)
    requires Distinct(order) && forall e :: e in order <==> e in sys
    ensures After(sys, st, run).Keys == sys.Keys
    ensures |run| + Remaining(sys, After(sys, st, run), order) == Remaining(sys, st, order)
    ensures |run| <= Remaining(sys, st, order)
    decreases |run|
  {
    RunKeepsWellFormed(sys, st, run);
    RemainingNonNegative(sys, After(sys, st, run), order);
    if run != [] {
      var prefix, last := run[..|run| - 1], run[|run| - 1];
      RunLength(sys, st, prefix, order);
      RunKeepsWellFormed(sys, st, prefix);
      StepLowersRemaining(sys, After(sys, st, prefix), order, last);
    }
  }

  // ---------------------------------------------------------------------------
  // Deadlock

  /** `e` cannot run its next phase because of its dependency on `d`. */
  ghost predicate WaitsFor<E>(sys: System<E>, st: State<E>, e: E, d: E) {
    && Incomplete(sys, st, e)
    && exists i :: 0 <= i < |sys[e].dependencies| && Blocks(sys, st, e, d, sys[e].dependencies[i])
  }

  ghost predicate Blocks<E>(sys: System<E>, st: State<E>, e: E, d: E, dep: Dependency<E>)
    requires e in st
  {
    && dep.entity == d
    && Some(dep.phase) == GetNextPhase(st[e].phase)
    && !MeetsIn(sys, st, dep)
  }

  /** A complete entity satisfies every kind of dependency. */
  lemma CompleteMeetsAll<E>(sys: System<E>, st: State<E>, d: E, kind: DependType)
    requires WellFormedState(sys, st) && d in sys && !Incomplete(sys, st, d)
    ensures st[d].status == Settled(sys[d])
    ensures Meets(kind, sys[d].supportsChildren, st[d].status)
  {
  }

  /** In a stuck state some dependency of an incomplete entity holds it back. */
  lemma StuckDependency<E>(sys: System<E>, st: State<E>, e: E) returns (i: nat)
    requires Quiescent(sys, st) && Incomplete(sys, st, e)
    ensures i < |sys[e].dependencies|
    ensures Blocks(sys, st, e, sys[e].dependencies[i].entity, sys[e].dependencies[i])
  {
    assert !Enabled(sys, st, e);
    i :| 0 <= i < |sys[e].dependencies| &&
         Some(sys[e].dependencies[i].phase) == GetNextPhase(st[e].phase) &&
         !MeetsIn(sys, st, sys[e].dependencies[i]);
  }

  /** An incomplete entity of a stuck state waits for another incomplete entity. */
  lemma StuckWaits<E>(sys: System<E>, st: State<E>, e: E) returns (d: E)
    requires WellFormedState(sys, st) && NoSelfDependency(sys)
    requires Quiescent(sys, st) && Incomplete(sys, st, e)
    ensures WaitsFor(sys, st, e, d) && Incomplete(sys, st, d) && d != e
  {
    var i := StuckDependency(sys, st, e);
    d := sys[e].dependencies[i].entity;
    if !Incomplete(sys, st, d) {
      CompleteMeetsAll(sys, st, d, sys[e].dependencies[i].kind);
    }
  }

  /** A cycle of distinct entities in which each waits for the next and the last for the first. */
  ghost predicate WaitCycle<E>(sys: System<E>, st: State<E>, cycle: seq<E>) {
    && |cycle| >= 2
    && Distinct(cycle)
    && (forall i :: 0 <= i < |cycle| ==>
          Incomplete(sys, st, cycle[i]) &&
          WaitsFor(sys, st, cycle[i], cycle[if i == |cycle| - 1 then 0 else i + 1]))
  }

  ghost predicate WaitPath<E>(sys: System<E>, st: State<E>, path: seq<E>) {
    && (forall i :: 0 <= i < |path| ==> Incomplete(sys, st, path[i]))
    && (forall i :: 0 <= i < |path| - 1 ==> WaitsFor(sys, st, path[i], path[i + 1]))
  }

  /** A path of waiting entities that runs into itself contains a cycle. */
  lemma CloseCycle<E>(sys: System<E>, st: State<E>, path: seq<E>, d: E, k: nat) returns (cycle: seq<E>)
    requires WaitPath(sys, st, path) && Distinct(path)
    requires k < |path| && path[k] == d
    requires WaitsFor(sys, st, path[|path| - 1], d) && d != path[|path| - 1]
    ensures WaitCycle(sys, st, cycle)
  {
    cycle := path[k..];
    forall i | 0 <= i < |cycle|
      ensures Incomplete(sys, st, cycle[i]) &&
              WaitsFor(sys, st, cycle[i], cycle[if i == |cycle| - 1 then 0 else i + 1])
    {
      assert cycle[i] == path[k + i];
      if i < |cycle| - 1 {
        assert WaitsFor(sys, st, path[k + i], path[k + i + 1]);
      }
    }
  }

  lemma WaitPathSnoc<E>(sys: System<E>, st: State<E>, path: seq<E>, d: E)
    requires WaitPath(sys, st, path) && path != []
    requires WaitsFor(sys, st, path[|path| - 1], d) && Incomplete(sys, st, d)
    ensures WaitPath(sys, st, path + [d])
  {
    var longer := path + [d];
    forall i | 0 <= i < |longer| - 1
      ensures WaitsFor(sys, st, longer[i], longer[i + 1])
    {
      if i < |path| - 1 {
        assert WaitsFor(sys, st, path[i], path[i + 1]);
      }
    }
  }

  /** A path of waiting entities can be extended until it closes a cycle. */
  lemma {:induction false} ExtendToCycle<E>(
      sys: System<E>, st: State<E>, path: seq<E>, unvisited: set<E>) returns (cycle: seq<E>)
    requires WellFormedState(sys, st) && NoSelfDependency(sys) && Quiescent(sys, st)
    requires path != [] && Distinct(path) && WaitPath(sys, st, path)
    requires forall e :: e in sys && e !in path ==> e in unvisited
    ensures WaitCycle(sys, st, cycle)
    decreases unvisited
  {
    var last := path[|path| - 1];
    assert Incomplete(sys, st, last);
    var d := StuckWaits(sys, st, last);
    if d in path {
      var k :| 0 <= k < |path| && path[k] == d;
      cycle := CloseCycle(sys, st, path, d, k);
    } else {
      WaitPathSnoc(sys, st, path, d);
      cycle := ExtendToCycle(sys, st, path + [d], unvisited - {d});
    }
  }

  /**
   If the driver stops with an incomplete entity, then among the incomplete entities there is a
   cycle of at least two distinct ones, each waiting for the next.
   */
  lemma DeadlockHasCycle<E>(sys: System<E>, st: State<E>) returns (cycle: seq<E>)
    requires WellFormedState(sys, st) && NoSelfDependency(sys) && Quiescent(sys, st)
    requires !AllComplete(sys, st)
    ensures WaitCycle(sys, st, cycle)
  {
    var e :| e in sys && Incomplete(sys, st, e);
    cycle := ExtendToCycle(sys, st, [e], sys.Keys);
  }

  // ---------------------------------------------------------------------------
  // When scheduling completes

  /**
   `rank(e, p)` orders the executions of phase `p` of `e`: phases of one entity come in order,
   and of a dependency tagged `p` on `d`, one of the phases that it waits for was run by `d` before
   scheduling or comes strictly earlier, unless `d` was settled in advance.
   */
  ghost predicate Ranked<E>(sys: System<E>, st: State<E>, rank: (E, nat) -> nat)
    requires WellFormedState(sys, st)
  {
    && (forall e, p: nat :: e in sys && IsTurn(sys, st, e, p) && IsTurn(sys, st, e, p + 1) ==>
          rank(e, p) < rank(e, p + 1))
    && (forall e, i :: e in sys && 0 <= i < |sys[e].dependencies| ==>
          DependencyRanked(sys, st, rank, e, sys[e].dependencies[i]))
  }

  /** Phase `p` is one that `e` still has to run. */
  ghost predicate IsTurn<E>(sys: System<E>, st: State<E>, e: E, p: nat)
    requires e in sys && e in st
  {
    Rank(st[e].phase) < p <= Rank(Some(sys[e].maxPhase))
  }

  ghost predicate DependencyRanked<E>(
      sys: System<E>, st: State<E>, rank: (E, nat) -> nat, e: E, dep: Dependency<E>)
    requires WellFormedState(sys, st) && e in sys && dep.entity in sys
  {
    IsTurn(sys, st, e, Rank(Some(dep.phase))) ==>
      exists q: nat :: MetEarlier(sys, st, rank, rank(e, Rank(Some(dep.phase))), dep, q)
  }

  /** Having run `q` phases, the target has run one that the dependency waits for. */
  ghost predicate MetAt<E>(sys: System<E>, st: State<E>, dep: Dependency<E>, q: nat)
    requires WellFormedState(sys, st) && dep.entity in sys
  {
    var d := dep.entity;
    && Rank(st[d].phase) <= q <= Rank(Some(sys[d].maxPhase))
    && (SettledInAdvance(sys[d], st[d]) || RanEnough(dep.kind, sys[d], q))
  }

  /** The target reaches rank `q`, where the dependency is met, initially or below `bound`. */
  ghost predicate MetEarlier<E>(
      sys: System<E>, st: State<E>, rank: (E, nat) -> nat, bound: nat, dep: Dependency<E>, q: nat)
    requires WellFormedState(sys, st) && dep.entity in sys
  {
    && MetAt(sys, st, dep, q)
    && (q == Rank(st[dep.entity].phase) || rank(dep.entity, q) < bound)
  }

  lemma {:induction false} RankGrowsWithPhase<E>(
      sys: System<E>, st: State<E>, rank: (E, nat) -> nat, e: E, p: nat, q: nat)
    requires WellFormedState(sys, st) && Ranked(sys, st, rank) && e in sys
    requires IsTurn(sys, st, e, p) && IsTurn(sys, st, e, q) && p <= q
    ensures rank(e, p) <= rank(e, q)
    decreases q - p
  {
    if p < q {
      RankGrowsWithPhase(sys, st, rank, e, p, q - 1);
      assert IsTurn(sys, st, e, (q - 1) + 1);
    }
  }

  /** A dependency that is met once its target has reached rank `q` stays met from there on. */
  lemma MetFromRankOn<E>(sys: System<E>, st: State<E>, run: seq<E>, dep: Dependency<E>, q: nat)
    requires WellFormedState(sys, st) && ValidRun(sys, st, run) && dep.entity in sys
    requires MetAt(sys, st, dep, q)
    requires dep.entity in After(sys, st, run)
    requires q <= Rank(After(sys, st, run)[dep.entity].phase)
    ensures MeetsIn(sys, After(sys, st, run), dep)
  {
    hide After, ValidRun, Turns;
    var d := dep.entity;
    RunProgress(sys, st, run, d);
    MetAfterPhases(dep.kind, sys[d], st[d], Turns(run, d));
  }

  /** If a dependency of `e` is not met, its target is incomplete and its next turn ranks lower. */
  lemma UnmetRanksLower<E>(
      sys: System<E>, st: State<E>, run: seq<E>, rank: (E, nat) -> nat, dep: Dependency<E>,
      bound: nat, q: nat)
    requires WellFormedState(sys, st) && ValidRun(sys, st, run) && Ranked(sys, st, rank)
    requires dep.entity in sys && MetEarlier(sys, st, rank, bound, dep, q)
    requires !MeetsIn(sys, After(sys, st, run), dep)
    ensures Incomplete(sys, After(sys, st, run), dep.entity)
    ensures rank(dep.entity, NextRank(sys, st, run, dep.entity)) < bound
  {
    var d := dep.entity;
    NextRankIsTurn(sys, st, run, d);
    var r := NextRank(sys, st, run, d);
    if q < r {
      MetFromRankOn(sys, st, run, dep, q);
      assert false;
    }
    StartsBelow(sys, st, run, d);
    RankGrowsWithPhase(sys, st, rank, d, r, q);
  }

  lemma StartsBelow<E>(sys: System<E>, st: State<E>, run: seq<E>, d: E)
    requires WellFormedState(sys, st) && ValidRun(sys, st, run) && d in sys
    ensures d in After(sys, st, run) && Rank(st[d].phase) < NextRank(sys, st, run, d)
  {
    RunProgress(sys, st, run, d);
  }

  /** An incomplete entity of a stuck state waits for an incomplete one whose turn ranks lower. */
  lemma StuckWaitsLower<E>(sys: System<E>, st: State<E>, run: seq<E>, rank: (E, nat) -> nat, e: E)
    returns (d: E)
    requires WellFormedState(sys, st) && ValidRun(sys, st, run)
    requires Quiescent(sys, After(sys, st, run)) && Ranked(sys, st, rank)
    requires Incomplete(sys, After(sys, st, run), e)
    ensures Incomplete(sys, After(sys, st, run), d)
    ensures rank(d, NextRank(sys, st, run, d)) < rank(e, NextRank(sys, st, run, e))
  {
    NextRankIsTurn(sys, st, run, e);
    var i := StuckDependency(sys, After(sys, st, run), e);
    var dep := sys[e].dependencies[i];
    var bound := rank(e, Rank(Some(dep.phase)));
    assert DependencyRanked(sys, st, rank, e, dep);
    var q: nat :| MetEarlier(sys, st, rank, bound, dep, q);
    d := dep.entity;
    UnmetRanksLower(sys, st, run, rank, dep, bound, q);
  }

  /** The rank of the phase that `e` would run after `run`. */
  ghost function NextRank<E>(sys: System<E>, st: State<E>, run: seq<E>, e: E): nat
    requires ValidRun(sys, st, run) && e in After(sys, st, run)
  {
    Rank(After(sys, st, run)[e].phase) + 1
  }

  lemma NextRankIsTurn<E>(sys: System<E>, st: State<E>, run: seq<E>, e: E)
    requires WellFormedState(sys, st) && ValidRun(sys, st, run) && e in sys
    ensures e in After(sys, st, run)
    ensures Incomplete(sys, After(sys, st, run), e) <==> IsTurn(sys, st, e, NextRank(sys, st, run, e))
    ensures Incomplete(sys, After(sys, st, run), e) ==>
      Rank(GetNextPhase(After(sys, st, run)[e].phase)) == NextRank(sys, st, run, e)
  {
    RunProgress(sys, st, run, e);
    var p := After(sys, st, run)[e].phase;
    if Rank(p) == Rank(Some(sys[e].maxPhase)) {
      RankInjective(p, Some(sys[e].maxPhase));
    }
  }

  /** Following the rank downwards, no entity of a stuck state can be incomplete. */
  lemma {:induction false} RankedIsComplete<E>(
      sys: System<E>, st: State<E>, run: seq<E>, rank: (E, nat) -> nat, e: E)
    requires WellFormedState(sys, st) && ValidRun(sys, st, run)
    requires Quiescent(sys, After(sys, st, run)) && Ranked(sys, st, rank) && e in sys
    ensures !Incomplete(sys, After(sys, st, run), e)
    decreases rank(e, if e in After(sys, st, run) then NextRank(sys, st, run, e) else 0)
  {
    if Incomplete(sys, After(sys, st, run), e) {
      var d := StuckWaitsLower(sys, st, run, rank, e);
      RankedIsComplete(sys, st, run, rank, d);
    }
  }

  /** The index of the `n`-th turn of `e`. */
  ghost function TurnIndex<E>(run: seq<E>, e: E, n: nat): (i: nat)
    requires 1 <= n <= Turns(run, e)
    ensures i < |run| && run[i] == e && Turns(run[..i], e) + 1 == n
    decreases |run|
  {
    var prefix := run[..|run| - 1];
    if n <= Turns(prefix, e) then
      var i := TurnIndex(prefix, e, n);
      assert prefix[..i] == run[..i];
      i
    else
      |run| - 1
  }

  /** Each turn of a run is ranked by its position in the run. */
  ghost function RankOfRun<E>(st: State<E>, run: seq<E>): (E, nat) -> nat {
    (e: E, p: nat) =>
      if e in st && Rank(st[e].phase) < p <= Rank(st[e].phase) + Turns(run, e) then
        TurnIndex(run, e, p - Rank(st[e].phase))
      else
        0
  }

  lemma {:induction false} CompletedTurns<E>(sys: System<E>, st: State<E>, run: seq<E>, e: E)
    requires WellFormedState(sys, st) && ValidRun(sys, st, run) && e in sys
    requires AllComplete(sys, After(sys, st, run))
    ensures Rank(st[e].phase) + Turns(run, e) == Rank(Some(sys[e].maxPhase))
  {
    RunProgress(sys, st, run, e);
    assert !Incomplete(sys, After(sys, st, run), e);
  }

  /** A turn that comes before position `i` has an index below `i`. */
  lemma EarlierTurn<E>(run: seq<E>, i: nat, e: E, n: nat)
    requires i <= |run| && 1 <= n <= Turns(run[..i], e)
    ensures n <= Turns(run, e) && TurnIndex(run, e, n) < i
  {
    assert run[..|run|] == run;
    TurnsGrow(run, i, |run|, e);
    var j := TurnIndex(run, e, n);
    if i <= j {
      TurnsGrow(run, i, j, e);
    }
  }

  /** What holds of a dependency in a state of a run holds at the rank its target has there. */
  lemma {:induction false} MetInIsMetAt<E>(sys: System<E>, st: State<E>, run: seq<E>, dep: Dependency<E>)
    requires WellFormedState(sys, st) && ValidRun(sys, st, run) && dep.entity in sys
    requires MeetsIn(sys, After(sys, st, run), dep)
    ensures MetAt(sys, st, dep, Rank(st[dep.entity].phase) + Turns(run, dep.entity))
  {
    hide After, Turns;
    RunProgress(sys, st, run, dep.entity);
    MetAfterPhases(dep.kind, sys[dep.entity], st[dep.entity], Turns(run, dep.entity));
  }

  lemma EarlierTurnRanksLower<E>(st: State<E>, run: seq<E>, i: nat, d: E)
    requires i <= |run| && d in st
    ensures Turns(run[..i], d) > 0 ==>
      RankOfRun(st, run)(d, Rank(st[d].phase) + Turns(run[..i], d)) < i
  {
    if Turns(run[..i], d) > 0 {
      EarlierTurn(run, i, d, Turns(run[..i], d));
    }
  }

  /** The dependencies of the turn at position `i` were met initially or by earlier turns. */
  lemma MetBeforeTurn<E>(sys: System<E>, st: State<E>, run: seq<E>, i: nat, k: nat)
    returns (q: nat)
    requires WellFormedState(sys, st) && ValidRun(sys, st, run)
    requires i < |run| && run[i] in sys && k < |sys[run[i]].dependencies|
    requires sys[run[i]].dependencies[k].entity in sys
    requires PhaseAt(sys, st, run, i) == Some(sys[run[i]].dependencies[k].phase)
    ensures MetEarlier(sys, st, RankOfRun(st, run), i, sys[run[i]].dependencies[k], q)
  {
    hide MetAt, Turns, RankOfRun, After, MeetsIn;
    var dep := sys[run[i]].dependencies[k];
    DependenciesMetFromThenOn(sys, st, run, i, i, k);
    MetInIsMetAt(sys, st, run[..i], dep);
    q := Rank(st[dep.entity].phase) + Turns(run[..i], dep.entity);
    EarlierTurnRanksLower(st, run, i, dep.entity);
  }

  lemma RunRanksDependency<E>(sys: System<E>, st: State<E>, run: seq<E>, e: E, k: nat)
    requires WellFormedState(sys, st) && ValidRun(sys, st, run)
    requires AllComplete(sys, After(sys, st, run))
    requires e in sys && k < |sys[e].dependencies|
    ensures DependencyRanked(sys, st, RankOfRun(st, run), e, sys[e].dependencies[k])
  {
    hide After, AllComplete, MetEarlier, PhaseAt;
    var dep := sys[e].dependencies[k];
    var p := Rank(Some(dep.phase));
    if IsTurn(sys, st, e, p) {
      CompletedTurns(sys, st, run, e);
      var i := TurnIndex(run, e, p - Rank(st[e].phase));
      PhasesInOrder(sys, st, run, i);
      RankInjective(Some(dep.phase), PhaseAt(sys, st, run, i));
      var q := MetBeforeTurn(sys, st, run, i, k);
      assert RankOfRun(st, run)(e, p) == i;
    }
  }

  /** If some run completes every entity, its order ranks the dependency relation. */
  lemma {:induction false} CompletedIsRanked<E>(sys: System<E>, st: State<E>, run: seq<E>)
    requires WellFormedState(sys, st) && ValidRun(sys, st, run)
    requires AllComplete(sys, After(sys, st, run))
    ensures Ranked(sys, st, RankOfRun(st, run))
  {
    var rank := RankOfRun(st, run);
    forall e, p: nat | e in sys && IsTurn(sys, st, e, p) && IsTurn(sys, st, e, p + 1)
      ensures rank(e, p) < rank(e, p + 1)
    {
      CompletedTurns(sys, st, run, e);
      var j := TurnIndex(run, e, p + 1 - Rank(st[e].phase));
      EarlierTurn(run, j, e, p - Rank(st[e].phase));
    }
    forall e, i | e in sys && 0 <= i < |sys[e].dependencies|
      ensures DependencyRanked(sys, st, rank, e, sys[e].dependencies[i])
    {
      RunRanksDependency(sys, st, run, e, i);
    }
  }

  /**
   The driver stops with every entity complete exactly when the (entity, phase) dependency
   relation can be ranked, that is, when it is free of cycles.
   */
  lemma CompletesIffRanked<E>(sys: System<E>, st: State<E>, run: seq<E>)
    requires WellFormedState(sys, st) && ValidRun(sys, st, run)
    requires Quiescent(sys, After(sys, st, run))
    ensures AllComplete(sys, After(sys, st, run)) <==> exists rank: (E, nat) -> nat :: Ranked(sys, st, rank)
  {
    if AllComplete(sys, After(sys, st, run)) {
      CompletedIsRanked(sys, st, run);
    }
    if exists rank: (E, nat) -> nat :: Ranked(sys, st, rank) {
      var rank: (E, nat) -> nat :| Ranked(sys, st, rank);
      forall e | e in sys
        ensures !Incomplete(sys, After(sys, st, run), e)
      {
        RankedIsComplete(sys, st, run, rank, e);
      }
    }
  }
}
