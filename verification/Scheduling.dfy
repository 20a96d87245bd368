/**
 The phase scheduler seen as a transition system.

 An entity is identified by a value of an arbitrary type `E`. Its configuration is fixed before
 scheduling starts; its progress (last phase that ran, current status) is what the driver moves.
 A run is the sequence of entities in the order in which their next phases were executed.
 */
module Scheduling {
  import opened Wrappers
  import opened EmitPhases

  datatype EntityStatus = NotBegun | Partial | Complete | ChildrenPartial

  /** Statuses are ordered as the compiler's enumeration orders them. */
  function Level(status: EntityStatus): nat {
    match status
    case NotBegun => 0
    case Partial => 1
    case Complete => 2
    case ChildrenPartial => 3
  }

  datatype DependType = OnPartial | OnComplete | OnChildrenPartial

  datatype Dependency<E> = Dependency(entity: E, kind: DependType, phase: EmitPhase)

  datatype Config<E> = Config(
    maxPhase: EmitPhase,
    toPartial: Option<EmitPhase>,
    toCompletion: Option<EmitPhase>,
    supportsChildren: bool,
    toChildrenPartial: Option<EmitPhase>,
    dependencies: seq<Dependency<E>>)

  datatype Progress = Progress(phase: Option<EmitPhase>, status: EntityStatus)

  type System<E> = map<E, Config<E>>
  type State<E> = map<E, Progress>

  // ---------------------------------------------------------------------------
  // One entity

  predicate Done<E>(cfg: Config<E>, p: Progress) {
    p.phase == Some(cfg.maxPhase)
  }

  /** The status given to an entity by the execution of phase `next`. */
  function StatusAfter<E>(cfg: Config<E>, next: EmitPhase, status: EntityStatus): EntityStatus {
    if cfg.toPartial == Some(next) then
      Partial
    else if cfg.toCompletion == Some(next) then
      Complete
    else if cfg.toChildrenPartial == Some(next) then
      ChildrenPartial
    else if next == cfg.maxPhase && next != PHASE_LAST then
      Settled(cfg)
    else
      status
  }

  /** The status an entity is meant to end with. */
  function Settled<E>(cfg: Config<E>): EntityStatus {
    if cfg.supportsChildren then ChildrenPartial else Complete
  }

  function Advance<E>(cfg: Config<E>, p: Progress): Progress {
    var next := GetNextPhase(p.phase);
    Progress(next, StatusAfter(cfg, next.value, p.status))
  }

  /** Whether an entity with this status satisfies a dependency of this kind. */
  predicate Meets(kind: DependType, supportsChildren: bool, status: EntityStatus) {
    match kind
    case OnPartial => status != NotBegun
    case OnComplete => Level(status) >= Level(Complete)
    case OnChildrenPartial =>
      Level(status) >= Level(if supportsChildren then ChildrenPartial else Complete)
  }

  /** A missing optional phase is never reached. */
  function RankOr10(phase: Option<EmitPhase>): nat {
    if phase.None? then 10 else Rank(phase)
  }

  /** The configurations the compiler's entities set up. */
  predicate WellFormedConfig<E>(cfg: Config<E>) {
    var max := Rank(Some(cfg.maxPhase));
    var partial := RankOr10(cfg.toPartial);
    var completion := RankOr10(cfg.toCompletion);
    var childrenPartial := RankOr10(cfg.toChildrenPartial);
    && cfg.maxPhase != PHASE_LAST
    && (cfg.toPartial.Some? ==> partial < completion && partial < childrenPartial && partial < max)
    && (cfg.toCompletion.Some? ==> completion < childrenPartial || cfg.toChildrenPartial.None?)
    && (cfg.toCompletion.Some? && cfg.supportsChildren ==> completion < max)
    && (cfg.toChildrenPartial.Some? ==> cfg.supportsChildren)
  }

  /** The status of an entity that started from nothing and has run `r` phases. */
  function ExpectedStatus<E>(cfg: Config<E>, r: nat): EntityStatus {
    if Rank(Some(cfg.maxPhase)) <= r then Settled(cfg)
    else if RankOr10(cfg.toChildrenPartial) <= r then ChildrenPartial
    else if RankOr10(cfg.toCompletion) <= r then Complete
    else if RankOr10(cfg.toPartial) <= r then Partial
    else NotBegun
  }

  /** A configuration whose only status change happens at its last phase. */
  predicate Plain<E>(cfg: Config<E>) {
    cfg.toPartial.None? && cfg.toCompletion.None? && cfg.toChildrenPartial.None?
  }

  /**
   Progress that scheduling may start from or reach: either the status follows from the phases
   that ran, or the entity is a plain one that was settled in advance (as imports are).
   */
  predicate Coherent<E>(cfg: Config<E>, p: Progress) {
    && Rank(p.phase) <= Rank(Some(cfg.maxPhase))
    && (p.status == ExpectedStatus(cfg, Rank(p.phase)) || (Plain(cfg) && p.status == Settled(cfg)))
  }

  /** One phase keeps an entity coherent and never lowers its status. */
  lemma AdvanceKeepsCoherent<E>(cfg: Config<E>, p: Progress)
    requires WellFormedConfig(cfg) && Coherent(cfg, p) && !Done(cfg, p)
    ensures Coherent(cfg, Advance(cfg, p))
    ensures Level(p.status) <= Level(Advance(cfg, p).status)
    ensures Rank(Advance(cfg, p).phase) == Rank(p.phase) + 1
    ensures p.status == ExpectedStatus(cfg, Rank(p.phase)) ==>
      Advance(cfg, p).status == ExpectedStatus(cfg, Rank(p.phase) + 1)
    ensures SettledInAdvance(cfg, p) ==> SettledInAdvance(cfg, Advance(cfg, p))
  {
    if Rank(p.phase) == Rank(Some(cfg.maxPhase)) {
      RankInjective(p.phase, Some(cfg.maxPhase));
    }
    var next := GetNextPhase(p.phase);
    if Rank(next) == Rank(Some(cfg.maxPhase)) {
      RankInjective(next, Some(cfg.maxPhase));
    }
    if Rank(next) == RankOr10(cfg.toPartial) {
      RankInjective(next, cfg.toPartial);
    }
    if Rank(next) == RankOr10(cfg.toCompletion) {
      RankInjective(next, cfg.toCompletion);
    }
    if Rank(next) == RankOr10(cfg.toChildrenPartial) {
      RankInjective(next, cfg.toChildrenPartial);
    }
  }

  // ---------------------------------------------------------------------------
  // What dependencies ask for, in terms of phases

  /** The phase is among the first `r` ones. */
  predicate Ran(phase: Option<EmitPhase>, r: nat) {
    phase.Some? && Rank(phase) <= r
  }

  /** An entity that has run `r` phases has run one that a dependency of this kind waits for. */
  predicate RanEnough<E>(kind: DependType, cfg: Config<E>, r: nat) {
    || Ran(Some(cfg.maxPhase), r)
    || match kind
       case OnPartial => Ran(cfg.toPartial, r) || Ran(cfg.toCompletion, r) || Ran(cfg.toChildrenPartial, r)
       case OnComplete => Ran(cfg.toCompletion, r) || Ran(cfg.toChildrenPartial, r)
       case OnChildrenPartial =>
         if cfg.supportsChildren then Ran(cfg.toChildrenPartial, r) else Ran(cfg.toCompletion, r)
  }

  /** A plain entity that has its final status, whatever it has run. */
  predicate SettledInAdvance<E>(cfg: Config<E>, p: Progress) {
    Plain(cfg) && p.status == Settled(cfg)
  }

  /** A dependency is met exactly when its target has run one of the phases that it waits for. */
  lemma MeetsInPhases<E>(kind: DependType, cfg: Config<E>, p: Progress)
    requires WellFormedConfig(cfg) && Coherent(cfg, p)
    ensures Meets(kind, cfg.supportsChildren, p.status) <==>
      SettledInAdvance(cfg, p) || RanEnough(kind, cfg, Rank(p.phase))
  {
  }

  // ---------------------------------------------------------------------------
  // All entities

  ghost predicate WellFormedSystem<E>(sys: System<E>) {
    && (forall e :: e in sys ==> WellFormedConfig(sys[e]))
    && (forall e, i :: e in sys && 0 <= i < |sys[e].dependencies| ==>
          sys[e].dependencies[i].entity in sys)
  }

  /** `addDependency` drops a dependency of an entity on itself. */
  ghost predicate NoSelfDependency<E>(sys: System<E>) {
    forall e, i :: e in sys && 0 <= i < |sys[e].dependencies| ==>
      sys[e].dependencies[i].entity != e
  }

  ghost predicate WellFormedState<E>(sys: System<E>, st: State<E>) {
    && WellFormedSystem(sys)
    && st.Keys == sys.Keys
    && (forall e :: e in sys ==> Coherent(sys[e], st[e]))
  }

  ghost predicate MeetsIn<E>(sys: System<E>, st: State<E>, dep: Dependency<E>) {
    && dep.entity in sys && dep.entity in st
    && Meets(dep.kind, sys[dep.entity].supportsChildren, st[dep.entity].status)
  }

  ghost predicate Ready<E>(sys: System<E>, st: State<E>, e: E)
    requires e in sys && e in st
  {
    forall i :: 0 <= i < |sys[e].dependencies| &&
      Some(sys[e].dependencies[i].phase) == GetNextPhase(st[e].phase)
      ==> MeetsIn(sys, st, sys[e].dependencies[i])
  }

  ghost predicate Incomplete<E>(sys: System<E>, st: State<E>, e: E) {
    e in sys && e in st && !Done(sys[e], st[e])
  }

  ghost predicate Enabled<E>(sys: System<E>, st: State<E>, e: E) {
    Incomplete(sys, st, e) && Ready(sys, st, e)
  }

  ghost function Step<E>(sys: System<E>, st: State<E>, e: E): State<E>
    requires e in sys && e in st
  {
    st[e := Advance(sys[e], st[e])]
  }

  /** No entity can take a step: the state is a fixpoint of the sweep. */
  ghost predicate Quiescent<E>(sys: System<E>, st: State<E>) {
    forall e {:trigger Enabled(sys, st, e)} :: e in sys ==> !Enabled(sys, st, e)
  }

  ghost predicate AllComplete<E>(sys: System<E>, st: State<E>) {
    forall e {:trigger Incomplete(sys, st, e)} :: e in sys ==> !Incomplete(sys, st, e)
  }

  // ---------------------------------------------------------------------------
  // Runs

  ghost function After<E>(sys: System<E>, st: State<E>, run: seq<E>): State<E>
    requires ValidRun(sys, st, run)
    decreases |run|, 1
  {
    if run == [] then st
    else Step(sys, After(sys, st, run[..|run| - 1]), run[|run| - 1])
  }

  /** Every entity of the run was incomplete and ready when its turn came. */
  ghost predicate ValidRun<E>(sys: System<E>, st: State<E>, run: seq<E>)
    decreases |run|, 0
  {
    run == [] ||
    (ValidRun(sys, st, run[..|run| - 1]) &&
     Enabled(sys, After(sys, st, run[..|run| - 1]), run[|run| - 1]))
  }

  lemma RunSnoc<E>(sys: System<E>, st: State<E>, run: seq<E>, e: E)
    requires ValidRun(sys, st, run) && Enabled(sys, After(sys, st, run), e)
    ensures ValidRun(sys, st, run + [e])
    ensures After(sys, st, run + [e]) == Step(sys, After(sys, st, run), e)
  {
    assert (run + [e])[..|run|] == run;
  }

  /** Every prefix of a run is a run. */
  lemma {:induction false} RunPrefix<E>(sys: System<E>, st: State<E>, run: seq<E>, n: nat)
    requires ValidRun(sys, st, run) && n <= |run|
    ensures ValidRun(sys, st, run[..n])
    decreases |run|
  {
    if n == |run| {
      assert run[..n] == run;
    } else {
      RunPrefix(sys, st, run[..|run| - 1], n);
      assert run[..|run| - 1][..n] == run[..n];
    }
  }

  /** Scheduling only ever visits well-formed states. */
  lemma {:induction false} RunKeepsWellFormed<E>(sys: System<E>, st: State<E>, run: seq<E>)
    requires WellFormedState(sys, st) && ValidRun(sys, st, run)
    ensures WellFormedState(sys, After(sys, st, run))
    decreases |run|
  {
    if run != [] {
      var prefix, last := run[..|run| - 1], run[|run| - 1];
      RunKeepsWellFormed(sys, st, prefix);
      AdvanceKeepsCoherent(sys[last], After(sys, st, prefix)[last]);
    }
  }
}
