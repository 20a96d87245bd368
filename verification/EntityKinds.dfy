/** The configurations that the compiler's declarations give their entities. */
module EntityKinds {
  import opened Wrappers
  import opened EmitPhases
  import opened Scheduling
  import opened SchedulingTheory

  datatype EntityKind =
    | StructType
    | GenericStructType
    | MixType
    | ChoiceType
    | FlagType
    | FunctionDefinition
    | FunctionDeclaration
    | GenericFunction
    | PrerunFunction
    | TypeDefinition
    | Region
    | Global
    | PrerunGlobal
    | OpaqueType
    | BringEntity
    | DoneSkill
    | Skill
    | GenericSkill

  /** The phase table of each kind of declaration. */
  function ConfigFor<E>(kind: EntityKind, dependencies: seq<Dependency<E>>): Config<E> {
    match kind
    case StructType =>
      Config(PHASE_4, Some(PHASE_1), Some(PHASE_2), true, Some(PHASE_3), dependencies)
    case FunctionDefinition => Config(PHASE_3, None, None, false, None, dependencies)
    case FunctionDeclaration => Config(PHASE_2, None, None, false, None, dependencies)
    case GenericFunction => Config(PHASE_2, None, None, false, None, dependencies)
    case PrerunFunction => Config(PHASE_2, None, None, false, None, dependencies)
    case MixType => Config(PHASE_2, None, None, false, None, dependencies)
    case DoneSkill => Config(PHASE_3, Some(PHASE_2), None, false, None, dependencies)
    case Skill => Config(PHASE_2, Some(PHASE_1), None, false, None, dependencies)
    case _ => Config(PHASE_1, None, None, false, None, dependencies)
  }

  /** The ways in which an entity enters scheduling. */
  datatype Origin =
    | Declared        // added by its declaration
    | BroughtPath     // a named file or folder module, completed when it is added
    | BroughtEarly    // an import brought while entities were being created

  predicate CanOriginate(kind: EntityKind, origin: Origin) {
    origin == Declared || kind == BringEntity
  }

  function InitialProgress(origin: Origin): Progress {
    match origin
    case Declared => Progress(None, NotBegun)
    case BroughtPath => Progress(Some(PHASE_1), Complete)
    case BroughtEarly => Progress(None, Complete)
  }

  /**
   Every entity the compiler creates satisfies what the scheduling theory asks of it: its status
   rises with its phases and is final when its last phase has run.
   */
  lemma CompilerEntitiesAreWellFormed<E>(
      kind: EntityKind, origin: Origin, dependencies: seq<Dependency<E>>)
    requires CanOriginate(kind, origin)
    ensures WellFormedConfig(ConfigFor(kind, dependencies))
    ensures Coherent(ConfigFor(kind, dependencies), InitialProgress(origin))
  {
  }

  /** How many phases of a declaration have to run before each kind of dependency on it is met. */
  lemma WhatDependenciesWaitFor<E>(kind: EntityKind, dependencies: seq<Dependency<E>>, on: DependType, r: nat)
    ensures RanEnough(on, ConfigFor(kind, dependencies), r) <==>
      match kind
      case StructType => r >= (match on case OnPartial => 1 case OnComplete => 2 case OnChildrenPartial => 3)
      case Skill => r >= (if on == OnPartial then 1 else 2)
      case DoneSkill => r >= (if on == OnPartial then 2 else 3)
      case FunctionDefinition => r >= 3
      case _ =>
        r >= (if kind in {FunctionDeclaration, GenericFunction, PrerunFunction, MixType} then 2 else 1)
  {
  }

  /** Two structs, each with a dependency on the other that holds up its second phase. */
  ghost function TwoStructs<E>(a: E, b: E, on: DependType): System<E>
    requires a != b
  {
    map[a := ConfigFor(StructType, [Dependency(b, on, PHASE_2)]),
        b := ConfigFor(StructType, [Dependency(a, on, PHASE_2)])]
  }

  ghost function BothDeclared<E>(a: E, b: E): State<E> {
    map[a := InitialProgress(Declared), b := InitialProgress(Declared)]
  }

  lemma TwoStructsAreWellFormed<E>(a: E, b: E, on: DependType)
    requires a != b
    ensures WellFormedState(TwoStructs(a, b, on), BothDeclared(a, b))
  {
    CompilerEntitiesAreWellFormed(StructType, Declared, [Dependency(b, on, PHASE_2)]);
    CompilerEntitiesAreWellFormed(StructType, Declared, [Dependency(a, on, PHASE_2)]);
  }

  /** Structs with pointers to one another are completed, in whatever order they are visited. */
  lemma MutualPointersComplete<E>(a: E, b: E, run: seq<E>)
    requires a != b && ValidRun(TwoStructs(a, b, OnPartial), BothDeclared(a, b), run)
    requires Quiescent(TwoStructs(a, b, OnPartial), After(TwoStructs(a, b, OnPartial), BothDeclared(a, b), run))
    ensures AllComplete(TwoStructs(a, b, OnPartial), After(TwoStructs(a, b, OnPartial), BothDeclared(a, b), run))
  {
    hide After, ValidRun, Quiescent, AllComplete, WellFormedState;
    TwoStructsAreWellFormed(a, b, OnPartial);
    var sys, st, rank := TwoStructs(a, b, OnPartial), BothDeclared(a, b), (e: E, p: nat) => p;
    forall e, i | e in sys && 0 <= i < |sys[e].dependencies|
      ensures DependencyRanked(sys, st, rank, e, sys[e].dependencies[i])
    {
      var dep := sys[e].dependencies[i];
      WhatDependenciesWaitFor(StructType, sys[dep.entity].dependencies, OnPartial, 1);
      assert MetEarlier(sys, st, rank, rank(e, 2), dep, 1);
    }
    assert Ranked(sys, st, rank);
    CompletesIffRanked(sys, st, run);
  }

  /** Structs with members of one another are not. */
  lemma MutualMembersGetStuck<E>(a: E, b: E, run: seq<E>)
    requires a != b && ValidRun(TwoStructs(a, b, OnComplete), BothDeclared(a, b), run)
    requires Quiescent(TwoStructs(a, b, OnComplete), After(TwoStructs(a, b, OnComplete), BothDeclared(a, b), run))
    ensures !AllComplete(TwoStructs(a, b, OnComplete), After(TwoStructs(a, b, OnComplete), BothDeclared(a, b), run))
  {
    hide After, ValidRun, Quiescent, AllComplete, WellFormedState;
    TwoStructsAreWellFormed(a, b, OnComplete);
    var sys, st := TwoStructs(a, b, OnComplete), BothDeclared(a, b);
    CompletesIffRanked(sys, st, run);
    if rank: (E, nat) -> nat :| Ranked(sys, st, rank) {
      MemberComesFirst(a, b, rank, a);
      MemberComesFirst(a, b, rank, b);
      assert false;
    }
  }

  /** The member is completed strictly before the struct that has it. */
  lemma MemberComesFirst<E>(a: E, b: E, rank: (E, nat) -> nat, e: E)
    requires a != b && e in {a, b}
    requires WellFormedState(TwoStructs(a, b, OnComplete), BothDeclared(a, b))
    requires Ranked(TwoStructs(a, b, OnComplete), BothDeclared(a, b), rank)
    ensures rank(if e == a then b else a, 2) < rank(e, 2)
  {
    hide WellFormedState;
    var sys, st, other := TwoStructs(a, b, OnComplete), BothDeclared(a, b), if e == a then b else a;
    var dep := sys[e].dependencies[0];
    assert dep == Dependency(other, OnComplete, PHASE_2);
    assert DependencyRanked(sys, st, rank, e, dep);
    var q: nat :| MetEarlier(sys, st, rank, rank(e, 2), dep, q);
    WhatDependenciesWaitFor(StructType, sys[other].dependencies, OnComplete, q);
    RankGrowsWithPhase(sys, st, rank, other, 2, q);
  }
}
