/** The emission phases of an entity and the order in which they follow one another. */
module EmitPhases {
  import opened Wrappers

  /** The enumerators of the compiler's `EmitPhase`, by their underlying values. */
  newtype EmitPhase = value: int | 0 <= value <= 8

  const PHASE_1: EmitPhase := 0
  const PHASE_2: EmitPhase := 1
  const PHASE_3: EmitPhase := 2
  const PHASE_4: EmitPhase := 3
  const PHASE_5: EmitPhase := 4
  const PHASE_6: EmitPhase := 5
  const PHASE_7: EmitPhase := 6
  const PHASE_8: EmitPhase := 7
  const PHASE_LAST: EmitPhase := 8

  /** The number of phases up to and including `phase`; 0 means that no phase has run yet. */
  function Rank(phase: Option<EmitPhase>): (r: nat)
    ensures r <= 9
  {
    match phase
    case None => 0
    case Some(p) => p as int + 1
  }

  /** The phase that follows `phase`; the last phase follows itself. */
  function GetNextPhase(phase: Option<EmitPhase>): (next: Option<EmitPhase>)
    ensures next.Some?
    ensures Rank(next) == if phase == Some(PHASE_LAST) then Rank(phase) else Rank(phase) + 1
  {
    match phase
    case None => Some(PHASE_1)
    case Some(p) => Some(if p < PHASE_LAST then p + 1 else PHASE_LAST)
  }

  /** A phase is determined by its rank. */
  lemma RankInjective(a: Option<EmitPhase>, b: Option<EmitPhase>)
    requires Rank(a) == Rank(b)
    ensures a == b
  {
  }
}
