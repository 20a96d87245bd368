/** The code that destroys what an owned pointer points to, and what running it does. */
module DestructionCode {
  import opened Wrappers
  import opened Ir

  // ---------------------------------------------------------------------------
  // The code

  /** The pointee is destroyed if the pointer is not null. */
  function NullCheckCode<B>(r: nat, slot: nat, ifSet: B, ifNull: B): seq<Instr<B>> {
    [LoadPointer(r, Slot(slot)), IsNonNull(r + 1, Result(r)), CondBr(Result(r + 1), ifSet, ifNull)]
  }

  function DestroyOneCode<B>(r: nat, slot: nat, rest: B): seq<Instr<B>> {
    [LoadPointer(r, Slot(slot)), Call(r + 1, PointeeDestructor, [Result(r)]), Br(rest)]
  }

  /** The count starts at zero, and the loop is entered if there is a pointer. */
  function StartLoopCode<B>(r: nat, slot: nat, count: nat, cond: B, rest: B): seq<Instr<B>> {
    [Store(ConstInt(0), Slot(count))] + NullCheckCode(r, slot, cond, rest)
  }

  /** The loop over the values of a slice goes on while the count local is below the slice's count. */
  function CountCheckCode<B>(r: nat, slot: nat, count: nat, next: B, rest: B): seq<Instr<B>> {
    [Load(r, Slot(count)), LoadPointerCount(r + 1, Slot(slot)), ICmpUlt(r + 2, Result(r), Result(r + 1)),
     CondBr(Result(r + 2), next, rest)]
  }

  function DestroyNextCode<B>(r: nat, slot: nat, count: nat, cond: B): seq<Instr<B>> {
    [LoadPointer(r, Slot(slot)), Call(r + 1, PointeeDestructor, [Result(r)]),
     Load(r + 2, Slot(count)), Add(r + 3, ConstInt(1), Result(r + 2)), Store(Result(r + 3), Slot(count)), Br(cond)]
  }

  // ---------------------------------------------------------------------------
  // Running it

  /** Code outside the function leaves these two locals alone. */
  ghost predicate Untouched<B>(m: Machine<B>, slot: nat, count: nat) {
    m.Running? && forall k :: slot !in m.world(k).writes && count !in m.world(k).writes
  }

  /** The local `slot` holds the pointer `p`. */
  ghost predicate Holds<B>(m: Machine<B>, slot: nat, p: Value) {
    m.Running? && p.Pointer? && slot in m.slots && m.slots[slot] == p
  }

  /** How often the destructor of the pointee was called on the pointer. */
  ghost function Destroyed(p: Value, n: nat): seq<Executed> {
    seq(n, _ => Executed(PointeeDestructor, [p]))
  }

  lemma Chain<B>(code: Code<B>, m: Machine<B>, a: nat, m1: Machine<B>, b: nat, m2: Machine<B>)
    requires m1 == Steps(code, m, a) && m2 == Steps(code, m1, b)
    ensures Steps(code, m, a + b) == m2
    ensures CallsRun(code, m, a + b) == CallsRun(code, m, a) + CallsRun(code, m1, b)
  {
    StepsCompose(code, m, a, b);
    CallsCompose(code, m, a, b);
  }

  /** One instruction that is not a call. */
  lemma QuietStep<B>(code: Code<B>, m: Machine<B>, instr: Instr<B>)
    requires Next(code, m, instr) && !instr.Call?
    ensures Steps(code, m, 1) == Step(code, m) == Execute(instr, m) && CallsRun(code, m, 1) == []
  {
    hide Execute;
    OneStep(code, m);
    assert CallsRun(code, Step(code, m), 0) == [];
  }

  lemma LoadsPointer<B>(code: Code<B>, m: Machine<B>, r: nat, slot: nat, p: Value)
    requires Next(code, m, LoadPointer(r, Slot(slot))) && Holds(m, slot, p)
    ensures Steps(code, m, 1) == Define(m, r, p) && CallsRun(code, m, 1) == []
  {
    hide Steps, Step, CallsRun;
    QuietStep(code, m, LoadPointer(r, Slot(slot)));
  }

  lemma TestsPointer<B>(code: Code<B>, m: Machine<B>, r: nat, op: Operand, p: Value)
    requires Next(code, m, IsNonNull(r, op)) && Eval(m, op) == p && p.Pointer?
    ensures Steps(code, m, 1) == Define(m, r, Bool(p.address != 0)) && CallsRun(code, m, 1) == []
  {
    hide Steps, Step, CallsRun;
    QuietStep(code, m, IsNonNull(r, op));
  }

  lemma Branches<B>(code: Code<B>, m: Machine<B>, op: Operand, ifTrue: B, ifFalse: B, flag: bool)
    requires Next(code, m, CondBr(op, ifTrue, ifFalse)) && Eval(m, op) == Bool(flag)
    ensures Steps(code, m, 1) == Jump(m, if flag then ifTrue else ifFalse) && CallsRun(code, m, 1) == []
  {
    hide Steps, Step, CallsRun;
    QuietStep(code, m, CondBr(op, ifTrue, ifFalse));
  }

  lemma Jumps<B>(code: Code<B>, m: Machine<B>, target: B)
    requires Next(code, m, Br(target))
    ensures Steps(code, m, 1) == Jump(m, target) && CallsRun(code, m, 1) == []
  {
    hide Steps, Step, CallsRun;
    QuietStep(code, m, Br(target));
  }

  lemma Stores<B>(code: Code<B>, m: Machine<B>, op: Operand, slot: nat)
    requires Next(code, m, Store(op, Slot(slot))) && slot in m.slots
    ensures Steps(code, m, 1) == m.(pc := m.pc + 1, slots := m.slots[slot := Eval(m, op)])
    ensures CallsRun(code, m, 1) == []
  {
    hide Steps, Step, CallsRun;
    QuietStep(code, m, Store(op, Slot(slot)));
  }

  lemma LoadsInt<B>(code: Code<B>, m: Machine<B>, r: nat, slot: nat, i: nat)
    requires Next(code, m, Load(r, Slot(slot))) && slot in m.slots && m.slots[slot] == Int(i)
    ensures Steps(code, m, 1) == Define(m, r, Int(i)) && CallsRun(code, m, 1) == []
  {
    hide Steps, Step, CallsRun;
    QuietStep(code, m, Load(r, Slot(slot)));
  }

  lemma LoadsCount<B>(code: Code<B>, m: Machine<B>, r: nat, slot: nat, p: Value)
    requires Next(code, m, LoadPointerCount(r, Slot(slot))) && Holds(m, slot, p)
    ensures Steps(code, m, 1) == Define(m, r, Int(p.count)) && CallsRun(code, m, 1) == []
  {
    hide Steps, Step, CallsRun;
    QuietStep(code, m, LoadPointerCount(r, Slot(slot)));
  }

  lemma Compares<B>(code: Code<B>, m: Machine<B>, r: nat, lhs: Operand, rhs: Operand, a: nat, b: nat)
    requires Next(code, m, ICmpUlt(r, lhs, rhs)) && Eval(m, lhs) == Int(a) && Eval(m, rhs) == Int(b)
    ensures Steps(code, m, 1) == Define(m, r, Bool(a < b)) && CallsRun(code, m, 1) == []
  {
    hide Steps, Step, CallsRun;
    QuietStep(code, m, ICmpUlt(r, lhs, rhs));
  }

  lemma Adds<B>(code: Code<B>, m: Machine<B>, r: nat, rhs: Operand, i: nat)
    requires Next(code, m, Add(r, ConstInt(1), rhs)) && Eval(m, rhs) == Int(i) && i + 1 < TWO_64
    ensures Steps(code, m, 1) == Define(m, r, Int(i + 1)) && CallsRun(code, m, 1) == []
  {
    hide Steps, Step, CallsRun;
    QuietStep(code, m, Add(r, ConstInt(1), rhs));
  }

  /** A call on the pointer. */
  lemma Calls<B>(code: Code<B>, m: Machine<B>, r: nat, callee: Callee, op: Operand, p: Value)
    requires Next(code, m, Call(r, callee, [op])) && Eval(m, op) == p
    ensures var m' := Steps(code, m, 1);
      && At(m', m.block, m.pc + 1) && m'.world == m.world && m'.slots.Keys == m.slots.Keys
      && forall s :: s in m.slots && s !in m.world(m.asked).writes ==> m'.slots[s] == m.slots[s]
    ensures CallsRun(code, m, 1) == [Executed(callee, [p])]
  {
    OneStep(code, m);
    assert CallsRun(code, Step(code, m), 0) == [];
    assert |CallAt(code, m)| == 1 && CallAt(code, m)[0].callee == callee;
    assert CallAt(code, m)[0].arguments == [p];
  }

  /** The check goes to the block of the call exactly if the pointer is not null. */
  lemma NullCheckBranches<B>(
      code: Code<B>, m: Machine<B>, r: nat, slot: nat, ifSet: B, ifNull: B, p: Value)
    requires m.Running? && m.block in code && m.pc + 3 <= |code[m.block]|
    requires code[m.block][m.pc..m.pc + 3] == NullCheckCode(r, slot, ifSet, ifNull)
    requires Holds(m, slot, p)
    ensures var m' := Steps(code, m, 3);
      && At(m', if p.address != 0 then ifSet else ifNull, 0) && m'.slots == m.slots && m'.world == m.world
    ensures CallsRun(code, m, 3) == []
  {
    hide Steps, Step, Execute, CallsRun;
    var check := NullCheckCode(r, slot, ifSet, ifNull);
    assert code[m.block][m.pc] == code[m.block][m.pc..m.pc + 3][0] == check[0];
    assert code[m.block][m.pc + 1] == code[m.block][m.pc..m.pc + 3][1] == check[1];
    assert code[m.block][m.pc + 2] == code[m.block][m.pc..m.pc + 3][2] == check[2];
    LoadsPointer(code, m, r, slot, p);
    var m1 := Define(m, r, p);
    TestsPointer(code, m1, r + 1, Result(r), p);
    var m2 := Define(m1, r + 1, Bool(p.address != 0));
    Branches(code, m2, Result(r + 1), ifSet, ifNull, p.address != 0);
    Chain(code, m, 1, m1, 1, m2);
    Chain(code, m, 2, m2, 1, Jump(m2, if p.address != 0 then ifSet else ifNull));
  }

  /** The pointer is loaded and something is called on it. */
  lemma CalledOnPointer<B>(code: Code<B>, m: Machine<B>, r: nat, callee: Callee, slot: nat, count: nat, p: Value)
    requires m.Running? && m.block in code && m.pc + 2 <= |code[m.block]|
    requires code[m.block][m.pc] == LoadPointer(r, Slot(slot))
    requires code[m.block][m.pc + 1] == Call(r + 1, callee, [Result(r)])
    requires Holds(m, slot, p) && Untouched(m, slot, count)
    ensures var m' := Steps(code, m, 2);
      && At(m', m.block, m.pc + 2) && Holds(m', slot, p) && Untouched(m', slot, count)
      && m'.slots.Keys == m.slots.Keys && (count in m.slots ==> m'.slots[count] == m.slots[count])
    ensures CallsRun(code, m, 2) == [Executed(callee, [p])]
  {
    hide Steps, Step, Execute, CallsRun;
    LoadsPointer(code, m, r, slot, p);
    var m1 := Define(m, r, p);
    Calls(code, m1, r + 1, callee, Result(r), p);
    Chain(code, m, 1, m1, 1, Steps(code, m1, 1));
  }

  // ---------------------------------------------------------------------------
  // One value

  lemma DestroyOneRuns<B>(code: Code<B>, m: Machine<B>, r: nat, slot: nat, count: nat, rest: B, p: Value)
    requires m.Running? && m.block in code && m.pc == 0 && code[m.block] == DestroyOneCode(r, slot, rest)
    requires Holds(m, slot, p) && Untouched(m, slot, count)
    ensures var m' := Steps(code, m, 3);
      At(m', rest, 0) && Holds(m', slot, p) && Untouched(m', slot, count)
    ensures CallsRun(code, m, 3) == [Executed(PointeeDestructor, [p])]
  {
    hide Steps, Step, Execute, CallsRun, Untouched;
    CalledOnPointer(code, m, r, PointeeDestructor, slot, count, p);
    var m1 := Steps(code, m, 2);
    Jumps(code, m1, rest);
    Chain(code, m, 2, m1, 1, Jump(m1, rest));
    StillUntouched(m1, Jump(m1, rest), slot, count);
  }

  lemma StillUntouched<B>(m: Machine<B>, m': Machine<B>, slot: nat, count: nat)
    requires Untouched(m, slot, count) && m'.Running? && m'.world == m.world
    ensures Untouched(m', slot, count)
  {
  }

  /** The run is here, the local holds the pointer, and calls leave these two locals alone. */
  ghost predicate Starts<B>(m: Machine<B>, block: B, pc: nat, slot: nat, count: nat, p: Value) {
    At(m, block, pc) && Holds(m, slot, p) && Untouched(m, slot, count)
  }

  /**
   The run comes to the resuming block, where the local still holds the pointer; the destructor of
   the pointee has then been called that often on the pointer, and nothing else has been called.
   */
  ghost predicate Destroys<B>(code: Code<B>, m: Machine<B>, rest: B, slot: nat, count: nat, p: Value, times: nat) {
    exists n: nat :: DestroysIn(code, m, n, rest, slot, count, p, times)
  }

  ghost predicate DestroysIn<B>(
      code: Code<B>, m: Machine<B>, n: nat, rest: B, slot: nat, count: nat, p: Value, times: nat)
  {
    Starts(Steps(code, m, n), rest, 0, slot, count, p) && CallsRun(code, m, n) == Destroyed(p, times)
  }

  /** The destructor of a pointee is called once if the pointer is not null, and not at all if it is. */
  lemma OneIsDestroyedIfSet<B>(
      code: Code<B>, m: Machine<B>, start: B, pc: nat, r: nat, ifSet: B, rest: B, slot: nat, count: nat, p: Value)
    requires start in code && pc <= |code[start]| && code[start][pc..] == NullCheckCode(r, slot, ifSet, rest)
    requires ifSet in code && code[ifSet] == DestroyOneCode(r + 2, slot, rest)
    requires Starts(m, start, pc, slot, count, p)
    ensures Destroys(code, m, rest, slot, count, p, if p.address != 0 then 1 else 0)
  {
    hide Steps, Step, CallsRun, NullCheckCode, DestroyOneCode;
    assert |NullCheckCode(r, slot, ifSet, rest)| == 3 by {
      CheckLength(r, slot, ifSet, rest);
    }
    assert code[start][pc..pc + 3] == code[start][pc..];
    NullCheckBranches(code, m, r, slot, ifSet, rest, p);
    var m1 := Steps(code, m, 3);
    if p.address == 0 {
      assert DestroysIn(code, m, 3, rest, slot, count, p, 0);
    } else {
      DestroyOneRuns(code, m1, r + 2, slot, count, rest, p);
      Chain(code, m, 3, m1, 3, Steps(code, m1, 3));
      assert DestroysIn(code, m, 6, rest, slot, count, p, 1);
    }
  }

  lemma CheckLength<B>(r: nat, slot: nat, ifSet: B, rest: B)
    ensures |NullCheckCode(r, slot, ifSet, rest)| == 3
  {
  }

  // ---------------------------------------------------------------------------
  // A slice

  lemma CountIsChecked<B>(
      code: Code<B>, m: Machine<B>, r: nat, slot: nat, count: nat, next: B, rest: B, p: Value, i: nat)
    requires m.Running? && m.block in code && m.pc == 0
    requires code[m.block] == CountCheckCode(r, slot, count, next, rest)
    requires Holds(m, slot, p) && count in m.slots && m.slots[count] == Int(i)
    ensures var m' := Steps(code, m, 4);
      At(m', if i < p.count then next else rest, 0) && m'.slots == m.slots && m'.world == m.world
    ensures CallsRun(code, m, 4) == []
  {
    hide Steps, Step, Execute, CallsRun;
    var m1 := CountIsCompared(code, m, r, slot, count, p, i);
    Branches(code, m1, Result(r + 2), next, rest, i < p.count);
    Chain(code, m, 3, m1, 1, Jump(m1, if i < p.count then next else rest));
  }

  lemma CountIsCompared<B>(code: Code<B>, m: Machine<B>, r: nat, slot: nat, count: nat, p: Value, i: nat)
    returns (m': Machine<B>)
    requires m.Running? && m.block in code && m.pc == 0 && |code[m.block]| >= 3
    requires code[m.block][0] == Load(r, Slot(count)) && code[m.block][1] == LoadPointerCount(r + 1, Slot(slot))
    requires code[m.block][2] == ICmpUlt(r + 2, Result(r), Result(r + 1))
    requires Holds(m, slot, p) && count in m.slots && m.slots[count] == Int(i)
    ensures m' == Steps(code, m, 3) && At(m', m.block, 3) && m'.slots == m.slots && m'.world == m.world
    ensures Eval(m', Result(r + 2)) == Bool(i < p.count)
    ensures CallsRun(code, m, 3) == []
  {
    hide Steps, Step, Execute, CallsRun;
    LoadsInt(code, m, r, count, i);
    var m1 := Define(m, r, Int(i));
    LoadsCount(code, m1, r + 1, slot, p);
    var m2 := Define(m1, r + 1, Int(p.count));
    Chain(code, m, 1, m1, 1, m2);
    Compares(code, m2, r + 2, Result(r), Result(r + 1), i, p.count);
    m' := Define(m2, r + 2, Bool(i < p.count));
    Chain(code, m, 2, m2, 1, m');
  }

  lemma NextIsDestroyed<B>(
      code: Code<B>, m: Machine<B>, r: nat, slot: nat, count: nat, cond: B, p: Value, i: nat)
    requires m.Running? && m.block in code && m.pc == 0
    requires code[m.block] == DestroyNextCode(r, slot, count, cond) && slot != count
    requires Holds(m, slot, p) && Untouched(m, slot, count)
    requires count in m.slots && m.slots[count] == Int(i) && i + 1 < TWO_64
    ensures var m' := Steps(code, m, 6);
      && At(m', cond, 0) && Holds(m', slot, p) && Untouched(m', slot, count)
      && count in m'.slots && m'.slots[count] == Int(i + 1)
    ensures CallsRun(code, m, 6) == [Executed(PointeeDestructor, [p])]
  {
    hide Steps, Step, Execute, CallsRun, Untouched;
    CalledOnPointer(code, m, r, PointeeDestructor, slot, count, p);
    var m1 := Steps(code, m, 2);
    var m2 := CountGoesUp(code, m1, r, count, i);
    Chain(code, m, 2, m1, 3, m2);
    Jumps(code, m2, cond);
    Chain(code, m, 5, m2, 1, Jump(m2, cond));
    StillUntouched(m1, Jump(m2, cond), slot, count);
  }

  lemma CountGoesUp<B>(code: Code<B>, m: Machine<B>, r: nat, count: nat, i: nat) returns (m': Machine<B>)
    requires m.Running? && m.block in code && m.pc + 3 <= |code[m.block]|
    requires code[m.block][m.pc] == Load(r + 2, Slot(count))
    requires code[m.block][m.pc + 1] == Add(r + 3, ConstInt(1), Result(r + 2))
    requires code[m.block][m.pc + 2] == Store(Result(r + 3), Slot(count))
    requires count in m.slots && m.slots[count] == Int(i) && i + 1 < TWO_64
    ensures m' == Steps(code, m, 3) && At(m', m.block, m.pc + 3)
    ensures m'.slots == m.slots[count := Int(i + 1)] && m'.world == m.world
    ensures CallsRun(code, m, 3) == []
  {
    hide Steps, Step, Execute, CallsRun;
    LoadsInt(code, m, r + 2, count, i);
    var m1 := Define(m, r + 2, Int(i));
    Adds(code, m1, r + 3, Result(r + 2), i);
    var m2 := Define(m1, r + 3, Int(i + 1));
    Stores(code, m2, Result(r + 3), count);
    m' := Steps(code, m2, 1);
    Chain(code, m, 1, m1, 1, m2);
    Chain(code, m, 2, m2, 1, m');
  }

  /** From the head of the loop: as many calls as the count is short of the count of the slice. */
  lemma {:induction false} LoopRuns<B>(
      code: Code<B>, m: Machine<B>, r: nat, q: nat, slot: nat, count: nat, cond: B, next: B, rest: B, p: Value, i: nat)
    returns (n: nat)
    requires cond in code && code[cond] == CountCheckCode(r, slot, count, next, rest)
    requires next in code && code[next] == DestroyNextCode(q, slot, count, cond) && slot != count
    requires Starts(m, cond, 0, slot, count, p) && p.count < TWO_64
    requires count in m.slots && m.slots[count] == Int(i) && i <= p.count
    ensures DestroysIn(code, m, n, rest, slot, count, p, p.count - i)
    decreases p.count - i
  {
    hide Steps, Step, CallsRun, CountCheckCode, DestroyNextCode;
    CountIsChecked(code, m, r, slot, count, next, rest, p, i);
    var m1 := Steps(code, m, 4);
    n := 4;
    if i < p.count {
      NextIsDestroyed(code, m1, q, slot, count, cond, p, i);
      var m2 := Steps(code, m1, 6);
      Chain(code, m, 4, m1, 6, m2);
      var k := LoopRuns(code, m2, r, q, slot, count, cond, next, rest, p, i + 1);
      Chain(code, m, 10, m2, k, Steps(code, m2, k));
      n := 10 + k;
      assert [Executed(PointeeDestructor, [p])] + Destroyed(p, p.count - i - 1) == Destroyed(p, p.count - i);
    }
  }

  /** The destructor is called once for each value of a slice that is not null, and not at all for a null one. */
  lemma EachIsDestroyedIfSet<B>(
      code: Code<B>, m: Machine<B>, start: B, pc: nat, r: nat, slot: nat, count: nat, cond: B, next: B, rest: B,
      p: Value)
    requires start in code && pc <= |code[start]| && code[start][pc..] == StartLoopCode(r, slot, count, cond, rest)
    requires cond in code && code[cond] == CountCheckCode(r + 2, slot, count, next, rest)
    requires next in code && code[next] == DestroyNextCode(r + 5, slot, count, cond)
    requires Starts(m, start, pc, slot, count, p) && count in m.slots && slot != count && p.count < TWO_64
    ensures Destroys(code, m, rest, slot, count, p, if p.address != 0 then p.count else 0)
  {
    hide Steps, Step, CallsRun, CountCheckCode, DestroyNextCode, NullCheckCode;
    CheckLength(r, slot, cond, rest);
    assert code[start][pc..][0] == Store(ConstInt(0), Slot(count));
    Stores(code, m, ConstInt(0), count);
    var m1 := Steps(code, m, 1);
    assert code[start][pc + 1..pc + 4] == code[start][pc..][1..] == NullCheckCode(r, slot, cond, rest);
    NullCheckBranches(code, m1, r, slot, cond, rest, p);
    var m2 := Steps(code, m1, 3);
    Chain(code, m, 1, m1, 3, m2);
    if p.address == 0 {
      assert DestroysIn(code, m, 4, rest, slot, count, p, 0);
    } else {
      var k := LoopRuns(code, m2, r + 2, r + 5, slot, count, cond, next, rest, p, 0);
      Chain(code, m, 4, m2, k, Steps(code, m2, k));
      assert DestroysIn(code, m, 4 + k, rest, slot, count, p, p.count);
    }
  }

  // ---------------------------------------------------------------------------
  // And then the memory is freed

  function FreeCode<B>(r: nat, slot: nat): seq<Instr<B>> {
    [LoadPointer(r, Slot(slot)), Call(r + 1, Free, [Result(r)])]
  }

  /** After the destruction of a pointee, its memory is freed through the same pointer. */
  lemma FreedAfterwards<B>(
      code: Code<B>, m: Machine<B>, rest: B, r: nat, slot: nat, count: nat, p: Value, times: nat) returns (n: nat)
    requires Destroys(code, m, rest, slot, count, p, times)
    requires rest in code && |code[rest]| >= 2 && code[rest][..2] == FreeCode(r, slot)
    ensures At(Steps(code, m, n), rest, 2)
    ensures CallsRun(code, m, n) == Destroyed(p, times) + [Executed(Free, [p])]
  {
    hide Steps, Step, CallsRun, Destroyed;
    var k: nat :| DestroysIn(code, m, k, rest, slot, count, p, times);
    var m1 := Steps(code, m, k);
    assert code[rest][0] == code[rest][..2][0] && code[rest][1] == code[rest][..2][1];
    CalledOnPointer(code, m1, r, Free, slot, count, p);
    Chain(code, m, k, m1, 2, Steps(code, m1, 2));
    n := k + 2;
  }
}
