/** What the control-flow graph emitted for the comparison of two texts computes. */
module TextComparison {
  import opened Wrappers
  import opened Ir

  /** The basic blocks of one comparison. `start` is the block that was active before it. */
  datatype Blocks<B> = Blocks(
    start: B, lenCheckTrue: B, strCmpTrue: B, strCmpFalse: B,
    iterCond: B, iterTrue: B, iterIncr: B, iterFalse: B, rest: B)

  /** The operands of one comparison: results from `base` on are numbered by the comparison. */
  datatype Comparison = Comparison(
    isEquality: bool, lhsBuff: Operand, lhsCount: Operand, rhsBuff: Operand, rhsCount: Operand,
    index: nat, base: nat)

  // ---------------------------------------------------------------------------
  // The emitted instructions

  function StartCode<B>(b: Blocks<B>, c: Comparison): seq<Instr<B>> {
    [ICmpEq(c.base, c.lhsCount, c.rhsCount),
     CondBr(Result(c.base), b.lenCheckTrue, b.strCmpFalse)]
  }

  function LenCheckTrueCode<B>(b: Blocks<B>, c: Comparison): seq<Instr<B>> {
    [Store(ConstInt(0), Slot(c.index)),
     Br(b.iterCond)]
  }

  function IterCondCode<B>(b: Blocks<B>, c: Comparison): seq<Instr<B>> {
    [Load(c.base + 1, Slot(c.index)),
     ICmpUlt(c.base + 2, Result(c.base + 1), c.lhsCount),
     CondBr(Result(c.base + 2), b.iterTrue, b.iterFalse)]
  }

  function IterTrueCode<B>(b: Blocks<B>, c: Comparison): seq<Instr<B>> {
    [Load(c.base + 3, Slot(c.index)),
     LoadByte(c.base + 4, c.lhsBuff, Result(c.base + 3)),
     Load(c.base + 5, Slot(c.index)),
     LoadByte(c.base + 6, c.rhsBuff, Result(c.base + 5)),
     ICmpEq(c.base + 7, Result(c.base + 4), Result(c.base + 6)),
     CondBr(Result(c.base + 7), b.iterIncr, b.iterFalse)]
  }

  function IterIncrCode<B>(b: Blocks<B>, c: Comparison): seq<Instr<B>> {
    [Load(c.base + 8, Slot(c.index)),
     Add(c.base + 9, Result(c.base + 8), ConstInt(1)),
     Store(Result(c.base + 9), Slot(c.index)),
     Br(b.iterCond)]
  }

  function IterFalseCode<B>(b: Blocks<B>, c: Comparison): seq<Instr<B>> {
    [Load(c.base + 10, Slot(c.index)),
     ICmpEq(c.base + 11, c.lhsCount, Result(c.base + 10)),
     CondBr(Result(c.base + 11), b.strCmpTrue, b.strCmpFalse)]
  }

  function MergeCode<B>(b: Blocks<B>): seq<Instr<B>> {
    [Br(b.rest)]
  }

  function RestCode<B>(b: Blocks<B>, c: Comparison): seq<Instr<B>> {
    [Phi(c.base + 12, [(ConstBool(c.isEquality), b.strCmpTrue), (ConstBool(!c.isEquality), b.strCmpFalse)])]
  }

  /** The blocks of the comparison hold the emitted code; `start` holds it from `pc` on. */
  ghost predicate Emitted<B>(code: Code<B>, b: Blocks<B>, c: Comparison, pc: nat) {
    && {b.start, b.lenCheckTrue, b.strCmpTrue, b.strCmpFalse, b.iterCond, b.iterTrue, b.iterIncr,
        b.iterFalse, b.rest} <= code.Keys
    && pc <= |code[b.start]| && code[b.start][pc..] == StartCode(b, c)
    && code[b.lenCheckTrue] == LenCheckTrueCode(b, c)
    && code[b.iterCond] == IterCondCode(b, c)
    && code[b.iterTrue] == IterTrueCode(b, c)
    && code[b.iterIncr] == IterIncrCode(b, c)
    && code[b.iterFalse] == IterFalseCode(b, c)
    && code[b.strCmpTrue] == MergeCode(b)
    && code[b.strCmpFalse] == MergeCode(b)
    && RestCode(b, c) <= code[b.rest]
    && b.strCmpTrue != b.strCmpFalse
  }

  // ---------------------------------------------------------------------------
  // The state during a comparison

  /** An operand that does not depend on anything the comparison writes. */
  predicate Older(op: Operand, base: nat) {
    op.ConstInt? || op.ConstBuffer? || (op.Result? && op.id < base)
  }

  /**
   `m` is a state of the comparison of `lhs` and `rhs` that started in `m0`: only results numbered
   from `base` on and the index slot have changed, and no addition has wrapped around.
   */
  ghost predicate During<B>(
      m0: Machine<B>, m: Machine<B>, c: Comparison, lhs: seq<byte>, rhs: seq<byte>)
  {
    && m0.Running? && m.Running?
    && (forall r :: r < c.base ==> (r in m.regs <==> r in m0.regs))
    && (forall r :: r < c.base && r in m0.regs ==> m.regs[r] == m0.regs[r])
    && m.slots.Keys == m0.slots.Keys
    && (forall s :: s in m0.slots && s != c.index ==> m.slots[s] == m0.slots[s])
    && m.wrapped == m0.wrapped
    && c.index in m0.slots
    && |lhs| < TWO_64 && |rhs| < TWO_64
    && Older(c.lhsBuff, c.base) && Older(c.rhsBuff, c.base)
    && Older(c.lhsCount, c.base) && Older(c.rhsCount, c.base)
    && Eval(m, c.lhsBuff) == Buffer(lhs) && Eval(m, c.rhsBuff) == Buffer(rhs)
    && Eval(m, c.lhsCount) == Int(|lhs|) && Eval(m, c.rhsCount) == Int(|rhs|)
  }

  /** The index slot holds `i` and the bytes before it agree. */
  ghost predicate IndexIs<B>(m: Machine<B>, c: Comparison, lhs: seq<byte>, rhs: seq<byte>, i: nat) {
    && m.Running? && c.index in m.slots && m.slots[c.index] == Int(i)
    && i <= |lhs| == |rhs| && lhs[..i] == rhs[..i]
  }

  lemma DuringFacts<B>(m0: Machine<B>, m: Machine<B>, c: Comparison, lhs: seq<byte>, rhs: seq<byte>)
    requires During(m0, m, c, lhs, rhs)
    ensures m.Running? && |lhs| < TWO_64 && |rhs| < TWO_64
    ensures Eval(m, c.lhsBuff) == Buffer(lhs) && Eval(m, c.rhsBuff) == Buffer(rhs)
    ensures Eval(m, c.lhsCount) == Int(|lhs|) && Eval(m, c.rhsCount) == Int(|rhs|)
    ensures c.index in m.slots && Eval(m, Slot(c.index)) == Address(c.index)
  {
  }

  /** Defining a result of the comparison stays within the comparison. */
  lemma DefineKeepsDuring<B>(
      m0: Machine<B>, m: Machine<B>, c: Comparison, lhs: seq<byte>, rhs: seq<byte>, dst: nat, v: Value)
    requires During(m0, m, c, lhs, rhs) && c.base <= dst
    ensures During(m0, Define(m, dst, v), c, lhs, rhs)
  {
  }

  lemma JumpKeepsDuring<B>(
      m0: Machine<B>, m: Machine<B>, c: Comparison, lhs: seq<byte>, rhs: seq<byte>, target: B)
    requires During(m0, m, c, lhs, rhs)
    ensures During(m0, Jump(m, target), c, lhs, rhs)
  {
  }

  lemma StoreKeepsDuring<B>(
      m0: Machine<B>, m: Machine<B>, c: Comparison, lhs: seq<byte>, rhs: seq<byte>, v: Value)
    requires During(m0, m, c, lhs, rhs)
    ensures During(m0, m.(pc := m.pc + 1, slots := m.slots[c.index := v]), c, lhs, rhs)
  {
  }

  // ---------------------------------------------------------------------------
  // Block by block

  lemma StartBlock<B>(code: Code<B>, b: Blocks<B>, c: Comparison, pc: nat, m0: Machine<B>,
                      m: Machine<B>, lhs: seq<byte>, rhs: seq<byte>) returns (m': Machine<B>)
    requires b.start in code && pc <= |code[b.start]| && code[b.start][pc..] == StartCode(b, c)
    requires At(m, b.start, pc) && During(m0, m, c, lhs, rhs)
    ensures m' == Steps(code, m, 2) && During(m0, m', c, lhs, rhs)
    ensures At(m', if |lhs| == |rhs| then b.lenCheckTrue else b.strCmpFalse, 0)
  {
    hide During, Steps, Step, Execute;
    DuringFacts(m0, m, c, lhs, rhs);
    assert code[b.start][pc] == code[b.start][pc..][0];
    assert code[b.start][pc + 1] == code[b.start][pc..][1];
    StepEqual(code, m, c.base, c.lhsCount, c.rhsCount, |lhs|, |rhs|);
    DefineKeepsDuring(m0, m, c, lhs, rhs, c.base, Bool(|lhs| == |rhs|));
    var m1 := Define(m, c.base, Bool(|lhs| == |rhs|));
    StepBranch(code, m1, Result(c.base), b.lenCheckTrue, b.strCmpFalse, |lhs| == |rhs|);
    m' := Step(code, m1);
    JumpKeepsDuring(m0, m1, c, lhs, rhs, m'.block);
    Chain2(code, m, m1, m');
  }

  lemma LenCheckTrueBlock<B>(code: Code<B>, b: Blocks<B>, c: Comparison, m0: Machine<B>,
                             m: Machine<B>, lhs: seq<byte>, rhs: seq<byte>) returns (m': Machine<B>)
    requires b.lenCheckTrue in code && code[b.lenCheckTrue] == LenCheckTrueCode(b, c)
    requires At(m, b.lenCheckTrue, 0) && During(m0, m, c, lhs, rhs) && |lhs| == |rhs|
    ensures m' == Steps(code, m, 2) && During(m0, m', c, lhs, rhs)
    ensures At(m', b.iterCond, 0) && IndexIs(m', c, lhs, rhs, 0)
  {
    hide During, Steps, Step, Execute;
    DuringFacts(m0, m, c, lhs, rhs);
    StepStore(code, m, ConstInt(0), c.index);
    StoreKeepsDuring(m0, m, c, lhs, rhs, Int(0));
    var m1 := Step(code, m);
    StepJump(code, m1, b.iterCond);
    m' := Step(code, m1);
    JumpKeepsDuring(m0, m1, c, lhs, rhs, b.iterCond);
    Chain2(code, m, m1, m');
  }

  lemma IndexKept<B>(m: Machine<B>, m': Machine<B>, c: Comparison, lhs: seq<byte>, rhs: seq<byte>, i: nat)
    requires IndexIs(m, c, lhs, rhs, i) && m'.Running? && m'.slots == m.slots
    ensures IndexIs(m', c, lhs, rhs, i) && i <= |lhs| == |rhs|
    ensures c.index in m.slots && m.slots[c.index] == Int(i)
  {
  }

  /** The index is loaded into a result. */
  lemma LoadIndex<B>(code: Code<B>, c: Comparison, m0: Machine<B>, m: Machine<B>, lhs: seq<byte>,
                     rhs: seq<byte>, i: nat, dst: nat) returns (m': Machine<B>)
    requires Next(code, m, Load(dst, Slot(c.index))) && c.base <= dst
    requires During(m0, m, c, lhs, rhs) && IndexIs(m, c, lhs, rhs, i)
    ensures m' == Step(code, m) && m' == Define(m, dst, Int(i))
    ensures During(m0, m', c, lhs, rhs) && IndexIs(m', c, lhs, rhs, i)
    ensures Eval(m', Result(dst)) == Int(i)
  {
    hide During, Steps, Step, Execute, IndexIs;
    IndexKept(m, Define(m, dst, Int(i)), c, lhs, rhs, i);
    DuringFacts(m0, m, c, lhs, rhs);
    StepLoad(code, m, dst, c.index);
    m' := Define(m, dst, Int(i));
    DefineKeepsDuring(m0, m, c, lhs, rhs, dst, Int(i));
  }

  lemma IterCondBlock<B>(code: Code<B>, b: Blocks<B>, c: Comparison, m0: Machine<B>,
                         m: Machine<B>, lhs: seq<byte>, rhs: seq<byte>, i: nat) returns (m': Machine<B>)
    requires b.iterCond in code && code[b.iterCond] == IterCondCode(b, c)
    requires At(m, b.iterCond, 0) && During(m0, m, c, lhs, rhs) && IndexIs(m, c, lhs, rhs, i)
    ensures m' == Steps(code, m, 3) && During(m0, m', c, lhs, rhs) && IndexIs(m', c, lhs, rhs, i)
    ensures At(m', if i < |lhs| then b.iterTrue else b.iterFalse, 0)
  {
    hide During, Steps, Step, Execute, IndexIs;
    IndexKept(m, m, c, lhs, rhs, i);
    var m1 := LoadIndex(code, c, m0, m, lhs, rhs, i, c.base + 1);
    DuringFacts(m0, m1, c, lhs, rhs);
    StepLess(code, m1, c.base + 2, Result(c.base + 1), c.lhsCount, i, |lhs|);
    DefineKeepsDuring(m0, m1, c, lhs, rhs, c.base + 2, Bool(i < |lhs|));
    var m2 := Define(m1, c.base + 2, Bool(i < |lhs|));
    StepBranch(code, m2, Result(c.base + 2), b.iterTrue, b.iterFalse, i < |lhs|);
    m' := Step(code, m2);
    JumpKeepsDuring(m0, m2, c, lhs, rhs, m'.block);
    IndexKept(m1, m', c, lhs, rhs, i);
    Chain3(code, m, m1, m2, m');
  }

  /** The index and then the byte of one text at that index are loaded. */
  lemma LoadByteAtIndex<B>(
      code: Code<B>, c: Comparison, m0: Machine<B>, m: Machine<B>, lhs: seq<byte>, rhs: seq<byte>,
      i: nat, dst: nat, buffer: Operand, bytes: seq<byte>) returns (m': Machine<B>)
    requires m.Running? && m.block in code && m.pc + 1 < |code[m.block]|
    requires code[m.block][m.pc] == Load(dst, Slot(c.index))
    requires code[m.block][m.pc + 1] == LoadByte(dst + 1, buffer, Result(dst)) && c.base <= dst
    requires During(m0, m, c, lhs, rhs) && IndexIs(m, c, lhs, rhs, i) && i < |lhs|
    requires (buffer == c.lhsBuff && bytes == lhs) || (buffer == c.rhsBuff && bytes == rhs)
    ensures m' == Steps(code, m, 2) && m' == Define(Define(m, dst, Int(i)), dst + 1, Int(bytes[i]))
    ensures During(m0, m', c, lhs, rhs) && IndexIs(m', c, lhs, rhs, i)
  {
    hide During, Steps, Step, Execute, IndexIs;
    IndexKept(m, m, c, lhs, rhs, i);
    var m1 := LoadIndex(code, c, m0, m, lhs, rhs, i, dst);
    DuringFacts(m0, m1, c, lhs, rhs);
    StepLoadByte(code, m1, dst + 1, buffer, Result(dst), bytes, i);
    m' := Define(m1, dst + 1, Int(bytes[i]));
    DefineKeepsDuring(m0, m1, c, lhs, rhs, dst + 1, Int(bytes[i]));
    IndexKept(m1, m', c, lhs, rhs, i);
    Chain2(code, m, m1, m');
  }

  lemma LoadBytes<B>(code: Code<B>, b: Blocks<B>, c: Comparison, m0: Machine<B>,
                     m: Machine<B>, lhs: seq<byte>, rhs: seq<byte>, i: nat) returns (m': Machine<B>)
    requires b.iterTrue in code && code[b.iterTrue] == IterTrueCode(b, c)
    requires At(m, b.iterTrue, 0) && During(m0, m, c, lhs, rhs) && IndexIs(m, c, lhs, rhs, i)
    requires i < |lhs| == |rhs|
    ensures m' == Steps(code, m, 4) && During(m0, m', c, lhs, rhs) && IndexIs(m', c, lhs, rhs, i)
    ensures At(m', b.iterTrue, 4)
    ensures Eval(m', Result(c.base + 4)) == Int(lhs[i]) && Eval(m', Result(c.base + 6)) == Int(rhs[i])
  {
    hide During, Steps, Step, Execute, IndexIs;
    var m2 := LoadByteAtIndex(code, c, m0, m, lhs, rhs, i, c.base + 3, c.lhsBuff, lhs);
    m' := LoadByteAtIndex(code, c, m0, m2, lhs, rhs, i, c.base + 5, c.rhsBuff, rhs);
    StepsCompose(code, m, 2, 2);
  }

  lemma {:induction false} IterTrueBlock<B>(code: Code<B>, b: Blocks<B>, c: Comparison, m0: Machine<B>,
                         m: Machine<B>, lhs: seq<byte>, rhs: seq<byte>, i: nat) returns (m': Machine<B>)
    requires b.iterTrue in code && code[b.iterTrue] == IterTrueCode(b, c)
    requires At(m, b.iterTrue, 0) && During(m0, m, c, lhs, rhs) && IndexIs(m, c, lhs, rhs, i)
    requires i < |lhs| == |rhs|
    ensures m' == Steps(code, m, 6) && During(m0, m', c, lhs, rhs) && IndexIs(m', c, lhs, rhs, i)
    ensures At(m', if lhs[i] == rhs[i] then b.iterIncr else b.iterFalse, 0)
  {
    hide During, Steps, Step, Execute, IndexIs;
    var m4 := LoadBytes(code, b, c, m0, m, lhs, rhs, i);
    StepEqual(code, m4, c.base + 7, Result(c.base + 4), Result(c.base + 6), lhs[i], rhs[i]);
    DefineKeepsDuring(m0, m4, c, lhs, rhs, c.base + 7, Bool(lhs[i] == rhs[i]));
    var m5 := Define(m4, c.base + 7, Bool(lhs[i] == rhs[i]));
    StepBranch(code, m5, Result(c.base + 7), b.iterIncr, b.iterFalse, lhs[i] == rhs[i]);
    m' := Step(code, m5);
    JumpKeepsDuring(m0, m5, c, lhs, rhs, m'.block);
    IndexKept(m4, m', c, lhs, rhs, i);
    Chain2(code, m4, m5, m');
    StepsCompose(code, m, 4, 2);
  }

  lemma IterIncrBlock<B>(code: Code<B>, b: Blocks<B>, c: Comparison, m0: Machine<B>,
                         m: Machine<B>, lhs: seq<byte>, rhs: seq<byte>, i: nat) returns (m': Machine<B>)
    requires b.iterIncr in code && code[b.iterIncr] == IterIncrCode(b, c)
    requires At(m, b.iterIncr, 0) && During(m0, m, c, lhs, rhs) && IndexIs(m, c, lhs, rhs, i)
    requires i < |lhs| && lhs[i] == rhs[i]
    ensures m' == Steps(code, m, 4) && During(m0, m', c, lhs, rhs) && IndexIs(m', c, lhs, rhs, i + 1)
    ensures At(m', b.iterCond, 0)
  {
    hide During, Steps, Step, Execute;
    DuringFacts(m0, m, c, lhs, rhs);
    var m1 := LoadIndex(code, c, m0, m, lhs, rhs, i, c.base + 8);
    StepIncrement(code, m1, c.base + 9, Result(c.base + 8), i);
    DefineKeepsDuring(m0, m1, c, lhs, rhs, c.base + 9, Int(i + 1));
    var m2 := Define(m1, c.base + 9, Int(i + 1));
    StepStore(code, m2, Result(c.base + 9), c.index);
    StoreKeepsDuring(m0, m2, c, lhs, rhs, Int(i + 1));
    var m3 := Step(code, m2);
    StepJump(code, m3, b.iterCond);
    m' := Step(code, m3);
    JumpKeepsDuring(m0, m3, c, lhs, rhs, b.iterCond);
    Chain2(code, m, m1, m2);
    Chain2(code, m2, m3, m');
    StepsCompose(code, m, 2, 2);
    assert lhs[..i + 1] == lhs[..i] + [lhs[i]] && rhs[..i + 1] == rhs[..i] + [rhs[i]];
  }

  lemma IterFalseBlock<B>(code: Code<B>, b: Blocks<B>, c: Comparison, m0: Machine<B>,
                          m: Machine<B>, lhs: seq<byte>, rhs: seq<byte>, i: nat) returns (m': Machine<B>)
    requires b.iterFalse in code && code[b.iterFalse] == IterFalseCode(b, c)
    requires At(m, b.iterFalse, 0) && During(m0, m, c, lhs, rhs) && IndexIs(m, c, lhs, rhs, i)
    ensures m' == Steps(code, m, 3) && During(m0, m', c, lhs, rhs)
    ensures At(m', if i == |lhs| then b.strCmpTrue else b.strCmpFalse, 0)
  {
    hide During, Steps, Step, Execute, IndexIs;
    IndexKept(m, m, c, lhs, rhs, i);
    var m1 := LoadIndex(code, c, m0, m, lhs, rhs, i, c.base + 10);
    DuringFacts(m0, m1, c, lhs, rhs);
    StepEqual(code, m1, c.base + 11, c.lhsCount, Result(c.base + 10), |lhs|, i);
    DefineKeepsDuring(m0, m1, c, lhs, rhs, c.base + 11, Bool(|lhs| == i));
    var m2 := Define(m1, c.base + 11, Bool(|lhs| == i));
    StepBranch(code, m2, Result(c.base + 11), b.strCmpTrue, b.strCmpFalse, |lhs| == i);
    m' := Step(code, m2);
    JumpKeepsDuring(m0, m2, c, lhs, rhs, m'.block);
    Chain3(code, m, m1, m2, m');
  }

  /** The PHI picks the value for the block control came from. */
  lemma PhiPicks<B>(b: Blocks<B>, c: Comparison, equal: bool)
    requires b.strCmpTrue != b.strCmpFalse
    ensures Incoming([(ConstBool(c.isEquality), b.strCmpTrue), (ConstBool(!c.isEquality), b.strCmpFalse)],
                     if equal then b.strCmpTrue else b.strCmpFalse)
            == Some(ConstBool(equal == c.isEquality))
  {
    var incoming: seq<(Operand, B)> :=
      [(ConstBool(c.isEquality), b.strCmpTrue), (ConstBool(!c.isEquality), b.strCmpFalse)];
    assert incoming[1..] == [(ConstBool(!c.isEquality), b.strCmpFalse)];
  }

  /** Either merging block leads past the PHI. */
  lemma MergeBlock<B>(code: Code<B>, b: Blocks<B>, c: Comparison, m0: Machine<B>,
                      m: Machine<B>, lhs: seq<byte>, rhs: seq<byte>, equal: bool) returns (m': Machine<B>)
    requires {b.strCmpTrue, b.strCmpFalse, b.rest} <= code.Keys && b.strCmpTrue != b.strCmpFalse
    requires code[b.strCmpTrue] == code[b.strCmpFalse] == MergeCode(b) && RestCode(b, c) <= code[b.rest]
    requires During(m0, m, c, lhs, rhs) && At(m, if equal then b.strCmpTrue else b.strCmpFalse, 0)
    ensures m' == Steps(code, m, 2) && During(m0, m', c, lhs, rhs)
    ensures At(m', b.rest, 1)
    ensures c.base + 12 in m'.regs && m'.regs[c.base + 12] == Bool(equal == c.isEquality)
  {
    hide During;
    var m1 := Step(code, m);
    JumpKeepsDuring(m0, m, c, lhs, rhs, b.rest);
    PhiPicks(b, c, equal);
    m' := Step(code, m1);
    DefineKeepsDuring(m0, m1, c, lhs, rhs, c.base + 12, Bool(equal == c.isEquality));
    assert Steps(code, m1, 1) == Steps(code, m', 0);
  }

  // ---------------------------------------------------------------------------
  // The whole comparison

  /** The loop ends, and its index is then the length exactly when the texts agree. */
  lemma {:induction false} Loop<B>(
      code: Code<B>, b: Blocks<B>, c: Comparison, pc: nat, m0: Machine<B>, m: Machine<B>,
      lhs: seq<byte>, rhs: seq<byte>, i: nat) returns (n: nat, m': Machine<B>, j: nat)
    requires Emitted(code, b, c, pc) && At(m, b.iterCond, 0) && During(m0, m, c, lhs, rhs)
    requires IndexIs(m, c, lhs, rhs, i)
    ensures m' == Steps(code, m, n) && At(m', b.iterFalse, 0) && During(m0, m', c, lhs, rhs)
    ensures IndexIs(m', c, lhs, rhs, j) && (j == |lhs| <==> lhs == rhs)
    decreases |lhs| - i
  {
    hide During, Steps, Step;
    var m1 := IterCondBlock(code, b, c, m0, m, lhs, rhs, i);
    if i == |lhs| {
      n, m', j := 3, m1, i;
      assert lhs[..i] == lhs && rhs[..i] == rhs;
      return;
    }
    var m2 := IterTrueBlock(code, b, c, m0, m1, lhs, rhs, i);
    StepsCompose(code, m, 3, 6);
    if lhs[i] != rhs[i] {
      n, m', j := 9, m2, i;
      return;
    }
    var m3 := IterIncrBlock(code, b, c, m0, m2, lhs, rhs, i);
    StepsCompose(code, m, 9, 4);
    var k;
    k, m', j := Loop(code, b, c, pc, m0, m3, lhs, rhs, i + 1);
    n := 13 + k;
    StepsCompose(code, m, 13, k);
  }

  lemma ToMerge<B>(
      code: Code<B>, b: Blocks<B>, c: Comparison, pc: nat, m: Machine<B>, lhs: seq<byte>, rhs: seq<byte>)
    returns (n: nat, m': Machine<B>)
    requires Emitted(code, b, c, pc) && At(m, b.start, pc) && During(m, m, c, lhs, rhs)
    ensures m' == Steps(code, m, n) && During(m, m', c, lhs, rhs)
    ensures At(m', if lhs == rhs then b.strCmpTrue else b.strCmpFalse, 0)
  {
    hide During, Steps, Step;
    var m1 := StartBlock(code, b, c, pc, m, m, lhs, rhs);
    if |lhs| != |rhs| {
      n, m' := 2, m1;
      return;
    }
    var m2 := LenCheckTrueBlock(code, b, c, m, m1, lhs, rhs);
    StepsCompose(code, m, 2, 2);
    var k, m3, j := Loop(code, b, c, pc, m, m2, lhs, rhs, 0);
    StepsCompose(code, m, 4, k);
    m' := IterFalseBlock(code, b, c, m, m3, lhs, rhs, j);
    StepsCompose(code, m, 4 + k, 3);
    n := 4 + k + 3;
  }

  /**
   For all texts, running the emitted graph from the block that was active reaches the resuming
   block, where the PHI is `lhs == rhs` when equality was asked for and its negation otherwise. No
   instruction on the way faults (so every byte that is loaded lies within its text), no addition
   wraps around, and nothing but the index slot and the comparison's own results is written.
   */
  lemma ComparisonIsCorrect<B>(
      code: Code<B>, b: Blocks<B>, c: Comparison, pc: nat, m: Machine<B>, lhs: seq<byte>, rhs: seq<byte>)
    returns (n: nat)
    requires Emitted(code, b, c, pc) && At(m, b.start, pc) && During(m, m, c, lhs, rhs)
    ensures var m' := Steps(code, m, n);
      && At(m', b.rest, 1)
      && c.base + 12 in m'.regs
      && m'.regs[c.base + 12] == Bool(if c.isEquality then lhs == rhs else lhs != rhs)
      && During(m, m', c, lhs, rhs)
    ensures forall k: nat :: k <= n ==> Steps(code, m, k).Running?
  {
    hide Steps, Step;
    var k, m1 := ToMerge(code, b, c, pc, m, lhs, rhs);
    var m2 := MergeBlock(code, b, c, m, m1, lhs, rhs, lhs == rhs);
    StepsCompose(code, m, k, 2);
    n := k + 2;
    NoFaultUntil(code, m, n);
  }

  // ---------------------------------------------------------------------------
  // The operands

  /** The forms in which a text reaches a comparison. */
  datatype TextValue =
    | ConstText(bytes: seq<byte>)        // a constant
    | InMemory(address: Operand)         // a text stored at an address
    | RefInMemory(address: Operand)      // a reference, itself stored at an address
    | Computed(value: Operand)           // a text that is not in memory yet

  /** The instructions that fetch the buffer and the count of a text; `slot` is for a new local. */
  function TextCode<B>(v: TextValue, slot: nat, base: nat): seq<Instr<B>> {
    match v
    case ConstText(_) => []
    case InMemory(address) => [LoadTextBuffer(base, address), LoadTextCount(base + 1, address)]
    case RefInMemory(address) =>
      [Load(base, address), LoadTextBuffer(base + 1, Result(base)), LoadTextCount(base + 2, Result(base))]
    case Computed(value) =>
      [Store(value, Slot(slot)), LoadTextBuffer(base, Slot(slot)), LoadTextCount(base + 1, Slot(slot))]
  }

  /** The number of results that fetching takes, and the number of new locals. */
  function ResultsUsed(v: TextValue): nat {
    match v
    case ConstText(_) => 0
    case RefInMemory(_) => 3
    case _ => 2
  }

  function SlotsUsed(v: TextValue): nat {
    if v.Computed? then 1 else 0
  }

  function BufferOf(v: TextValue, base: nat): Operand {
    match v
    case ConstText(bytes) => ConstBuffer(bytes)
    case RefInMemory(_) => Result(base + 1)
    case _ => Result(base)
  }

  function CountOf(v: TextValue, base: nat): Operand {
    match v
    case ConstText(bytes) => ConstInt(|bytes|)
    case RefInMemory(_) => Result(base + 2)
    case _ => Result(base + 1)
  }

  predicate IsOld(op: Operand, slots: nat, base: nat) {
    match op
    case Result(id) => id < base
    case Slot(id) => id < slots
    case _ => false
  }

  /** In `m`, the value is the given text, and its storage was made before slot number `slots`. */
  ghost predicate Denotes<B>(m: Machine<B>, v: TextValue, bytes: seq<byte>, slots: nat, base: nat)
    requires m.Running?
  {
    && |bytes| < TWO_64
    && match v {
         case ConstText(b) => b == bytes
         case InMemory(address) => IsOld(address, slots, base) && IsTextAt(m, Eval(m, address), bytes, slots)
         case RefInMemory(address) =>
           && IsOld(address, slots, base)
           && Eval(m, address).Address? && Eval(m, address).slot < slots
           && Eval(m, address).slot in m.slots
           && IsTextAt(m, m.slots[Eval(m, address).slot], bytes, slots)
         case Computed(value) => IsOld(value, slots, base) && Eval(m, value) == Text(bytes)
       }
  }

  ghost predicate IsTextAt<B>(m: Machine<B>, address: Value, bytes: seq<byte>, slots: nat)
    requires m.Running?
  {
    && address.Address? && address.slot < slots
    && address.slot in m.slots && m.slots[address.slot] == Text(bytes)
  }

  /** Results below `base` and slots below `slots` are as they were, and nothing else was allocated. */
  ghost predicate Preserved<B>(m0: Machine<B>, m: Machine<B>, slots: nat, base: nat) {
    && m0.Running? && m.Running?
    && (forall r :: r < base ==> (r in m.regs <==> r in m0.regs))
    && (forall r :: r < base && r in m0.regs ==> m.regs[r] == m0.regs[r])
    && m.slots.Keys == m0.slots.Keys
    && (forall s :: s < slots && s in m0.slots ==> m.slots[s] == m0.slots[s])
    && m.wrapped == m0.wrapped
  }

  lemma PreservedTransitive<B>(
      m0: Machine<B>, m1: Machine<B>, m2: Machine<B>, slots: nat, base: nat, slots': nat, base': nat)
    requires Preserved(m0, m1, slots, base) && Preserved(m1, m2, slots', base')
    requires slots <= slots' && base <= base'
    ensures Preserved(m0, m2, slots, base)
  {
  }

  lemma StillDenotes<B>(
      m0: Machine<B>, m: Machine<B>, v: TextValue, bytes: seq<byte>, slots: nat, base: nat)
    requires Preserved(m0, m, slots, base) && Denotes(m0, v, bytes, slots, base)
    ensures Denotes(m, v, bytes, slots, base)
  {
  }

  /** An operand made from results below `base`, or constant, keeps its value. */
  lemma OlderKeepsValue<B>(m0: Machine<B>, m: Machine<B>, op: Operand, slots: nat, base: nat)
    requires Preserved(m0, m, slots, base) && Older(op, base)
    ensures Eval(m, op) == Eval(m0, op)
  {
  }

  /** From an address, two loads yield the buffer and the count. */
  lemma FetchFields<B>(code: Code<B>, block: B, pc: nat, address: Operand, dst: nat, slots: nat,
                       base: nat, m: Machine<B>, bytes: seq<byte>) returns (m': Machine<B>)
    requires At(m, block, pc) && block in code && pc + 2 <= |code[block]|
    requires code[block][pc] == LoadTextBuffer(dst, address)
    requires code[block][pc + 1] == LoadTextCount(dst + 1, address)
    requires TextAt(m, address) == Some(bytes) && base <= dst && (address.Result? ==> address.id < dst)
    ensures m' == Steps(code, m, 2) && At(m', block, pc + 2) && Preserved(m, m', slots, base)
    ensures Eval(m', Result(dst)) == Buffer(bytes) && Eval(m', Result(dst + 1)) == Int(|bytes|)
  {
    var m1 := Step(code, m);
    assert m1 == Define(m, dst, Buffer(bytes));
    m' := Step(code, m1);
    assert m' == Define(m1, dst + 1, Int(|bytes|));
    assert Steps(code, m1, 1) == Steps(code, m', 0);
  }

  lemma FetchReference<B>(code: Code<B>, block: B, pc: nat, address: Operand, slots: nat,
                          base: nat, m: Machine<B>, bytes: seq<byte>) returns (m': Machine<B>)
    requires At(m, block, pc) && block in code && pc + 3 <= |code[block]|
    requires code[block][pc] == Load(base, address)
    requires code[block][pc + 1] == LoadTextBuffer(base + 1, Result(base))
    requires code[block][pc + 2] == LoadTextCount(base + 2, Result(base))
    requires Denotes(m, RefInMemory(address), bytes, slots, base)
    ensures m' == Steps(code, m, 3) && At(m', block, pc + 3) && Preserved(m, m', slots, base)
    ensures Eval(m', Result(base + 1)) == Buffer(bytes) && Eval(m', Result(base + 2)) == Int(|bytes|)
  {
    hide Steps;
    var target := m.slots[Eval(m, address).slot];
    var m1 := Step(code, m);
    assert m1 == Define(m, base, target);
    m' := FetchFields(code, block, pc + 1, Result(base), base + 1, slots, base, m1, bytes);
    StepsCompose(code, m, 1, 2);
    OneStep(code, m);
  }

  lemma FetchComputed<B>(code: Code<B>, block: B, pc: nat, value: Operand, slots: nat,
                         base: nat, m: Machine<B>, bytes: seq<byte>) returns (m': Machine<B>)
    requires At(m, block, pc) && block in code && pc + 3 <= |code[block]|
    requires code[block][pc] == Store(value, Slot(slots))
    requires code[block][pc + 1] == LoadTextBuffer(base, Slot(slots))
    requires code[block][pc + 2] == LoadTextCount(base + 1, Slot(slots))
    requires Denotes(m, Computed(value), bytes, slots, base) && slots in m.slots
    ensures m' == Steps(code, m, 3) && At(m', block, pc + 3) && Preserved(m, m', slots, base)
    ensures Eval(m', Result(base)) == Buffer(bytes) && Eval(m', Result(base + 1)) == Int(|bytes|)
  {
    hide Steps, Step, Execute;
    var m1 := Step(code, m);
    StepStore(code, m, value, slots);
    assert m1 == m.(pc := pc + 1, slots := m.slots[slots := Text(bytes)]);
    m' := FetchFields(code, block, pc + 1, Slot(slots), base, slots, base, m1, bytes);
    StepsCompose(code, m, 1, 2);
    OneStep(code, m);
  }

  /** Fetching a text yields its buffer and its count. */
  lemma FetchText<B>(code: Code<B>, block: B, pc: nat, v: TextValue, slots: nat, base: nat,
                     m: Machine<B>, bytes: seq<byte>) returns (m': Machine<B>)
    requires At(m, block, pc) && block in code
    requires pc + |TextCode<B>(v, slots, base)| <= |code[block]|
    requires code[block][pc..pc + |TextCode<B>(v, slots, base)|] == TextCode(v, slots, base)
    requires Denotes(m, v, bytes, slots, base) && (v.Computed? ==> slots in m.slots)
    ensures m' == Steps(code, m, |TextCode<B>(v, slots, base)|)
    ensures At(m', block, pc + |TextCode<B>(v, slots, base)|) && Preserved(m, m', slots, base)
    ensures Eval(m', BufferOf(v, base)) == Buffer(bytes) && Eval(m', CountOf(v, base)) == Int(|bytes|)
  {
    hide Steps, Step, Execute;
    var fetch := TextCode<B>(v, slots, base);
    assert |fetch| > 0 ==> code[block][pc] == fetch[0];
    assert |fetch| > 1 ==> code[block][pc + 1] == fetch[1];
    assert |fetch| > 2 ==> code[block][pc + 2] == fetch[2];
    match v {
      case ConstText(_) =>
        m' := m;
        NoSteps(code, m);
      case InMemory(address) =>
        m' := FetchFields(code, block, pc, address, base, slots, base, m, bytes);
      case RefInMemory(address) =>
        m' := FetchReference(code, block, pc, address, slots, base, m, bytes);
      case Computed(value) =>
        m' := FetchComputed(code, block, pc, value, slots, base, m, bytes);
    }
  }

  lemma NoSteps<B>(code: Code<B>, m: Machine<B>)
    ensures Steps(code, m, 0) == m
  {
  }

  // ---------------------------------------------------------------------------
  // From the texts to the result

  /** What the active block holds: the two fetches and then the start of the comparison. */
  function ActiveBlockCode<B>(
      b: Blocks<B>, c: Comparison, lhs: TextValue, rhs: TextValue, slots: nat, base: nat): seq<Instr<B>>
  {
    TextCode(lhs, slots, base)
    + TextCode(rhs, slots + SlotsUsed(lhs), base + ResultsUsed(lhs))
    + StartCode(b, c)
  }

  /** The comparison of what the two fetches yield. */
  ghost predicate Compares(
      c: Comparison, isEquality: bool, lhs: TextValue, rhs: TextValue, base: nat)
  {
    && c.isEquality == isEquality
    && c.lhsBuff == BufferOf(lhs, base) && c.lhsCount == CountOf(lhs, base)
    && c.rhsBuff == BufferOf(rhs, base + ResultsUsed(lhs))
    && c.rhsCount == CountOf(rhs, base + ResultsUsed(lhs))
    && c.base == base + ResultsUsed(lhs) + ResultsUsed(rhs)
  }

  lemma Slices<B>(whole: seq<Instr<B>>, pc: nat, a: seq<Instr<B>>, b: seq<Instr<B>>, c: seq<Instr<B>>)
    requires pc <= |whole| && whole[pc..] == a + b + c
    ensures pc + |a| + |b| + |c| == |whole|
    ensures whole[pc..pc + |a|] == a
    ensures whole[pc + |a|..pc + |a| + |b|] == b
    ensures whole[pc + |a| + |b|..] == c
  {
    assert whole[pc..pc + |a|] == whole[pc..][..|a|];
    assert whole[pc + |a|..pc + |a| + |b|] == whole[pc..][|a|..|a| + |b|];
    assert whole[pc + |a| + |b|..] == whole[pc..][|a| + |b|..];
  }

  /** A state in which the operands of a comparison have their values is one where it can start. */
  lemma CanStart<B>(m: Machine<B>, c: Comparison, isEquality: bool, lhsEmit: TextValue, rhsEmit: TextValue,
                    base: nat, lhs: seq<byte>, rhs: seq<byte>)
    requires m.Running? && Compares(c, isEquality, lhsEmit, rhsEmit, base) && c.index in m.slots
    requires |lhs| < TWO_64 && |rhs| < TWO_64
    requires Eval(m, c.lhsBuff) == Buffer(lhs) && Eval(m, c.lhsCount) == Int(|lhs|)
    requires Eval(m, c.rhsBuff) == Buffer(rhs) && Eval(m, c.rhsCount) == Int(|rhs|)
    ensures During(m, m, c, lhs, rhs)
  {
  }

  lemma OperandsAreOlder(v: TextValue, base: nat)
    ensures Older(BufferOf(v, base), base + ResultsUsed(v))
    ensures Older(CountOf(v, base), base + ResultsUsed(v))
  {
  }

  /** The two fetches lead to the start of the comparison. */
  lemma FetchBoth<B>(
      code: Code<B>, b: Blocks<B>, c: Comparison, pc: nat, m: Machine<B>,
      lhsEmit: TextValue, rhsEmit: TextValue, slots: nat, base: nat, lhs: seq<byte>, rhs: seq<byte>)
    returns (n: nat, m': Machine<B>)
    requires b.start in code && pc <= |code[b.start]|
    requires code[b.start][pc..] == ActiveBlockCode(b, c, lhsEmit, rhsEmit, slots, base)
    requires Compares(c, c.isEquality, lhsEmit, rhsEmit, base)
    requires At(m, b.start, pc)
    requires Denotes(m, lhsEmit, lhs, slots, base) && Denotes(m, rhsEmit, rhs, slots, base)
    requires lhsEmit.Computed? ==> slots in m.slots
    requires rhsEmit.Computed? ==> slots + SlotsUsed(lhsEmit) in m.slots
    requires c.index in m.slots
    ensures pc + n <= |code[b.start]| && code[b.start][pc + n..] == StartCode(b, c)
    ensures m' == Steps(code, m, n) && At(m', b.start, pc + n) && During(m', m', c, lhs, rhs)
    ensures Preserved(m, m', slots, base)
  {
    hide Steps, Step, Execute, During, Eval, TextCode, StartCode, BufferOf, CountOf, ResultsUsed,
         SlotsUsed, Denotes;
    var slots1, base1 := slots + SlotsUsed(lhsEmit), base + ResultsUsed(lhsEmit);
    var fetch1, fetch2 := TextCode<B>(lhsEmit, slots, base), TextCode<B>(rhsEmit, slots1, base1);
    Slices(code[b.start], pc, fetch1, fetch2, StartCode(b, c));
    OperandsAreOlder(lhsEmit, base);
    DenotesLater(m, lhsEmit, lhs, slots, base, slots1, base1);
    var m1 := FetchText(code, b.start, pc, lhsEmit, slots, base, m, lhs);
    StillDenotes(m, m1, rhsEmit, rhs, slots, base);
    DenotesLater(m1, rhsEmit, rhs, slots, base, slots1, base1);
    m' := FetchText(code, b.start, pc + |fetch1|, rhsEmit, slots1, base1, m1, rhs);
    StepsCompose(code, m, |fetch1|, |fetch2|);
    n := |fetch1| + |fetch2|;
    OlderKeepsValue(m1, m', BufferOf(lhsEmit, base), slots1, base1);
    OlderKeepsValue(m1, m', CountOf(lhsEmit, base), slots1, base1);
    PreservedTransitive(m, m1, m', slots, base, slots1, base1);
    CanStart(m', c, c.isEquality, lhsEmit, rhsEmit, base, lhs, rhs);
  }

  lemma DenotesLater<B>(m: Machine<B>, v: TextValue, bytes: seq<byte>, slots: nat, base: nat,
                        slots': nat, base': nat)
    requires m.Running? && Denotes(m, v, bytes, slots, base) && slots <= slots' && base <= base'
    ensures Denotes(m, v, bytes, slots', base') && |bytes| < TWO_64
  {
  }

  /**
   Running everything that a comparison of two texts emits, from the point in the active block
   where its emission began, reaches the resuming block with the value that was asked for.
   */
  lemma CompareTextRuns<B>(
      code: Code<B>, b: Blocks<B>, c: Comparison, isEquality: bool, pc: nat, m: Machine<B>,
      lhsEmit: TextValue, rhsEmit: TextValue, slots: nat, base: nat, lhs: seq<byte>, rhs: seq<byte>)
    returns (n: nat)
    requires b.start in code && pc <= |code[b.start]|
    requires code[b.start][pc..] == ActiveBlockCode(b, c, lhsEmit, rhsEmit, slots, base)
    requires Emitted(code, b, c, |code[b.start]| - 2)
    requires Compares(c, isEquality, lhsEmit, rhsEmit, base)
    requires At(m, b.start, pc)
    requires Denotes(m, lhsEmit, lhs, slots, base) && Denotes(m, rhsEmit, rhs, slots, base)
    requires lhsEmit.Computed? ==> slots in m.slots
    requires rhsEmit.Computed? ==> slots + SlotsUsed(lhsEmit) in m.slots
    requires c.index in m.slots
    ensures var m' := Steps(code, m, n);
      && At(m', b.rest, 1)
      && Eval(m', Result(c.base + 12)) == Bool(if isEquality then lhs == rhs else lhs != rhs)
      && m'.wrapped == m.wrapped && m'.slots.Keys == m.slots.Keys
    ensures forall k: nat :: k <= n ==> Steps(code, m, k).Running?
  {
    hide Steps, Step, Execute, Emitted, Denotes;
    var k, m1 := FetchBoth(code, b, c, pc, m, lhsEmit, rhsEmit, slots, base, lhs, rhs);
    assert |code[b.start][pc + k..]| == 2;
    var j := ComparisonIsCorrect(code, b, c, pc + k, m1, lhs, rhs);
    StepsCompose(code, m, k, j);
    n := k + j;
    NoFaultUntil(code, m, n);
  }

  // ---------------------------------------------------------------------------
  // Constants

  /** The data of a constant text ends in a zero byte that its count leaves out. */
  function ConstantData(bytes: seq<byte>): seq<byte> {
    bytes + [0]
  }

  /** The comparison of two constants, from their data and their counts. */
  predicate ComparePrerunText(lhsData: seq<byte>, lhsCount: nat, rhsData: seq<byte>, rhsCount: nat) {
    if lhsCount == rhsCount then
      if lhsCount == 0 then true else lhsData == rhsData
    else
      false
  }

  /** Folding two constants gives what running the comparison would give. */
  lemma FoldingAgrees(lhs: seq<byte>, rhs: seq<byte>)
    ensures ComparePrerunText(ConstantData(lhs), |lhs|, ConstantData(rhs), |rhs|) <==> lhs == rhs
  {
    if ConstantData(lhs) == ConstantData(rhs) {
      assert lhs == ConstantData(lhs)[..|lhs|];
      assert rhs == ConstantData(rhs)[..|rhs|];
    }
  }

  // ---------------------------------------------------------------------------
  // Shape of the graph

  /** A block that ends in exactly one terminator, whose targets are among `targets`. */
  ghost predicate Terminated<B>(instrs: seq<Instr<B>>, targets: set<B>) {
    && instrs != []
    && (forall i :: 0 <= i < |instrs| ==> (IsTerminator(instrs[i]) <==> i == |instrs| - 1))
    && (forall t :: t in Successors(instrs[|instrs| - 1]) ==> t in targets)
  }

  ghost predicate JumpsTo<B>(code: Code<B>, from: B, to: B) {
    from in code && exists i :: 0 <= i < |code[from]| && to in Successors(code[from][i])
  }

  function Created<B>(b: Blocks<B>): set<B> {
    {b.lenCheckTrue, b.strCmpTrue, b.strCmpFalse, b.iterCond, b.iterTrue, b.iterIncr, b.iterFalse, b.rest}
  }

  function BlockList<B>(b: Blocks<B>): seq<B> {
    [b.start, b.lenCheckTrue, b.strCmpTrue, b.strCmpFalse, b.iterCond, b.iterTrue, b.iterIncr,
     b.iterFalse, b.rest]
  }

  /** The eight created blocks and the one that was active are nine different blocks. */
  ghost predicate Separate<B>(b: Blocks<B>) {
    forall i, j :: 0 <= i < j < 9 ==> BlockList(b)[i] != BlockList(b)[j]
  }

  lemma RestIsSeparate<B>(b: Blocks<B>)
    requires Separate(b)
    ensures b.strCmpTrue != b.strCmpFalse
    ensures b.rest !in {b.start, b.lenCheckTrue, b.strCmpTrue, b.strCmpFalse, b.iterCond, b.iterTrue,
                        b.iterIncr, b.iterFalse}
  {
    var list := BlockList(b);
    assert list[2] != list[3];
    assert list[0] != list[8] && list[1] != list[8] && list[2] != list[8] && list[3] != list[8];
    assert list[4] != list[8] && list[5] != list[8] && list[6] != list[8] && list[7] != list[8];
  }

  /**
   If the active block was not terminated before, then it and every created block but the resuming
   one end in exactly one terminator, and all jumps stay among the created blocks.
   */
  lemma GraphIsTerminated<B>(code: Code<B>, b: Blocks<B>, c: Comparison, pc: nat)
    requires Emitted(code, b, c, pc) && !HasTerminator(code[b.start][..pc])
    ensures Terminated(code[b.start], Created(b))
    ensures forall x :: x in Created(b) && x != b.rest ==> Terminated(code[x], Created(b))
  {
    var start := code[b.start];
    assert start == start[..pc] + StartCode(b, c);
    forall i | 0 <= i < |start|
      ensures IsTerminator(start[i]) <==> i == |start| - 1
    {
      if i < pc {
        assert start[..pc][i] == start[i];
      }
    }
  }

  /**
   Among the blocks of the comparison, exactly the two merging blocks jump to the resuming one, and
   they are the two incoming blocks of its PHI.
   */
  lemma RestPredecessors<B>(code: Code<B>, b: Blocks<B>, c: Comparison, pc: nat, from: B)
    requires Emitted(code, b, c, pc) && Separate(b)
    requires !HasTerminator(code[b.start][..pc])
    requires from in Created(b) + {b.start} && from != b.rest
    ensures JumpsTo(code, from, b.rest) <==> from in {b.strCmpTrue, b.strCmpFalse}
  {
    var start := code[b.start];
    assert start == start[..pc] + StartCode(b, c);
    RestIsSeparate(b);
    assert forall i :: 0 <= i < pc ==> start[..pc][i] == start[i] && !IsTerminator(start[i]);
    if from in {b.strCmpTrue, b.strCmpFalse} {
      assert b.rest in Successors(code[from][0]);
    }
  }
}
