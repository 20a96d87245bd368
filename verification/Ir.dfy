/**
 A small part of LLVM's intermediate representation, enough to run what the compiler emits for
 text comparison, with calls and whatever else comes before it. Basic blocks are identified by
 values of an arbitrary type `B`.
 */
module Ir {
  import opened Wrappers

  const TWO_64: nat := 0x1_0000_0000_0000_0000

  type byte = b: nat | b < 256

  /** Instructions produce numbered values; `Slot` is the address an `Alloca` produced. */
  datatype Operand =
    | ConstInt(n: nat)
    | ConstBool(flag: bool)
    | ConstBuffer(bytes: seq<byte>)
    | Result(id: nat)
    | Slot(id: nat)

  datatype Callee = Destructor | DestroyValue | PointeeDestructor | Free | Other(name: string)

  datatype Instr<B> =
    | Alloca(slot: nat)
    | Load(dst: nat, address: Operand)
    | Store(value: Operand, address: Operand)
    | LoadTextBuffer(dst: nat, address: Operand)                 // field 0 of a text in memory
    | LoadTextCount(dst: nat, address: Operand)                  // field 1 of a text in memory
    | LoadByte(dst: nat, buffer: Operand, index: Operand)
    | LoadPointer(dst: nat, address: Operand)                    // of a local that is a pointer
    | LoadPointerCount(dst: nat, address: Operand)               // of a local that is a slice
    | IsNonNull(dst: nat, value: Operand)
    | ICmpEq(dst: nat, lhs: Operand, rhs: Operand)
    | ICmpUlt(dst: nat, lhs: Operand, rhs: Operand)
    | Add(dst: nat, lhs: Operand, rhs: Operand)                  // 64 bits, wraps around
    | Phi(dst: nat, incoming: seq<(Operand, B)>)
    | Call(dst: nat, callee: Callee, arguments: seq<Operand>)
    | Br(target: B)
    | CondBr(condition: Operand, ifTrue: B, ifFalse: B)
    | Ret
    | Invoke(normal: B, unwind: B)
    | Switch(targets: seq<B>)

  predicate IsTerminator<B>(instr: Instr<B>) {
    instr.Br? || instr.CondBr? || instr.Ret? || instr.Invoke? || instr.Switch?
  }

  predicate HasTerminator<B>(instrs: seq<Instr<B>>) {
    exists i :: 0 <= i < |instrs| && IsTerminator(instrs[i])
  }

  function Successors<B>(instr: Instr<B>): seq<B> {
    match instr
    case Br(target) => [target]
    case CondBr(_, ifTrue, ifFalse) => [ifTrue, ifFalse]
    case Invoke(normal, unwind) => [normal, unwind]
    case Switch(targets) => targets
    case _ => []
  }

  datatype Value =
    | Int(n: nat)
    | Bool(flag: bool)
    | Buffer(bytes: seq<byte>)
    | Text(bytes: seq<byte>)
    | Address(slot: nat)
    | Pointer(address: nat, count: nat)        // to `count` values; null at address zero
    | Undefined

  /** What comes from outside: the result of an instruction, what it writes, and where control goes. */
  datatype Outcome = Outcome(value: Value, writes: map<nat, Value>, choice: nat)

  /**
   `wrapped` records whether an addition has ever wrapped around. The outcomes of calls and of other
   instructions whose result is not computed here are those of `world`, which can be anything, at the
   positions from `asked` on. A fault is an access outside a buffer, the use of a value of the wrong
   sort, or the end of the run by a return.
   */
  datatype Machine<B> =
    | Running(block: B, pc: nat, from: Option<B>, regs: map<nat, Value>, slots: map<nat, Value>,
              wrapped: bool, world: nat -> Outcome, asked: nat)
    | Fault

  type Code<B> = map<B, seq<Instr<B>>>

  function Eval<B>(m: Machine<B>, op: Operand): Value
    requires m.Running?
  {
    match op
    case ConstInt(n) => if n < TWO_64 then Int(n) else Undefined
    case ConstBool(flag) => Bool(flag)
    case ConstBuffer(bytes) => Buffer(bytes)
    case Result(id) => if id in m.regs then m.regs[id] else Undefined
    case Slot(id) => if id in m.slots then Address(id) else Undefined
  }

  function Define<B>(m: Machine<B>, dst: nat, value: Value): Machine<B>
    requires m.Running?
  {
    m.(pc := m.pc + 1, regs := m.regs[dst := value])
  }

  function Jump<B>(m: Machine<B>, target: B): Machine<B>
    requires m.Running?
  {
    m.(block := target, pc := 0, from := Some(m.block))
  }

  /** Code outside the function runs: it can write to any slot, but it cannot take a slot away. */
  function Leave<B>(m: Machine<B>): Machine<B>
    requires m.Running?
  {
    var writes := m.world(m.asked).writes;
    m.(slots := map s | s in m.slots :: if s in writes then writes[s] else m.slots[s], asked := m.asked + 1)
  }

  /** The value that reaches a PHI from the block control came from. */
  function Incoming<B(==)>(incoming: seq<(Operand, B)>, from: B): Option<Operand> {
    if incoming == [] then None
    else if incoming[0].1 == from then Some(incoming[0].0)
    else Incoming(incoming[1..], from)
  }

  function Execute<B(==)>(instr: Instr<B>, m: Machine<B>): Machine<B>
    requires m.Running?
  {
    match instr
    case Alloca(slot) => m.(pc := m.pc + 1, slots := m.slots[slot := Undefined])
    case Load(dst, address) =>
      (match Eval(m, address)
       case Address(slot) => if slot in m.slots then Define(m, dst, m.slots[slot]) else Fault
       case _ => Fault)
    case Store(value, address) =>
      (match Eval(m, address)
       case Address(slot) =>
         if slot in m.slots then m.(pc := m.pc + 1, slots := m.slots[slot := Eval(m, value)]) else Fault
       case _ => Fault)
    case LoadTextBuffer(dst, address) =>
      (match TextAt(m, address)
       case Some(bytes) => Define(m, dst, Buffer(bytes))
       case None => Fault)
    case LoadTextCount(dst, address) =>
      (match TextAt(m, address)
       case Some(bytes) => Define(m, dst, Int(|bytes|))
       case None => Fault)
    case LoadByte(dst, buffer, index) =>
      (match (Eval(m, buffer), Eval(m, index))
       case (Buffer(bytes), Int(i)) => if i < |bytes| then Define(m, dst, Int(bytes[i])) else Fault
       case _ => Fault)
    case ICmpEq(dst, lhs, rhs) =>
      (match (Eval(m, lhs), Eval(m, rhs))
       case (Int(a), Int(b)) => Define(m, dst, Bool(a == b))
       case _ => Fault)
    case ICmpUlt(dst, lhs, rhs) =>
      (match (Eval(m, lhs), Eval(m, rhs))
       case (Int(a), Int(b)) => Define(m, dst, Bool(a < b))
       case _ => Fault)
    case Add(dst, lhs, rhs) =>
      (match (Eval(m, lhs), Eval(m, rhs))
       case (Int(a), Int(b)) =>
         if a + b < TWO_64 then Define(m, dst, Int(a + b))
         else Define(m, dst, Int((a + b) % TWO_64)).(wrapped := true)
       case _ => Fault)
    case Phi(dst, incoming) =>
      (match m.from
       case Some(from) =>
         (match Incoming(incoming, from)
          case Some(op) => Define(m, dst, Eval(m, op))
          case None => Fault)
       case None => Fault)
    case Br(target) => Jump(m, target)
    case CondBr(condition, ifTrue, ifFalse) =>
      (match Eval(m, condition)
       case Bool(flag) => Jump(m, if flag then ifTrue else ifFalse)
       case _ => Fault)
    case LoadPointer(dst, address) =>
      (match PointerAt(m, address)
       case Some(p) => Define(m, dst, p)
       case None => Fault)
    case LoadPointerCount(dst, address) =>
      (match PointerAt(m, address)
       case Some(p) => Define(m, dst, Int(p.count))
       case None => Fault)
    case IsNonNull(dst, value) =>
      (match Eval(m, value)
       case Pointer(address, _) => Define(m, dst, Bool(address != 0))
       case _ => Fault)
    case Call(dst, callee, arguments) => Define(Leave(m), dst, m.world(m.asked).value)
    case Invoke(normal, unwind) => Jump(Leave(m), if m.world(m.asked).choice == 0 then normal else unwind)
    case Switch(targets) =>
      if targets == [] then Fault
      else Jump(m.(asked := m.asked + 1), targets[m.world(m.asked).choice % |targets|])
    case Ret => Fault
  }

  /** The text stored at an address. */
  function TextAt<B>(m: Machine<B>, address: Operand): Option<seq<byte>>
    requires m.Running?
  {
    match Eval(m, address)
    case Address(slot) =>
      if slot in m.slots && m.slots[slot].Text? then Some(m.slots[slot].bytes) else None
    case _ => None
  }

  /** The pointer stored at an address. */
  function PointerAt<B>(m: Machine<B>, address: Operand): (p: Option<Value>)
    requires m.Running?
    ensures p.Some? ==> p.value.Pointer?
  {
    match Eval(m, address)
    case Address(slot) => if slot in m.slots && m.slots[slot].Pointer? then Some(m.slots[slot]) else None
    case _ => None
  }

  /** One instruction. Running off the end of a block is a fault, and a fault stays a fault. */
  function Step<B(==)>(code: Code<B>, m: Machine<B>): Machine<B> {
    if m.Running? && m.block in code && m.pc < |code[m.block]| then
      Execute(code[m.block][m.pc], m)
    else
      Fault
  }

  function Steps<B(==)>(code: Code<B>, m: Machine<B>, n: nat): Machine<B>
    decreases n
  {
    if n == 0 then m else Steps(code, Step(code, m), n - 1)
  }

  lemma {:induction false} StepsCompose<B>(code: Code<B>, m: Machine<B>, a: nat, b: nat)
    ensures Steps(code, m, a + b) == Steps(code, Steps(code, m, a), b)
    decreases a
  {
    if a > 0 {
      StepsCompose(code, Step(code, m), a - 1, b);
    }
  }

  /** A run that ends without a fault had none on the way. */
  lemma {:induction false} NoFaultOnTheWay<B>(code: Code<B>, m: Machine<B>, a: nat, b: nat)
    requires a <= b && Steps(code, m, b).Running?
    ensures Steps(code, m, a).Running?
  {
    StepsCompose(code, m, a, b - a);
    if Steps(code, m, a).Fault? {
      FaultStays(code, b - a);
    }
  }

  lemma NoFaultUntil<B>(code: Code<B>, m: Machine<B>, n: nat)
    requires Steps(code, m, n).Running?
    ensures forall k: nat :: k <= n ==> Steps(code, m, k).Running?
  {
    hide Steps;
    forall k: nat | k <= n
      ensures Steps(code, m, k).Running?
    {
      NoFaultOnTheWay(code, m, k, n);
    }
  }

  lemma {:induction false} FaultStays<B>(code: Code<B>, n: nat)
    ensures Steps(code, Machine<B>.Fault, n).Fault?
  {
    if n > 0 {
      FaultStays(code, n - 1);
    }
  }

  ghost predicate At<B>(m: Machine<B>, block: B, pc: nat) {
    m.Running? && m.block == block && m.pc == pc
  }

  // ---------------------------------------------------------------------------
  // The calls of a run

  /** A call that was executed, with what its arguments were. */
  datatype Executed = Executed(callee: Callee, arguments: seq<Value>)

  function CallAt<B(==)>(code: Code<B>, m: Machine<B>): seq<Executed> {
    if m.Running? && m.block in code && m.pc < |code[m.block]| && code[m.block][m.pc].Call? then
      var call := code[m.block][m.pc];
      [Executed(call.callee, seq(|call.arguments|, i requires 0 <= i < |call.arguments| => Eval(m, call.arguments[i])))]
    else
      []
  }

  /** The calls of the first `n` steps. */
  function CallsRun<B(==)>(code: Code<B>, m: Machine<B>, n: nat): seq<Executed>
    decreases n
  {
    if n == 0 then [] else CallAt(code, m) + CallsRun(code, Step(code, m), n - 1)
  }

  lemma {:induction false} CallsCompose<B>(code: Code<B>, m: Machine<B>, a: nat, b: nat)
    ensures CallsRun(code, m, a + b) == CallsRun(code, m, a) + CallsRun(code, Steps(code, m, a), b)
    decreases a
  {
    if a > 0 {
      CallsCompose(code, Step(code, m), a - 1, b);
    }
  }

  // ---------------------------------------------------------------------------
  // Where control goes

  /** Control leaves the straight line exactly at terminators, and then it goes to one of their successors. */
  lemma ControlFollowsSuccessors<B>(instr: Instr<B>, m: Machine<B>)
    requires m.Running? && Execute(instr, m).Running?
    ensures var m' := Execute(instr, m);
      if IsTerminator(instr) then
        m'.block in Successors(instr) && m'.pc == 0 && m'.from == Some(m.block)
      else
        m'.block == m.block && m'.pc == m.pc + 1 && m'.from == m.from
  {
  }

  // ---------------------------------------------------------------------------
  // One instruction at a time

  ghost predicate Next<B>(code: Code<B>, m: Machine<B>, instr: Instr<B>) {
    m.Running? && m.block in code && m.pc < |code[m.block]| && code[m.block][m.pc] == instr
  }

  lemma StepLoad<B>(code: Code<B>, m: Machine<B>, dst: nat, slot: nat)
    requires Next(code, m, Load(dst, Slot(slot))) && slot in m.slots
    ensures Step(code, m) == Define(m, dst, m.slots[slot])
  {
  }

  lemma StepStore<B>(code: Code<B>, m: Machine<B>, value: Operand, slot: nat)
    requires Next(code, m, Store(value, Slot(slot))) && slot in m.slots
    ensures Step(code, m) == m.(pc := m.pc + 1, slots := m.slots[slot := Eval(m, value)])
  {
  }

  lemma StepLoadByte<B>(code: Code<B>, m: Machine<B>, dst: nat, buffer: Operand, index: Operand,
                        bytes: seq<byte>, i: nat)
    requires Next(code, m, LoadByte(dst, buffer, index))
    requires Eval(m, buffer) == Buffer(bytes) && Eval(m, index) == Int(i) && i < |bytes|
    ensures Step(code, m) == Define(m, dst, Int(bytes[i]))
  {
  }

  lemma StepEqual<B>(code: Code<B>, m: Machine<B>, dst: nat, lhs: Operand, rhs: Operand, a: nat, b: nat)
    requires Next(code, m, ICmpEq(dst, lhs, rhs)) && Eval(m, lhs) == Int(a) && Eval(m, rhs) == Int(b)
    ensures Step(code, m) == Define(m, dst, Bool(a == b))
  {
  }

  lemma StepLess<B>(code: Code<B>, m: Machine<B>, dst: nat, lhs: Operand, rhs: Operand, a: nat, b: nat)
    requires Next(code, m, ICmpUlt(dst, lhs, rhs)) && Eval(m, lhs) == Int(a) && Eval(m, rhs) == Int(b)
    ensures Step(code, m) == Define(m, dst, Bool(a < b))
  {
  }

  lemma StepIncrement<B>(code: Code<B>, m: Machine<B>, dst: nat, lhs: Operand, a: nat)
    requires Next(code, m, Add(dst, lhs, ConstInt(1))) && Eval(m, lhs) == Int(a) && a + 1 < TWO_64
    ensures Step(code, m) == Define(m, dst, Int(a + 1))
  {
  }

  lemma StepBranch<B>(code: Code<B>, m: Machine<B>, condition: Operand, ifTrue: B, ifFalse: B, flag: bool)
    requires Next(code, m, CondBr(condition, ifTrue, ifFalse)) && Eval(m, condition) == Bool(flag)
    ensures Step(code, m) == Jump(m, if flag then ifTrue else ifFalse)
  {
  }

  lemma StepJump<B>(code: Code<B>, m: Machine<B>, target: B)
    requires Next(code, m, Br(target))
    ensures Step(code, m) == Jump(m, target)
  {
  }

  /** A call returns, with any result, and leaves the slots there, with any values. */
  lemma StepCall<B>(code: Code<B>, m: Machine<B>, dst: nat, callee: Callee, arguments: seq<Operand>)
    requires Next(code, m, Call(dst, callee, arguments))
    ensures var m' := Step(code, m);
      && m'.Running? && m'.block == m.block && m'.pc == m.pc + 1
      && m'.slots.Keys == m.slots.Keys
      && m'.regs == m.regs[dst := m.world(m.asked).value]
  {
  }

  lemma OneStep<B>(code: Code<B>, m: Machine<B>)
    ensures Steps(code, m, 1) == Step(code, m)
  {
    assert Steps(code, m, 1) == Steps(code, Step(code, m), 0);
  }

  lemma Chain2<B>(code: Code<B>, m: Machine<B>, m1: Machine<B>, m2: Machine<B>)
    requires m1 == Step(code, m) && m2 == Step(code, m1)
    ensures Steps(code, m, 2) == m2
  {
    assert Steps(code, m1, 1) == Steps(code, m2, 0);
  }

  lemma Chain3<B>(code: Code<B>, m: Machine<B>, m1: Machine<B>, m2: Machine<B>, m3: Machine<B>)
    requires m1 == Step(code, m) && m2 == Step(code, m1) && m3 == Step(code, m2)
    ensures Steps(code, m, 3) == m3
  {
    Chain2(code, m1, m2, m3);
    assert Steps(code, m, 3) == Steps(code, m1, 2);
  }
}
