/** Destruction of the locals in scope where a function returns. */
module Destructors {
  import opened Wrappers
  import opened Ir
  import opened AllocaPrefixes
  import opened BlockTree
  import opened DestructionCode
  import opened Scopes

  // ---------------------------------------------------------------------------
  // What code calls

  /** A call and the local that it is about. */
  datatype CallSite = CallSite(callee: Callee, local: Option<nat>)

  /** The local that an operand stands for, directly or as the pointer just loaded from it. */
  function Denoted(op: Operand, previous: Option<Instr<BB>>): Option<nat> {
    match op
    case Slot(id) => Some(id)
    case Result(id) =>
      if previous.Some? && previous.value.LoadPointer? && previous.value.dst == id && previous.value.address.Slot?
      then Some(previous.value.address.id) else None
    case _ => None
  }

  function Previous(instrs: seq<Instr<BB>>): Option<Instr<BB>> {
    if instrs == [] then None else Some(instrs[|instrs| - 1])
  }

  function SiteOf(instr: Instr<BB>, previous: Option<Instr<BB>>): seq<CallSite> {
    if instr.Call? && instr.arguments != [] then [CallSite(instr.callee, Denoted(instr.arguments[0], previous))]
    else []
  }

  /** The calls that a block makes. */
  function CallsIn(instrs: seq<Instr<BB>>): seq<CallSite> {
    if instrs == [] then []
    else
      var before := instrs[..|instrs| - 1];
      CallsIn(before) + SiteOf(instrs[|instrs| - 1], Previous(before))
  }

  /** The calls that several blocks make. */
  ghost function Trace(line: seq<BB>): seq<CallSite>
    reads line
  {
    if line == [] then [] else Trace(line[..|line| - 1]) + CallsIn(line[|line| - 1].instrs)
  }

  lemma CallsInMore(instrs: seq<Instr<BB>>, instr: Instr<BB>)
    ensures CallsIn(instrs + [instr]) == CallsIn(instrs) + SiteOf(instr, Previous(instrs))
  {
    assert (instrs + [instr])[..|instrs|] == instrs;
  }

  /** Placing an alloca in a block with other instructions leaves the last one where it is. */
  lemma PlacedBeforeLast(instrs: seq<Instr<BB>>, slot: nat)
    requires AllocaPrefix(instrs) < |instrs|
    ensures var before := instrs[..|instrs| - 1];
      && WithAlloca(instrs, slot) == WithAlloca(before, slot) + [instrs[|instrs| - 1]]
      && (Previous(WithAlloca(before, slot)) == Previous(before)
          || (Previous(WithAlloca(before, slot)) == Some(Alloca(slot))
              && (Previous(before).None? || Previous(before).value.Alloca?)))
  {
    var n, before := AllocaPrefix(instrs), instrs[..|instrs| - 1];
    ShorterPrefix(instrs);
    assert before[..n] == instrs[..n] && before[n..] + [instrs[|instrs| - 1]] == instrs[n..];
  }

  lemma AllocaDenotesNothing(instr: Instr<BB>, previous: Option<Instr<BB>>, slot: nat)
    requires previous.None? || previous.value.Alloca?
    ensures SiteOf(instr, previous) == SiteOf(instr, Some(Alloca(slot)))
  {
  }

  /** Placing an alloca changes nothing about calls. */
  lemma {:induction false} AllocaKeepsCalls(instrs: seq<Instr<BB>>, slot: nat)
    ensures CallsIn(WithAlloca(instrs, slot)) == CallsIn(instrs)
  {
    hide WithAlloca, SiteOf, Previous;
    if AllocaPrefix(instrs) == |instrs| {
      PlacedAtEnd(instrs, slot);
      CallsInMore(instrs, Alloca(slot));
    } else {
      var before, last := instrs[..|instrs| - 1], instrs[|instrs| - 1];
      PlacedBeforeLast(instrs, slot);
      AllocaKeepsCalls(before, slot);
      CallsInMore(WithAlloca(before, slot), last);
      if Previous(WithAlloca(before, slot)) != Previous(before) {
        AllocaDenotesNothing(last, Previous(before), slot);
      }
    }
  }

  lemma PlacedAtEnd(instrs: seq<Instr<BB>>, slot: nat)
    requires AllocaPrefix(instrs) == |instrs|
    ensures WithAlloca(instrs, slot) == instrs + [Alloca(slot)]
    ensures SiteOf(Alloca(slot), Previous(instrs)) == []
  {
    hide AllocaPrefix, CallsIn;
    assert instrs[..|instrs|] == instrs;
  }

  lemma {:induction false} ShorterPrefix(instrs: seq<Instr<BB>>)
    requires AllocaPrefix(instrs) < |instrs|
    ensures AllocaPrefix(instrs[..|instrs| - 1]) == AllocaPrefix(instrs)
  {
    if instrs[0].Alloca? {
      assert instrs[..|instrs| - 1][1..] == instrs[1..][..|instrs| - 2];
      ShorterPrefix(instrs[1..]);
    }
  }

  // ---------------------------------------------------------------------------
  // What should be called

  /** The calls that the destruction of one local amounts to. */
  function Destruction(v: LocalValue, owner: nat): seq<CallSite> {
    if v.ty.isRef then []
    else if v.ty.hasDestructor then [CallSite(Destructor, Some(v.localId))]
    else if v.ty.isDestructible then [CallSite(DestroyValue, Some(v.localId))]
    else if v.ty.pointer.Some? && v.ty.pointer.value.ownerFunction == Some(owner) then
      (if v.ty.pointer.value.pointeeHasDestructor then [CallSite(PointeeDestructor, Some(v.localId))] else [])
      + [CallSite(Free, Some(v.localId))]
    else []
  }

  function DestructionOfAll(values: seq<LocalValue>, owner: nat): seq<CallSite> {
    if values == [] then []
    else DestructionOfAll(values[..|values| - 1], owner) + Destruction(values[|values| - 1], owner)
  }

  // ---------------------------------------------------------------------------
  // Traces of code

  ghost predicate Quiet(code: seq<Instr<BB>>) {
    forall i :: 0 <= i < |code| ==> !code[i].Call?
  }

  lemma {:induction false} QuietCode(instrs: seq<Instr<BB>>, code: seq<Instr<BB>>)
    requires Quiet(code)
    ensures CallsIn(instrs + code) == CallsIn(instrs)
    decreases |code|
  {
    hide CallsIn;
    if code == [] {
      assert instrs + code == instrs;
    } else {
      var n := |code| - 1;
      QuietCode(instrs, code[..n]);
      CallsInMore(instrs + code[..n], code[n]);
      assert instrs + code == instrs + code[..n] + [code[n]];
    }
  }

  lemma DirectCall(instrs: seq<Instr<BB>>, dst: nat, callee: Callee, slot: nat)
    ensures CallsIn(instrs + [Call(dst, callee, [Slot(slot)])]) == CallsIn(instrs) + [CallSite(callee, Some(slot))]
  {
    hide CallsIn;
    CallsInMore(instrs, Call(dst, callee, [Slot(slot)]));
  }

  /** A call on the pointer that a local holds. */
  lemma PointerCall(instrs: seq<Instr<BB>>, r: nat, callee: Callee, slot: nat)
    ensures CallsIn(instrs + [LoadPointer(r, Slot(slot)), Call(r + 1, callee, [Result(r)])])
            == CallsIn(instrs) + [CallSite(callee, Some(slot))]
  {
    hide CallsIn;
    var loaded := instrs + [LoadPointer(r, Slot(slot))];
    CallsInMore(instrs, LoadPointer(r, Slot(slot)));
    CallsInMore(loaded, Call(r + 1, callee, [Result(r)]));
    assert instrs + [LoadPointer(r, Slot(slot)), Call(r + 1, callee, [Result(r)])]
        == loaded + [Call(r + 1, callee, [Result(r)])];
  }

  lemma TraceMore(line: seq<BB>, bb: BB)
    ensures Trace(line + [bb]) == Trace(line) + CallsIn(bb.instrs)
  {
    assert (line + [bb])[..|line|] == line;
  }

  twostate lemma {:induction false} SameCalls(line: seq<BB>)
    requires forall b :: b in line ==> CallsIn(b.instrs) == old(CallsIn(b.instrs))
    ensures Trace(line) == old(Trace(line))
  {
    if line != [] {
      SameCalls(line[..|line| - 1]);
    }
  }

  /** Only the last block of a line has changed. */
  twostate lemma TraceGrows(line: seq<BB>, new calls: seq<CallSite>)
    requires line != [] && Distinct(line)
    requires forall b :: b in line[..|line| - 1] ==> b.instrs == old(b.instrs)
    requires CallsIn(line[|line| - 1].instrs) == old(CallsIn(line[|line| - 1].instrs)) + calls
    ensures Trace(line) == old(Trace(line)) + calls
  {
    SameCalls(line[..|line| - 1]);
  }

  // ---------------------------------------------------------------------------
  // Emission

  /** The builder is at the end of the line of blocks whose calls are followed. */
  ghost predicate Emitting(fn: Function, builder: IRBuilder, line: seq<BB>)
    reads fn, fn.all, builder
  {
    && fn.Valid() && fn.IdsUnique() && fn.all != []
    && line != [] && Distinct(line)
    && builder.insertBlock == line[|line| - 1] == fn.GetBlock().bb
  }

  /** Code is appended that makes no slot. */
  ghost predicate MoreWithoutSlots(was: seq<Instr<BB>>, now: seq<Instr<BB>>) {
    was <= now && forall i :: |was| <= i < |now| ==> !now[i].Alloca?
  }

  /** A call on the local itself. */
  method CallOnLocal(builder: IRBuilder, callee: Callee, slot: nat, ghost line: seq<BB>)
    requires line != [] && Distinct(line) && builder.insertBlock == line[|line| - 1]
    modifies builder`nextResult, builder.insertBlock`instrs
    ensures MoreWithoutSlots(old(builder.insertBlock.instrs), builder.insertBlock.instrs)
    ensures Trace(line) == old(Trace(line)) + [CallSite(callee, Some(slot))]
  {
    DirectCall(builder.insertBlock.instrs, builder.nextResult, callee, slot);
    var _ := builder.CreateCall(callee, [Slot(slot)]);
    assert forall i :: 0 <= i < |line| - 1 ==> line[i] != line[|line| - 1];
    TraceGrows(line, [CallSite(callee, Some(slot))]);
  }

  /** A call on the pointer that a local holds. */
  method CallOnPointer(builder: IRBuilder, callee: Callee, slot: nat)
    modifies builder`nextResult, builder.insertBlock`instrs
    ensures builder.nextResult == old(builder.nextResult) + 2
    ensures builder.insertBlock.instrs == old(builder.insertBlock.instrs) +
      [LoadPointer(old(builder.nextResult), Slot(slot)),
       Call(old(builder.nextResult) + 1, callee, [Result(old(builder.nextResult))])]
  {
    var pointer := builder.CreateLoadPointer(Slot(slot));
    var _ := builder.CreateCall(callee, [pointer]);
  }

  method FreePointer(builder: IRBuilder, slot: nat, ghost line: seq<BB>)
    requires line != [] && Distinct(line) && builder.insertBlock == line[|line| - 1]
    modifies builder`nextResult, builder.insertBlock`instrs
    ensures builder.insertBlock.instrs == old(builder.insertBlock.instrs) + FreeCode(old(builder.nextResult), slot)
    ensures MoreWithoutSlots(old(builder.insertBlock.instrs), builder.insertBlock.instrs)
    ensures Trace(line) == old(Trace(line)) + [CallSite(Free, Some(slot))]
  {
    PointerCall(builder.insertBlock.instrs, builder.nextResult, Free, slot);
    CallOnPointer(builder, Free, slot);
    assert forall i :: 0 <= i < |line| - 1 ==> line[i] != line[|line| - 1];
    TraceGrows(line, [CallSite(Free, Some(slot))]);
  }

  // ---------------------------------------------------------------------------
  // Destruction of what an owned pointer points to

  method EmitNullCheck(builder: IRBuilder, slot: nat, ifSet: BB, ifNull: BB)
    modifies builder`nextResult, builder.insertBlock`instrs
    ensures builder.nextResult == old(builder.nextResult) + 2
    ensures builder.insertBlock.instrs ==
      old(builder.insertBlock.instrs) + NullCheckCode(old(builder.nextResult), slot, ifSet, ifNull)
    ensures MoreWithoutSlots(old(builder.insertBlock.instrs), builder.insertBlock.instrs)
  {
    var pointer := builder.CreateLoadPointer(Slot(slot));
    var isSet := builder.CreateIsNonNull(pointer);
    builder.Insert(CondBr(isSet, ifSet, ifNull));
  }

  method DestroyOnce(builder: IRBuilder, slot: nat, rest: BB)
    requires builder.insertBlock.instrs == []
    modifies builder`nextResult, builder.insertBlock`instrs
    ensures builder.insertBlock.instrs == DestroyOneCode(old(builder.nextResult), slot, rest)
  {
    CallOnPointer(builder, PointeeDestructor, slot);
    builder.AddBranch(rest);
  }

  method EmitDestroyOne(fn: Function, builder: IRBuilder, block: Block, slot: nat, rest: BB)
    requires fn.Valid() && fn.IdsUnique() && fn.Owns(block) && block.bb.instrs == []
    modifies fn`activeBlock, fn.all`active, builder, block.bb`instrs
    ensures fn.Valid() && fn.IdsUnique() && fn.all != []
    ensures old(fn.SlotsMade()) ==> fn.SlotsMade()
    ensures block.bb.instrs == DestroyOneCode(old(builder.nextResult), slot, rest)
  {
    hide Function.Valid, Function.IdsUnique, Function.SlotsMade, Function.GetBlock;
    block.SetActive(builder);
    DestroyOnce(builder, slot, rest);
    if old(fn.SlotsMade()) {
      fn.StillSlotsMade();
    }
  }

  method EmitCountCheck(fn: Function, builder: IRBuilder, block: Block, slot: nat, count: nat, next: BB, rest: BB)
    requires fn.Valid() && fn.IdsUnique() && fn.Owns(block) && block.bb.instrs == []
    modifies fn`activeBlock, fn.all`active, builder, block.bb`instrs
    ensures fn.Valid() && fn.IdsUnique() && fn.all != [] && builder.nextResult == old(builder.nextResult) + 3
    ensures old(fn.SlotsMade()) ==> fn.SlotsMade()
    ensures block.bb.instrs == CountCheckCode(old(builder.nextResult), slot, count, next, rest)
  {
    hide Function.Valid, Function.IdsUnique, Function.SlotsMade, Function.GetBlock;
    block.SetActive(builder);
    var done := builder.CreateLoad(Slot(count));
    var length := builder.CreateLoadPointerCount(Slot(slot));
    var inside := builder.CreateICmpULT(done, length);
    builder.Insert(CondBr(inside, next, rest));
    if old(fn.SlotsMade()) {
      fn.StillSlotsMade();
    }
  }

  /** Destroys the value at the count, and counts it. */
  method DestroyAndCount(builder: IRBuilder, slot: nat, count: nat, cond: BB)
    requires builder.insertBlock.instrs == []
    modifies builder`nextResult, builder.insertBlock`instrs
    ensures builder.insertBlock.instrs == DestroyNextCode(old(builder.nextResult), slot, count, cond)
  {
    CallOnPointer(builder, PointeeDestructor, slot);
    var done := builder.CreateLoad(Slot(count));
    var next := builder.CreateAdd(ConstInt(1), done);
    builder.Insert(Store(next, Slot(count)));
    builder.AddBranch(cond);
  }

  method EmitDestroyNext(fn: Function, builder: IRBuilder, block: Block, slot: nat, count: nat, cond: BB)
    requires fn.Valid() && fn.IdsUnique() && fn.Owns(block) && block.bb.instrs == []
    modifies fn`activeBlock, fn.all`active, builder, block.bb`instrs
    ensures fn.Valid() && fn.IdsUnique() && fn.all != []
    ensures old(fn.SlotsMade()) ==> fn.SlotsMade()
    ensures block.bb.instrs == DestroyNextCode(old(builder.nextResult), slot, count, cond)
  {
    hide Function.Valid, Function.IdsUnique, Function.SlotsMade, Function.GetBlock;
    block.SetActive(builder);
    DestroyAndCount(builder, slot, count, cond);
    if old(fn.SlotsMade()) {
      fn.StillSlotsMade();
    }
  }

  function PointeeCall(r: nat, slot: nat): seq<Instr<BB>> {
    [LoadPointer(r, Slot(slot)), Call(r + 1, PointeeDestructor, [Result(r)])]
  }

  lemma DestroyOneCalls(r: nat, slot: nat, rest: BB)
    ensures CallsIn(DestroyOneCode(r, slot, rest)) == [CallSite(PointeeDestructor, Some(slot))]
  {
    hide CallsIn;
    OnlyCall(r, slot, [Br(rest)]);
    assert DestroyOneCode(r, slot, rest) == PointeeCall(r, slot) + [Br(rest)];
  }

  lemma DestroyNextCalls(r: nat, slot: nat, count: nat, cond: BB)
    ensures CallsIn(DestroyNextCode(r, slot, count, cond)) == [CallSite(PointeeDestructor, Some(slot))]
  {
    hide CallsIn;
    var code := DestroyNextCode(r, slot, count, cond);
    OnlyCall(r, slot, code[2..]);
    assert code == PointeeCall(r, slot) + code[2..];
  }

  lemma OnlyCall(r: nat, slot: nat, tail: seq<Instr<BB>>)
    requires Quiet(tail)
    ensures CallsIn(PointeeCall(r, slot) + tail) == [CallSite(PointeeDestructor, Some(slot))]
  {
    var none: seq<Instr<BB>> := [];
    var call := PointeeCall(r, slot);
    PointerCall(none, r, PointeeDestructor, slot);
    QuietCode(call, tail);
    assert none + call == call;
  }

  /** The blocks that a null check leads to. */
  method CreateGuarded(fn: Function, curr: Block) returns (trueBlock: Block, rest: Block)
    requires fn.Valid() && fn.IdsUnique() && fn.Owns(curr)
    modifies fn`blocks, fn`all, curr`children, curr`nextBlock
    ensures fn.Valid() && fn.IdsUnique() && fn.all == old(fn.all) + [trueBlock, rest]
    ensures old(fn.SlotsMade()) ==> fn.SlotsMade()
    ensures fn.Owns(curr) && fn.Owns(trueBlock) && fn.Owns(rest)
    ensures trueBlock.parent == curr && rest.parent == null && rest.prevBlock == curr
    ensures fresh({trueBlock, rest}) && fresh({trueBlock.bb, rest.bb}) && trueBlock.bb != rest.bb
    ensures trueBlock.bb.instrs == rest.bb.instrs == []
  {
    hide Function.Valid, Function.IdsUnique, Function.SlotsMade;
    trueBlock := new Block(fn, curr);
    rest := new Block(fn, null);
    rest.LinkPreviousBlock(curr);
  }

  /** Creates the guarded block, and branches to it if there is a pointer. */
  method PrepareGuarded(fn: Function, builder: IRBuilder, curr: Block, slot: nat)
    returns (trueBlock: Block, rest: Block)
    requires fn.Valid() && fn.IdsUnique() && fn.Owns(curr) && builder.insertBlock == curr.bb
    modifies fn`blocks, fn`all, curr`children, curr`nextBlock, builder`nextResult, curr.bb`instrs
    ensures fn.Valid() && fn.IdsUnique() && fn.all == old(fn.all) + [trueBlock, rest]
    ensures old(fn.SlotsMade()) ==> fn.SlotsMade()
    ensures fn.Owns(curr) && fn.Owns(trueBlock) && fn.Owns(rest)
    ensures trueBlock.parent == curr && rest.parent == null && rest.prevBlock == curr
    ensures fresh({trueBlock, rest}) && fresh({trueBlock.bb, rest.bb}) && trueBlock.bb != rest.bb
    ensures trueBlock.bb.instrs == rest.bb.instrs == []
    ensures builder.nextResult == old(builder.nextResult) + 2
    ensures curr.bb.instrs ==
      old(curr.bb.instrs) + NullCheckCode(old(builder.nextResult), slot, trueBlock.bb, rest.bb)
  {
    hide Function.Valid, Function.IdsUnique, Function.SlotsMade, NullCheckCode;
    trueBlock, rest := CreateGuarded(fn, curr);
    label created:
    EmitNullCheck(builder, slot, trueBlock.bb, rest.bb);
    if old(fn.SlotsMade()) {
      fn.StillSlotsMade@created();
    }
  }

  /** The code of the block is what emission has left in it. */
  ghost predicate RunsBlock(code: Code<BB>, bb: BB)
    reads bb
  {
    bb in code && code[bb] == bb.instrs
  }

  /**
   Destroys what a pointer to one value points to, unless the pointer is null: in every run that comes
   here, the destructor of the pointee is called once if it is not null, and not at all if it is.
   */
  method DestroyPointee(fn: Function, builder: IRBuilder, slot: nat) returns (trueBlock: Block, rest: Block)
    requires fn.Valid() && fn.IdsUnique() && fn.all != [] && builder.insertBlock == fn.GetBlock().bb
    modifies fn, fn.all, builder, builder.insertBlock`instrs
    ensures fn.Valid() && fn.IdsUnique() && fn.all == old(fn.all) + [trueBlock, rest]
    ensures old(fn.SlotsMade()) ==> fn.SlotsMade()
    ensures fn.GetBlock() == rest && builder.insertBlock == rest.bb && rest.bb.instrs == []
    ensures rest.prevBlock == old(fn.GetBlock()) && rest.parent == null && trueBlock.parent == old(fn.GetBlock())
    ensures fresh({trueBlock.bb, rest.bb}) && trueBlock.bb != rest.bb
    ensures old(builder.insertBlock).instrs == old(builder.insertBlock.instrs) +
      NullCheckCode(old(builder.nextResult), slot, trueBlock.bb, rest.bb)
    ensures trueBlock.bb.instrs == DestroyOneCode(old(builder.nextResult) + 2, slot, rest.bb)
    ensures forall code: Code<BB>, m: Machine<BB>, p: Value ::
      m.Running? && p.Pointer? && RunsBlock(code, old(builder.insertBlock)) && RunsBlock(code, trueBlock.bb)
      && Starts(m, old(builder.insertBlock), |old(builder.insertBlock.instrs)|, slot, slot, p) ==>
        Destroys(code, m, rest.bb, slot, slot, p, if p.address != 0 then 1 else 0)
  {
    hide Function.Valid, Function.IdsUnique, Function.SlotsMade, Function.GetBlock, Starts, Destroys, NullCheckCode,
         DestroyOneCode;
    ghost var start, before, r := builder.insertBlock, builder.insertBlock.instrs, builder.nextResult;
    var curr := fn.GetBlock();
    NearActive(fn);
    trueBlock, rest := PrepareGuarded(fn, builder, curr, slot);
    EmitDestroyOne(fn, builder, trueBlock, slot, rest.bb);
    rest.SetActive(builder);
    OneIsGuarded(start, before, r, trueBlock.bb, rest.bb, slot);
  }

  lemma OneIsGuarded(start: BB, before: seq<Instr<BB>>, r: nat, ifSet: BB, rest: BB, slot: nat)
    requires start.instrs == before + NullCheckCode(r, slot, ifSet, rest)
    requires ifSet.instrs == DestroyOneCode(r + 2, slot, rest)
    ensures forall code: Code<BB>, m: Machine<BB>, p: Value ::
      m.Running? && p.Pointer? && RunsBlock(code, start) && RunsBlock(code, ifSet)
      && Starts(m, start, |before|, slot, slot, p) ==>
        Destroys(code, m, rest, slot, slot, p, if p.address != 0 then 1 else 0)
  {
    hide Starts, Destroys, NullCheckCode, DestroyOneCode;
    forall code: Code<BB>, m: Machine<BB>, p: Value |
      m.Running? && p.Pointer? && RunsBlock(code, start) && RunsBlock(code, ifSet)
      && Starts(m, start, |before|, slot, slot, p)
      ensures Destroys(code, m, rest, slot, slot, p, if p.address != 0 then 1 else 0)
    {
      OneIsDestroyedIfSet(code, m, start, |before|, r, ifSet, rest, slot, slot, p);
    }
  }

  lemma LoopIsGuarded(start: BB, r: nat, cond: BB, next: BB, rest: BB, slot: nat, count: nat)
    requires EndsIn(start.instrs, StartLoopCode(r, slot, count, cond, rest))
    requires cond.instrs == CountCheckCode(r + 2, slot, count, next, rest)
    requires next.instrs == DestroyNextCode(r + 5, slot, count, cond)
    ensures |start.instrs| >= 4
    ensures forall code: Code<BB>, m: Machine<BB>, p: Value ::
      m.Running? && p.Pointer? && RunsBlock(code, start) && RunsBlock(code, cond) && RunsBlock(code, next)
      && Starts(m, start, |start.instrs| - 4, slot, count, p) && count in m.slots && slot != count
      && p.count < TWO_64 ==>
        Destroys(code, m, rest, slot, count, p, if p.address != 0 then p.count else 0)
  {
    hide Starts, Destroys, CountCheckCode, DestroyNextCode;
    forall code: Code<BB>, m: Machine<BB>, p: Value |
      m.Running? && p.Pointer? && RunsBlock(code, start) && RunsBlock(code, cond) && RunsBlock(code, next)
      && Starts(m, start, |start.instrs| - 4, slot, count, p) && count in m.slots && slot != count
      && p.count < TWO_64
      ensures Destroys(code, m, rest, slot, count, p, if p.address != 0 then p.count else 0)
    {
      EachIsDestroyedIfSet(code, m, start, |start.instrs| - 4, r, slot, count, cond, next, rest, p);
    }
  }

  lemma NearActive(fn: Function)
    requires fn.Valid() && fn.all != []
    ensures fn.GetBlock() in fn.all && fn.EntryBlock() == fn.all[0].bb
  {
  }

  /** The blocks of the loop over the values of a slice. */
  method CreateLoop(fn: Function, curr: Block) returns (condBlock: Block, trueBlock: Block, rest: Block)
    requires fn.Valid() && fn.IdsUnique() && fn.Owns(curr)
    modifies fn`blocks, fn`all, curr`children, curr`nextBlock
    ensures fn.Valid() && fn.IdsUnique() && fn.all == old(fn.all) + [condBlock, trueBlock, rest]
    ensures old(fn.SlotsMade()) ==> fn.SlotsMade()
    ensures fn.Owns(curr) && fn.Owns(condBlock) && fn.Owns(trueBlock) && fn.Owns(rest)
    ensures condBlock.parent == curr && trueBlock.parent == curr && rest.parent == null && rest.prevBlock == curr
    ensures fresh({condBlock, trueBlock, rest}) && fresh({condBlock.bb, trueBlock.bb, rest.bb})
    ensures Different(condBlock.bb, trueBlock.bb, rest.bb)
    ensures condBlock.bb.instrs == trueBlock.bb.instrs == rest.bb.instrs == []
  {
    hide Function.Valid, Function.IdsUnique, Function.SlotsMade;
    condBlock := new Block(fn, curr);
    trueBlock := new Block(fn, curr);
    rest := new Block(fn, null);
    rest.LinkPreviousBlock(curr);
  }

  ghost predicate EndsIn(instrs: seq<Instr<BB>>, code: seq<Instr<BB>>) {
    |code| <= |instrs| && instrs[|instrs| - |code|..] == code
  }

  /** Makes the local that counts the values of a slice already destroyed. */
  method StartCount(fn: Function, builder: IRBuilder, curr: Block, name: string) returns (count: nat)
    requires fn.Valid() && fn.IdsUnique() && fn.Owns(curr) && builder.insertBlock == curr.bb
    modifies fn`nextId, curr`values, fn.EntryBlock()`instrs, builder.insertBlock`instrs
    ensures fn.Valid() && fn.IdsUnique() && count == old(fn.nextId)
    ensures old(fn.SlotsMade()) ==> fn.SlotsMade()
    ensures CallsIn(curr.bb.instrs) == old(CallsIn(curr.bb.instrs))
    ensures CallsIn(fn.EntryBlock().instrs) == old(CallsIn(fn.EntryBlock().instrs))
    ensures EndsIn(curr.bb.instrs, [Store(ConstInt(0), Slot(count))])
  {
    hide Function.Valid, Function.IdsUnique, Function.SlotsMade, WithAlloca, CallsIn;
    AllocaKeepsCalls(fn.EntryBlock().instrs, fn.nextId);
    var local := curr.NewLocal(name, LocalType(false, false, false, None));
    count := local.localId;
    QuietCode(curr.bb.instrs, [Store(ConstInt(0), Slot(count))]);
    label made:
    builder.Insert(Store(ConstInt(0), Slot(count)));
    if old(fn.SlotsMade()) {
      fn.StillSlotsMade@made();
    }
  }

  /** Destroys what a slice points to, value after value, unless its pointer is null. */
  method DestroyPointees(fn: Function, builder: IRBuilder, slot: nat, countName: string)
    returns (condBlock: Block, trueBlock: Block, rest: Block)
    requires fn.Valid() && fn.IdsUnique() && fn.all != [] && builder.insertBlock == fn.GetBlock().bb
    modifies fn, fn.all, builder, fn.EntryBlock()`instrs, builder.insertBlock`instrs
    ensures fn.Valid() && fn.IdsUnique() && fn.all == old(fn.all) + [condBlock, trueBlock, rest]
    ensures old(fn.SlotsMade()) ==> fn.SlotsMade()
    ensures fn.GetBlock() == rest && builder.insertBlock == rest.bb && rest.bb.instrs == []
    ensures rest.prevBlock == old(fn.GetBlock()) && rest.parent == null
    ensures condBlock.parent == trueBlock.parent == old(fn.GetBlock())
    ensures fresh({condBlock.bb, trueBlock.bb, rest.bb}) && Different(condBlock.bb, trueBlock.bb, rest.bb)
    ensures fn.EntryBlock() == old(fn.EntryBlock())
    ensures CallsIn(old(builder.insertBlock).instrs) == CallsIn(old(builder.insertBlock.instrs))
    ensures EndsIn(old(builder.insertBlock).instrs,
                   StartLoopCode(old(builder.nextResult), slot, old(fn.nextId), condBlock.bb, rest.bb))
    ensures CallsIn(fn.EntryBlock().instrs) == old(CallsIn(fn.EntryBlock().instrs))
    ensures condBlock.bb.instrs ==
      CountCheckCode(old(builder.nextResult) + 2, slot, old(fn.nextId), trueBlock.bb, rest.bb)
    ensures trueBlock.bb.instrs ==
      DestroyNextCode(old(builder.nextResult) + 5, slot, old(fn.nextId), condBlock.bb)
    ensures forall code: Code<BB>, m: Machine<BB>, p: Value ::
      m.Running? && p.Pointer?
      && RunsBlock(code, old(builder.insertBlock)) && RunsBlock(code, condBlock.bb) && RunsBlock(code, trueBlock.bb)
      && Starts(m, old(builder.insertBlock), |old(builder.insertBlock).instrs| - 4, slot, old(fn.nextId), p)
      && old(fn.nextId) in m.slots && slot != old(fn.nextId) && p.count < TWO_64 ==>
        Destroys(code, m, rest.bb, slot, old(fn.nextId), p, if p.address != 0 then p.count else 0)
  {
    hide Function.Valid, Function.IdsUnique, Function.SlotsMade, Function.GetBlock, Starts, Destroys, NullCheckCode,
         CountCheckCode, DestroyNextCode, CallsIn, EndsIn, StartLoopCode;
    ghost var start, r := builder.insertBlock, builder.nextResult;
    var curr := fn.GetBlock();
    NearActive(fn);
    var count;
    condBlock, trueBlock, rest, count := PrepareLoop(fn, builder, curr, slot, countName);
    FillLoop(fn, builder, slot, count, condBlock, trueBlock, rest);
    LoopIsGuarded(start, r, condBlock.bb, trueBlock.bb, rest.bb, slot, count);
  }

  /** Fills the blocks of the loop, and lets emission continue after it. */
  method FillLoop(fn: Function, builder: IRBuilder, slot: nat, count: nat, condBlock: Block, trueBlock: Block,
                  rest: Block)
    requires fn.Valid() && fn.IdsUnique() && fn.Owns(condBlock) && fn.Owns(trueBlock) && fn.Owns(rest)
    requires Different(condBlock.bb, trueBlock.bb, rest.bb)
    requires condBlock.bb.instrs == trueBlock.bb.instrs == []
    modifies fn`activeBlock, fn.all`active, builder, condBlock.bb`instrs, trueBlock.bb`instrs
    ensures fn.Valid() && fn.IdsUnique() && fn.all != []
    ensures old(fn.SlotsMade()) ==> fn.SlotsMade()
    ensures fn.GetBlock() == rest && builder.insertBlock == rest.bb
    ensures condBlock.bb.instrs == CountCheckCode(old(builder.nextResult), slot, count, trueBlock.bb, rest.bb)
    ensures trueBlock.bb.instrs == DestroyNextCode(old(builder.nextResult) + 3, slot, count, condBlock.bb)
  {
    hide Function.Valid, Function.IdsUnique, Function.SlotsMade, Function.GetBlock, CountCheckCode, DestroyNextCode;
    EmitCountCheck(fn, builder, condBlock, slot, count, trueBlock.bb, rest.bb);
    EmitDestroyNext(fn, builder, trueBlock, slot, count, condBlock.bb);
    rest.SetActive(builder);
  }

  /** Creates the blocks of the loop and its count, and branches to the loop if there is a pointer. */
  method PrepareLoop(fn: Function, builder: IRBuilder, curr: Block, slot: nat, countName: string)
    returns (condBlock: Block, trueBlock: Block, rest: Block, count: nat)
    requires fn.Valid() && fn.IdsUnique() && fn.Owns(curr) && builder.insertBlock == curr.bb
    modifies fn`blocks, fn`all, fn`nextId, curr`children, curr`nextBlock, curr`values
    modifies fn.EntryBlock()`instrs, builder`nextResult, curr.bb`instrs
    ensures fn.Valid() && fn.IdsUnique() && fn.all == old(fn.all) + [condBlock, trueBlock, rest]
    ensures old(fn.SlotsMade()) ==> fn.SlotsMade()
    ensures fn.Owns(curr) && fn.Owns(condBlock) && fn.Owns(trueBlock) && fn.Owns(rest)
    ensures condBlock.parent == curr && trueBlock.parent == curr && rest.parent == null && rest.prevBlock == curr
    ensures fresh({condBlock, trueBlock, rest}) && fresh({condBlock.bb, trueBlock.bb, rest.bb})
    ensures Different(condBlock.bb, trueBlock.bb, rest.bb)
    ensures condBlock.bb.instrs == trueBlock.bb.instrs == rest.bb.instrs == []
    ensures fn.EntryBlock() == old(fn.EntryBlock())
    ensures CallsIn(curr.bb.instrs) == old(CallsIn(curr.bb.instrs))
    ensures CallsIn(fn.EntryBlock().instrs) == old(CallsIn(fn.EntryBlock().instrs))
    ensures count == old(fn.nextId) && builder.nextResult == old(builder.nextResult) + 2
    ensures EndsIn(curr.bb.instrs, StartLoopCode(old(builder.nextResult), slot, count, condBlock.bb, rest.bb))
  {
    hide Function.Valid, Function.IdsUnique, Function.SlotsMade, NullCheckCode, CallsIn;
    condBlock, trueBlock, rest := CreateLoop(fn, curr);
    count := StartCount(fn, builder, curr, countName);
    QuietNullCheck(curr.bb.instrs, builder.nextResult, slot, condBlock.bb, rest.bb);
    EndsInBoth(curr.bb.instrs, [Store(ConstInt(0), Slot(count))],
               NullCheckCode(builder.nextResult, slot, condBlock.bb, rest.bb));
    label started:
    EmitNullCheck(builder, slot, condBlock.bb, rest.bb);
    if old(fn.SlotsMade()) {
      fn.StillSlotsMade@started();
    }
  }

  lemma EndsInBoth(instrs: seq<Instr<BB>>, a: seq<Instr<BB>>, b: seq<Instr<BB>>)
    requires EndsIn(instrs, a)
    ensures EndsIn(instrs + b, a + b)
  {
  }

  lemma QuietNullCheck(instrs: seq<Instr<BB>>, r: nat, slot: nat, ifSet: BB, ifNull: BB)
    ensures CallsIn(instrs + NullCheckCode(r, slot, ifSet, ifNull)) == CallsIn(instrs)
  {
    QuietCode(instrs, NullCheckCode(r, slot, ifSet, ifNull));
  }

  // ---------------------------------------------------------------------------
  // One local, and all of them

  function BodiesOf(blocks: seq<Block>): seq<BB> {
    seq(|blocks|, i requires 0 <= i < |blocks| => blocks[i].bb)
  }

  /** The destructor of a pointee is called in a new block between the old and the resuming one. */
  method DestroyPointed(fn: Function, builder: IRBuilder, slot: nat, isMulti: bool, countName: string,
                        ghost line: seq<BB>)
    returns (ghost line': seq<BB>)
    requires Emitting(fn, builder, line)
    modifies fn, fn.all, builder, fn.EntryBlock()`instrs, builder.insertBlock`instrs
    ensures Emitting(fn, builder, line')
    ensures old(fn.SlotsMade()) ==> fn.SlotsMade()
    ensures |old(fn.all)| <= |fn.all| && fn.all[..|old(fn.all)|] == old(fn.all)
    ensures line' == line + BodiesOf(fn.all[|old(fn.all)|..])
    ensures forall bb :: bb in line' ==> bb in line || fresh(bb)
    ensures builder.insertBlock == old(builder.insertBlock) || fresh(builder.insertBlock)
    ensures forall i :: |old(fn.all)| <= i < |fn.all| ==> fresh(fn.all[i])
    ensures Trace(line') == old(Trace(line)) + [CallSite(PointeeDestructor, Some(slot))]
    ensures old(fn.EntryBlock()) !in line ==>
      CallsIn(old(fn.EntryBlock()).instrs) == old(CallsIn(fn.EntryBlock().instrs))
  {
    if isMulti {
      line' := DestroyManyOnLine(fn, builder, slot, countName, line);
    } else {
      line' := DestroyOneOnLine(fn, builder, slot, line);
    }
  }

  method DestroyOneOnLine(fn: Function, builder: IRBuilder, slot: nat, ghost line: seq<BB>)
    returns (ghost line': seq<BB>)
    requires Emitting(fn, builder, line)
    modifies fn, fn.all, builder, builder.insertBlock`instrs
    ensures Emitting(fn, builder, line')
    ensures old(fn.SlotsMade()) ==> fn.SlotsMade()
    ensures |old(fn.all)| <= |fn.all| && fn.all[..|old(fn.all)|] == old(fn.all)
    ensures line' == line + BodiesOf(fn.all[|old(fn.all)|..])
    ensures forall bb :: bb in line' ==> bb in line || fresh(bb)
    ensures builder.insertBlock == old(builder.insertBlock) || fresh(builder.insertBlock)
    ensures forall i :: |old(fn.all)| <= i < |fn.all| ==> fresh(fn.all[i])
    ensures Trace(line') == old(Trace(line)) + [CallSite(PointeeDestructor, Some(slot))]
  {
    hide Function.Valid, Function.IdsUnique, Function.SlotsMade, Function.GetBlock, NullCheckCode, DestroyOneCode,
         CallsIn, Trace, Distinct;
    ghost var r, bb, instrs := builder.nextResult, builder.insertBlock, builder.insertBlock.instrs;
    var trueBlock, rest := DestroyPointee(fn, builder, slot);
    QuietNullCheck(instrs, r, slot, trueBlock.bb, rest.bb);
    DestroyOneCalls(r + 2, slot, rest.bb);
    SameCalls(line);
    line' := line + [trueBlock.bb, rest.bb];
    TraceOfTwo(line, trueBlock.bb, rest.bb);
    DistinctMore(line, [trueBlock.bb, rest.bb]);
    assert fn.all[|old(fn.all)|..] == [trueBlock, rest];
    assert BodiesOf([trueBlock, rest]) == [trueBlock.bb, rest.bb];
  }

  lemma TraceOfTwo(line: seq<BB>, a: BB, b: BB)
    requires b.instrs == []
    ensures Trace(line + [a, b]) == Trace(line) + CallsIn(a.instrs)
  {
    TraceMore(line, a);
    TraceMore(line + [a], b);
    assert line + [a, b] == line + [a] + [b];
  }

  lemma DistinctMore(line: seq<BB>, more: seq<BB>)
    requires Distinct(line) && Distinct(more)
    requires forall b :: b in more ==> b !in line
    ensures Distinct(line + more)
  {
    forall i, j | 0 <= i < j < |line + more|
      ensures (line + more)[i] != (line + more)[j]
    {
      if i < |line| <= j {
        assert more[j - |line|] in more && line[i] in line;
      }
    }
  }

  method DestroyManyOnLine(fn: Function, builder: IRBuilder, slot: nat, countName: string, ghost line: seq<BB>)
    returns (ghost line': seq<BB>)
    requires Emitting(fn, builder, line)
    modifies fn, fn.all, builder, fn.EntryBlock()`instrs, builder.insertBlock`instrs
    ensures Emitting(fn, builder, line')
    ensures old(fn.SlotsMade()) ==> fn.SlotsMade()
    ensures |old(fn.all)| <= |fn.all| && fn.all[..|old(fn.all)|] == old(fn.all)
    ensures line' == line + BodiesOf(fn.all[|old(fn.all)|..])
    ensures forall bb :: bb in line' ==> bb in line || fresh(bb)
    ensures builder.insertBlock == old(builder.insertBlock) || fresh(builder.insertBlock)
    ensures forall i :: |old(fn.all)| <= i < |fn.all| ==> fresh(fn.all[i])
    ensures Trace(line') == old(Trace(line)) + [CallSite(PointeeDestructor, Some(slot))]
    ensures CallsIn(old(fn.EntryBlock()).instrs) == old(CallsIn(fn.EntryBlock().instrs))
  {
    hide Function.Valid, Function.IdsUnique, Function.SlotsMade, Function.GetBlock, StartLoopCode, CountCheckCode,
         DestroyNextCode, EndsIn, CallsIn, Trace;
    ghost var r, count := builder.nextResult, fn.nextId;
    var condBlock, trueBlock, rest := DestroyPointees(fn, builder, slot, countName);
    QuietCountCheck(r + 2, slot, count, trueBlock.bb, rest.bb);
    DestroyNextCalls(r + 5, slot, count, condBlock.bb);
    SameCalls(line);
    line' := line + [condBlock.bb, trueBlock.bb, rest.bb];
    TraceOfThree(line, condBlock.bb, trueBlock.bb, rest.bb);
    assert Distinct([condBlock.bb, trueBlock.bb, rest.bb]);
    DistinctMore(line, [condBlock.bb, trueBlock.bb, rest.bb]);
    assert fn.all[|old(fn.all)|..] == [condBlock, trueBlock, rest];
    assert BodiesOf([condBlock, trueBlock, rest]) == [condBlock.bb, trueBlock.bb, rest.bb];
  }

  lemma QuietCountCheck(r: nat, slot: nat, count: nat, next: BB, rest: BB)
    ensures CallsIn(CountCheckCode(r, slot, count, next, rest)) == []
  {
    var none: seq<Instr<BB>> := [];
    QuietCode(none, CountCheckCode(r, slot, count, next, rest));
    assert none + CountCheckCode(r, slot, count, next, rest) == CountCheckCode(r, slot, count, next, rest);
  }

  lemma TraceOfThree(line: seq<BB>, a: BB, b: BB, c: BB)
    requires CallsIn(a.instrs) == [] && c.instrs == []
    ensures Trace(line + [a, b, c]) == Trace(line) + CallsIn(b.instrs)
  {
    hide CallsIn, Trace;
    TraceMore(line, a);
    TraceOfTwo(line + [a], b, c);
    assert line + [a, b, c] == line + [a] + [b, c];
  }

  predicate Different(a: BB, b: BB, c: BB) {
    a != b && a != c && b != c
  }

  /** Destroys one local, if it is to be destroyed. */
  method DestroyLocal(fn: Function, builder: IRBuilder, loc: LocalValue, countName: string, ghost line: seq<BB>)
    returns (ghost line': seq<BB>)
    requires Emitting(fn, builder, line)
    modifies fn, fn.all, builder, fn.EntryBlock()`instrs, builder.insertBlock`instrs
    ensures Emitting(fn, builder, line')
    ensures old(fn.SlotsMade()) ==> fn.SlotsMade()
    ensures |old(fn.all)| <= |fn.all| && fn.all[..|old(fn.all)|] == old(fn.all)
    ensures line' == line + BodiesOf(fn.all[|old(fn.all)|..])
    ensures forall bb :: bb in line' ==> bb in line || fresh(bb)
    ensures builder.insertBlock == old(builder.insertBlock) || fresh(builder.insertBlock)
    ensures forall i :: |old(fn.all)| <= i < |fn.all| ==> fresh(fn.all[i])
    ensures Trace(line') == old(Trace(line)) + Destruction(loc, fn.id)
    ensures old(fn.EntryBlock()) !in line ==>
      CallsIn(old(fn.EntryBlock()).instrs) == old(CallsIn(fn.EntryBlock().instrs))
  {
    hide Function.Valid, Function.IdsUnique, Function.SlotsMade, Function.GetBlock, CallsIn, Trace, Distinct;
    line' := line;
    var ty := loc.ty;
    if ty.isRef {
    } else if ty.hasDestructor {
      CallOnLocal(builder, Callee.Destructor, loc.localId, line);
      if old(fn.SlotsMade()) {
        fn.StillSlotsMade();
      }
    } else if ty.isDestructible {
      CallOnLocal(builder, DestroyValue, loc.localId, line);
      if old(fn.SlotsMade()) {
        fn.StillSlotsMade();
      }
    } else if ty.pointer.Some? && ty.pointer.value.ownerFunction == Some(fn.id) {
      line' := DestroyOwned(fn, builder, loc.localId, ty.pointer.value, countName, line);
    }
  }

  /** Destroys what an owned pointer points to, and frees the memory. */
  method DestroyOwned(fn: Function, builder: IRBuilder, slot: nat, ty: PointerType, countName: string,
                      ghost line: seq<BB>)
    returns (ghost line': seq<BB>)
    requires Emitting(fn, builder, line)
    modifies fn, fn.all, builder, fn.EntryBlock()`instrs, builder.insertBlock`instrs
    ensures Emitting(fn, builder, line')
    ensures old(fn.SlotsMade()) ==> fn.SlotsMade()
    ensures |old(fn.all)| <= |fn.all| && fn.all[..|old(fn.all)|] == old(fn.all)
    ensures line' == line + BodiesOf(fn.all[|old(fn.all)|..])
    ensures forall bb :: bb in line' ==> bb in line || fresh(bb)
    ensures builder.insertBlock == old(builder.insertBlock) || fresh(builder.insertBlock)
    ensures forall i :: |old(fn.all)| <= i < |fn.all| ==> fresh(fn.all[i])
    ensures Trace(line') == old(Trace(line)) +
      (if ty.pointeeHasDestructor then [CallSite(PointeeDestructor, Some(slot))] else []) + [CallSite(Free, Some(slot))]
    ensures old(fn.EntryBlock()) !in line ==>
      CallsIn(old(fn.EntryBlock()).instrs) == old(CallsIn(fn.EntryBlock().instrs))
  {
    hide Function.Valid, Function.IdsUnique, Function.SlotsMade, Function.GetBlock, CallsIn, Trace, Distinct;
    line' := line;
    if ty.pointeeHasDestructor {
      line' := DestroyPointed(fn, builder, slot, ty.isMulti, countName, line);
    }
    label destroyed:
    FreePointer(builder, slot, line');
    if old(fn.SlotsMade()) {
      fn.StillSlotsMade@destroyed();
    }
  }

  /** Destroys locals, one after the other. */
  method DestroyAll(fn: Function, builder: IRBuilder, locals: seq<LocalValue>, countName: string)
    requires fn.Valid() && fn.IdsUnique() && fn.all != [] && builder.insertBlock == fn.GetBlock().bb
    modifies fn, fn.all, builder, fn.EntryBlock()`instrs, builder.insertBlock`instrs
    ensures fn.Valid() && fn.IdsUnique() && fn.all != [] && builder.insertBlock == fn.GetBlock().bb
    ensures old(fn.SlotsMade()) ==> fn.SlotsMade()
    ensures |old(fn.all)| <= |fn.all| && fn.all[..|old(fn.all)|] == old(fn.all)
    ensures Trace([old(builder.insertBlock)] + BodiesOf(fn.all[|old(fn.all)|..])) ==
      old(CallsIn(builder.insertBlock.instrs)) + DestructionOfAll(locals, fn.id)
    ensures old(fn.EntryBlock()) != old(builder.insertBlock) ==>
      CallsIn(old(fn.EntryBlock()).instrs) == old(CallsIn(fn.EntryBlock().instrs))
  {
    hide Function.Valid, Function.IdsUnique, Function.SlotsMade, Function.GetBlock, CallsIn, Trace, Distinct,
         Destruction, DestructionOfAll, BodiesOf;
    ghost var start, entry, before := builder.insertBlock, fn.EntryBlock(), CallsIn(builder.insertBlock.instrs);
    ghost var entryCalls := CallsIn(entry.instrs);
    ghost var line := [start];
    StartOfLine(start);
    assert fn.all[|fn.all|..] == [];
    NothingAdded();
    NothingToDestroy(locals, fn.id);
    for i := 0 to |locals|
      invariant Emitting(fn, builder, line) && fn.EntryBlock() == entry
      invariant old(fn.SlotsMade()) ==> fn.SlotsMade()
      invariant |old(fn.all)| <= |fn.all| && fn.all[..|old(fn.all)|] == old(fn.all)
      invariant forall k :: |old(fn.all)| <= k < |fn.all| ==> fresh(fn.all[k])
      invariant forall bb :: bb in line ==> bb == start || fresh(bb)
      invariant builder.insertBlock == start || fresh(builder.insertBlock)
      invariant line == [start] + BodiesOf(fn.all[|old(fn.all)|..])
      invariant Trace(line) == before + DestructionOfAll(locals[..i], fn.id)
      invariant entry != start ==> CallsIn(entry.instrs) == entryCalls
    {
      assert forall k :: 0 <= k < |fn.all| ==> (k < |old(fn.all)| && fn.all[k] == old(fn.all)[k]) || fresh(fn.all[k]);
      ghost var all := fn.all;
      line := DestroyLocal(fn, builder, locals[i], countName, line);
      LongerLine(old(fn.all), all, fn.all);
      OneMore(locals, i, fn.id);
    }
    assert locals[..|locals|] == locals;
  }

  /**
   Destroys the locals in scope in the active block. The calls that this adds, over the block that
   was active and the blocks that were added since, are those that destroy each collected local, in
   the order of collection; no other block gets a call.
   */
  method DestructorCaller(fn: Function, builder: IRBuilder, countName: string)
    requires fn.Valid() && fn.IdsUnique() && fn.all != [] && builder.insertBlock == fn.GetBlock().bb
    modifies fn, fn.all, builder, fn.EntryBlock()`instrs, builder.insertBlock`instrs
    ensures fn.Valid() && fn.IdsUnique() && fn.all != [] && builder.insertBlock == fn.GetBlock().bb
    ensures old(fn.SlotsMade()) ==> fn.SlotsMade()
    ensures |old(fn.all)| <= |fn.all| && fn.all[..|old(fn.all)|] == old(fn.all)
    ensures Trace([old(builder.insertBlock)] + BodiesOf(fn.all[|old(fn.all)|..])) ==
      old(CallsIn(builder.insertBlock.instrs)) + DestructionOfAll(old(fn.GetBlock().Collected([])), fn.id)
    ensures forall bb | bb in BodiesOf(old(fn.all)) && bb != old(builder.insertBlock) ::
      CallsIn(bb.instrs) == old(CallsIn(bb.instrs))
  {
    hide Function.Valid, Function.IdsUnique, Function.SlotsMade, Function.GetBlock, CallsIn, Trace, DestructionOfAll,
         Block.Collected;
    var curr := fn.GetBlock();
    var locals := curr.CollectAllLocalValuesSoFar([]);
    DestroyAll(fn, builder, locals, countName);
  }

  /** Destruction goes through locals in their order. */
  lemma {:induction false} DestructionInOrder(a: seq<LocalValue>, v: LocalValue, b: seq<LocalValue>, owner: nat)
    ensures DestructionOfAll(a + [v] + b, owner) ==
      DestructionOfAll(a, owner) + Destruction(v, owner) + DestructionOfAll(b, owner)
    decreases |b|
  {
    hide Destruction;
    if b == [] {
      assert (a + [v] + b)[..|a|] == a;
    } else {
      var n := |b| - 1;
      assert (a + [v] + b)[..|a| + 1 + n] == a + [v] + b[..n];
      DestructionInOrder(a, v, b[..n], owner);
    }
  }

  lemma NothingToDestroy(values: seq<LocalValue>, owner: nat)
    ensures DestructionOfAll(values[..0], owner) == []
  {
  }

  lemma NothingAdded()
    ensures BodiesOf([]) == []
  {
  }

  lemma OneMore(values: seq<LocalValue>, i: nat, owner: nat)
    requires i < |values|
    ensures DestructionOfAll(values[..i + 1], owner) ==
      DestructionOfAll(values[..i], owner) + Destruction(values[i], owner)
  {
    assert values[..i + 1][..i] == values[..i];
  }

  lemma StartOfLine(bb: BB)
    ensures Distinct([bb]) && Trace([bb]) == CallsIn(bb.instrs)
  {
    assert [bb][..0] == [];
  }

  lemma LongerLine(a: seq<Block>, b: seq<Block>, c: seq<Block>)
    requires |a| <= |b| <= |c| && b[..|a|] == a && c[..|b|] == b
    ensures c[..|a|] == a && BodiesOf(b[|a|..]) + BodiesOf(c[|b|..]) == BodiesOf(c[|a|..])
  {
    assert c[|a|..] == b[|a|..] + c[|b|..];
  }

  // ---------------------------------------------------------------------------
  // Exactly once

  /** How often something is called on a local. */
  function Count(calls: seq<CallSite>, callee: Callee, id: nat): nat {
    if calls == [] then 0
    else
      Count(calls[..|calls| - 1], callee, id)
      + if calls[|calls| - 1] == CallSite(callee, Some(id)) then 1 else 0
  }

  lemma {:induction false} CountBoth(a: seq<CallSite>, b: seq<CallSite>, callee: Callee, id: nat)
    ensures Count(a + b, callee, id) == Count(a, callee, id) + Count(b, callee, id)
    decreases |b|
  {
    if b == [] {
      assert a + b == a;
    } else {
      assert (a + b)[..|a + b| - 1] == a + b[..|b| - 1];
      CountBoth(a, b[..|b| - 1], callee, id);
    }
  }

  /** What the destruction of one local calls, and how often. */
  lemma DestructionCounts(v: LocalValue, owner: nat, callee: Callee, id: nat)
    ensures id != v.localId ==> Count(Destruction(v, owner), callee, id) == 0
    ensures Count(Destruction(v, owner), Callee.Destructor, v.localId) ==
      if !v.ty.isRef && v.ty.hasDestructor then 1 else 0
    ensures Count(Destruction(v, owner), DestroyValue, v.localId) ==
      if !v.ty.isRef && !v.ty.hasDestructor && v.ty.isDestructible then 1 else 0
    ensures Count(Destruction(v, owner), Free, v.localId) == if IsFreed(v, owner) then 1 else 0
    ensures Count(Destruction(v, owner), PointeeDestructor, v.localId) ==
      if IsFreed(v, owner) && v.ty.pointer.value.pointeeHasDestructor then 1 else 0
  {
    CountOne(Callee.Destructor, v.localId);
    CountOne(DestroyValue, v.localId);
    CountOne(Free, v.localId);
    CountPair(v.localId);
  }

  lemma CountOne(callee: Callee, id: nat)
    ensures forall c, i :: Count([CallSite(callee, Some(id))], c, i) == if c == callee && i == id then 1 else 0
  {
    assert [CallSite(callee, Some(id))][..0] == [];
  }

  lemma CountPair(id: nat)
    ensures forall c, i ::
              Count([CallSite(PointeeDestructor, Some(id))] + [CallSite(Free, Some(id))], c, i) ==
              (if (c == PointeeDestructor || c == Free) && i == id then 1 else 0)
  {
    forall c, i
      ensures Count([CallSite(PointeeDestructor, Some(id))] + [CallSite(Free, Some(id))], c, i) ==
        if (c == PointeeDestructor || c == Free) && i == id then 1 else 0
    {
      CountBoth([CallSite(PointeeDestructor, Some(id))], [CallSite(Free, Some(id))], c, i);
      CountOne(PointeeDestructor, id);
      CountOne(Free, id);
    }
  }

  /** A local that only holds a pointer to memory that the function owns. */
  predicate IsFreed(v: LocalValue, owner: nat) {
    && !v.ty.isRef && !v.ty.hasDestructor && !v.ty.isDestructible
    && v.ty.pointer.Some? && v.ty.pointer.value.ownerFunction == Some(owner)
  }

  lemma {:induction false} OthersAreNotCalled(values: seq<LocalValue>, owner: nat, callee: Callee, id: nat)
    requires forall v :: v in values ==> v.localId != id
    ensures Count(DestructionOfAll(values, owner), callee, id) == 0
  {
    if values != [] {
      var n := |values| - 1;
      OthersAreNotCalled(values[..n], owner, callee, id);
      CountBoth(DestructionOfAll(values[..n], owner), Destruction(values[n], owner), callee, id);
      DestructionCounts(values[n], owner, callee, id);
    }
  }

  lemma {:induction false} CalledThroughOwnDestruction(values: seq<LocalValue>, k: nat, owner: nat, callee: Callee)
    requires DistinctIds(values) && k < |values|
    ensures Count(DestructionOfAll(values, owner), callee, values[k].localId)
            == Count(Destruction(values[k], owner), callee, values[k].localId)
  {
    hide Destruction, Count;
    var n := |values| - 1;
    CountBoth(DestructionOfAll(values[..n], owner), Destruction(values[n], owner), callee, values[k].localId);
    if k == n {
      OthersAreNotCalled(values[..n], owner, callee, values[k].localId);
    } else {
      CalledThroughOwnDestruction(values[..n], k, owner, callee);
      DestructionCounts(values[n], owner, callee, values[k].localId);
    }
  }

  /**
   Destruction at a block destroys each local in scope exactly once, through its destructor or at
   the level of its type, frees each remaining local that is a pointer the function owns exactly
   once, and does nothing with any other local.
   */
  lemma DestroyedExactlyOnce(fn: Function, b: Block, v: LocalValue)
    requires fn.Valid() && fn.IdsUnique() && fn.Owns(b) && InScope(fn, b, v)
    ensures var calls := DestructionOfAll(b.Collected([]), fn.id);
      && Count(calls, Callee.Destructor, v.localId) == (if !v.ty.isRef && v.ty.hasDestructor then 1 else 0)
      && Count(calls, DestroyValue, v.localId) ==
           (if !v.ty.isRef && !v.ty.hasDestructor && v.ty.isDestructible then 1 else 0)
      && Count(calls, Free, v.localId) == (if IsFreed(v, fn.id) then 1 else 0)
      && Count(calls, PointeeDestructor, v.localId) ==
           (if IsFreed(v, fn.id) && v.ty.pointer.value.pointeeHasDestructor then 1 else 0)
  {
    CollectedIsScope(fn, b, []);
    var values := b.Collected([]);
    var k :| 0 <= k < |values| && values[k] == v;
    CalledThroughOwnDestruction(values, k, fn.id, Callee.Destructor);
    CalledThroughOwnDestruction(values, k, fn.id, DestroyValue);
    CalledThroughOwnDestruction(values, k, fn.id, Free);
    CalledThroughOwnDestruction(values, k, fn.id, PointeeDestructor);
    DestructionCounts(v, fn.id, Free, v.localId);
  }

  /** Nothing is called on a local that is not in scope. */
  lemma OutOfScopeIsLeftAlone(fn: Function, b: Block, callee: Callee, id: nat)
    requires fn.Valid() && fn.IdsUnique() && fn.Owns(b)
    requires forall v :: InScope(fn, b, v) ==> v.localId != id
    ensures Count(DestructionOfAll(b.Collected([]), fn.id), callee, id) == 0
  {
    CollectedIsScope(fn, b, []);
    OthersAreNotCalled(b.Collected([]), fn.id, callee, id);
  }
}
