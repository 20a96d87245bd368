/** The emission of a text comparison into the function that is being built. */
module CompareText {
  import opened Wrappers
  import opened Ir
  import opened BlockTree
  import opened AllocaPrefixes
  import opened TextComparison

  function Decimal(n: nat): string {
    if n < 10 then ["0123456789"[n]] else Decimal(n / 10) + ["0123456789"[n % 10]]
  }

  function RandomAllocaName(n: nat): string {
    Decimal(n) + "_new"
  }

  /** A block in which allocas for several slots have been placed, one after the other. */
  function PlaceAll<B>(instrs: seq<Instr<B>>, slots: seq<nat>): seq<Instr<B>> {
    if slots == [] then instrs
    else WithAlloca(PlaceAll(instrs, slots[..|slots| - 1]), slots[|slots| - 1])
  }

  lemma PlaceOne<B>(instrs: seq<Instr<B>>, slot: nat)
    ensures PlaceAll(instrs, []) == instrs && PlaceAll(instrs, [slot]) == WithAlloca(instrs, slot)
  {
    assert [slot][..0] == [];
  }

  /** Allocas are placed before code that does not start with one. */
  lemma {:induction false} PlacedBefore<B>(instrs: seq<Instr<B>>, code: seq<Instr<B>>, slot: nat)
    requires code == [] || !code[0].Alloca?
    ensures WithAlloca(instrs + code, slot) == WithAlloca(instrs, slot) + code
  {
    hide AllocaPrefix;
    PrefixOfAppend(instrs, code);
    var n := AllocaPrefix(instrs);
    assert (instrs + code)[..n] == instrs[..n];
    assert (instrs + code)[n..] == instrs[n..] + code;
  }

  lemma {:induction false} PrefixOfAppend<B>(instrs: seq<Instr<B>>, code: seq<Instr<B>>)
    requires code == [] || !code[0].Alloca?
    ensures AllocaPrefix(instrs + code) == AllocaPrefix(instrs)
  {
    if instrs == [] {
      assert instrs + code == code;
    } else {
      assert (instrs + code)[1..] == instrs[1..] + code;
      PrefixOfAppend(instrs[1..], code);
    }
  }

  /** The new slot of a text that has to be put into memory first. */
  function NewSlots(v: TextValue, slot: nat): seq<nat> {
    if v.Computed? then [slot] else []
  }

  /** What becomes of the instructions of a block when allocas are placed in the entry block. */
  ghost function Shifted(entry: BB, bb: BB, instrs: seq<Instr<BB>>, slots: seq<nat>): seq<Instr<BB>> {
    if bb == entry then PlaceAll(instrs, slots) else instrs
  }

  /** Loads the buffer and the count of a text in memory. */
  method EmitFields(builder: IRBuilder, address: Operand) returns (buff: Operand, count: Operand)
    modifies builder.insertBlock`instrs, builder`nextResult
    ensures builder.nextResult == old(builder.nextResult) + 2
    ensures buff == Result(old(builder.nextResult)) && count == Result(old(builder.nextResult) + 1)
    ensures builder.insertBlock.instrs == old(builder.insertBlock.instrs) +
      [LoadTextBuffer(old(builder.nextResult), address), LoadTextCount(old(builder.nextResult) + 1, address)]
  {
    buff := builder.CreateLoadTextBuffer(address);
    count := builder.CreateLoadTextCount(address);
  }

  /** Makes a local for a text that is not in memory and stores the text there. */
  method MakeLocal(fn: Function, builder: IRBuilder, curr: Block, value: Operand) returns (slot: nat)
    requires fn.Valid() && fn.IdsUnique() && fn.Owns(curr) && builder.insertBlock == curr.bb
    modifies fn`nextId, curr`values, fn.EntryBlock()`instrs, curr.bb`instrs
    ensures fn.Valid() && fn.IdsUnique()
    ensures old(fn.SlotsMade()) ==> fn.SlotsMade()
    ensures slot == old(fn.nextId) && fn.nextId == old(fn.nextId) + 1
    ensures curr.bb.instrs ==
      Shifted(fn.EntryBlock(), curr.bb, old(curr.bb.instrs), [slot]) + [Store(value, Slot(slot))]
    ensures curr.bb != fn.EntryBlock() ==>
      fn.EntryBlock().instrs == PlaceAll(old(fn.EntryBlock().instrs), [slot])
  {
    hide Function.Valid, Function.IdsUnique, Function.SlotsMade;
    PlaceOne(curr.bb.instrs, fn.nextId);
    PlaceOne(fn.EntryBlock().instrs, fn.nextId);
    var local := curr.NewLocal(RandomAllocaName(fn.nextId), LocalType(false, false, false, None));
    slot := local.localId;
    label made:
    builder.Insert(Store(value, Slot(slot)));
    if old(fn.SlotsMade()) {
      fn.StillSlotsMade@made();
    }
  }

  /** Puts a text into memory and fetches its buffer and its count from there. */
  method EmitComputed(fn: Function, builder: IRBuilder, curr: Block, value: Operand)
    returns (buff: Operand, count: Operand)
    requires fn.Valid() && fn.IdsUnique() && fn.Owns(curr) && builder.insertBlock == curr.bb
    modifies fn`nextId, curr`values, fn.EntryBlock()`instrs, curr.bb`instrs, builder`nextResult
    ensures fn.Valid() && fn.IdsUnique()
    ensures old(fn.SlotsMade()) ==> fn.SlotsMade()
    ensures fn.nextId == old(fn.nextId) + 1 && builder.nextResult == old(builder.nextResult) + 2
    ensures buff == Result(old(builder.nextResult)) && count == Result(old(builder.nextResult) + 1)
    ensures curr.bb.instrs ==
      Shifted(fn.EntryBlock(), curr.bb, old(curr.bb.instrs), [old(fn.nextId)])
      + TextCode(Computed(value), old(fn.nextId), old(builder.nextResult))
    ensures curr.bb != fn.EntryBlock() ==>
      fn.EntryBlock().instrs == PlaceAll(old(fn.EntryBlock().instrs), [old(fn.nextId)])
  {
    hide Function.Valid, Function.IdsUnique, Function.SlotsMade, PlaceAll, Shifted;
    var slot := MakeLocal(fn, builder, curr, value);
    label made:
    buff, count := EmitFields(builder, Slot(slot));
    if old(fn.SlotsMade()) {
      fn.StillSlotsMade@made();
    }
  }

  /** Fetches the buffer and the count of a text in the active block. */
  method EmitText(fn: Function, builder: IRBuilder, curr: Block, v: TextValue)
    returns (buff: Operand, count: Operand)
    requires fn.Valid() && fn.IdsUnique() && fn.Owns(curr) && builder.insertBlock == curr.bb
    modifies fn`nextId, curr`values, fn.EntryBlock()`instrs, curr.bb`instrs, builder`nextResult
    ensures fn.Valid() && fn.IdsUnique()
    ensures old(fn.SlotsMade()) ==> fn.SlotsMade()
    ensures fn.nextId == old(fn.nextId) + SlotsUsed(v)
    ensures builder.nextResult == old(builder.nextResult) + ResultsUsed(v)
    ensures buff == BufferOf(v, old(builder.nextResult)) && count == CountOf(v, old(builder.nextResult))
    ensures curr.bb.instrs ==
      Shifted(fn.EntryBlock(), curr.bb, old(curr.bb.instrs), NewSlots(v, old(fn.nextId)))
      + TextCode(v, old(fn.nextId), old(builder.nextResult))
    ensures curr.bb != fn.EntryBlock() ==>
      fn.EntryBlock().instrs == PlaceAll(old(fn.EntryBlock().instrs), NewSlots(v, old(fn.nextId)))
  {
    hide Function.Valid, Function.IdsUnique, Function.SlotsMade;
    match v
    case ConstText(bytes) =>
      buff, count := ConstBuffer(bytes), ConstInt(|bytes|);
    case InMemory(address) =>
      buff, count := EmitFields(builder, address);
      if old(fn.SlotsMade()) {
        fn.StillSlotsMade();
      }
    case RefInMemory(address) =>
      var loaded := builder.CreateLoad(address);
      buff, count := EmitFields(builder, loaded);
      if old(fn.SlotsMade()) {
        fn.StillSlotsMade();
      }
    case Computed(value) =>
      buff, count := EmitComputed(fn, builder, curr, value);
  }

  // ---------------------------------------------------------------------------
  // The blocks

  /** The blocks of a comparison as they stand in the block tree. */
  datatype TreeBlocks = TreeBlocks(
    lenCheckTrue: Block, strCmpTrue: Block, strCmpFalse: Block, iterCond: Block, iterTrue: Block,
    iterIncr: Block, iterFalse: Block, rest: Block)

  function Bodies(curr: Block, t: TreeBlocks): Blocks<BB> {
    Blocks(curr.bb, t.lenCheckTrue.bb, t.strCmpTrue.bb, t.strCmpFalse.bb, t.iterCond.bb, t.iterTrue.bb,
           t.iterIncr.bb, t.iterFalse.bb, t.rest.bb)
  }

  function Listed(t: TreeBlocks): seq<Block> {
    [t.lenCheckTrue, t.strCmpTrue, t.strCmpFalse, t.iterCond, t.iterTrue, t.iterIncr, t.iterFalse, t.rest]
  }

  /** The blocks of a comparison sit in the tree where scoping expects them. */
  ghost predicate Placed(curr: Block, t: TreeBlocks)
    reads curr, t.lenCheckTrue, t.strCmpTrue, t.strCmpFalse, t.iterCond, t.iterTrue, t.iterIncr,
          t.iterFalse, t.rest
  {
    && t.lenCheckTrue.parent == t.strCmpTrue.parent == t.strCmpFalse.parent == curr
    && t.iterCond.parent == t.iterTrue.parent == t.iterFalse.parent == t.lenCheckTrue
    && t.iterIncr.parent == t.iterTrue
    && t.rest.parent == curr.parent && t.rest.prevBlock == curr && curr.nextBlock == t.rest
  }

  /** The blocks of a comparison belong to the function and are still empty. */
  ghost predicate EmptyBlocks(fn: Function, t: TreeBlocks)
    reads fn, t.lenCheckTrue.bb, t.strCmpTrue.bb, t.strCmpFalse.bb, t.iterCond.bb, t.iterTrue.bb,
          t.iterIncr.bb, t.iterFalse.bb, t.rest.bb
  {
    && fn.Owns(t.lenCheckTrue) && fn.Owns(t.strCmpTrue) && fn.Owns(t.strCmpFalse) && fn.Owns(t.iterCond)
    && fn.Owns(t.iterTrue) && fn.Owns(t.iterIncr) && fn.Owns(t.iterFalse) && fn.Owns(t.rest)
    && t.lenCheckTrue.bb.instrs == t.strCmpTrue.bb.instrs == t.strCmpFalse.bb.instrs == []
    && t.iterCond.bb.instrs == t.iterTrue.bb.instrs == t.iterIncr.bb.instrs == []
    && t.iterFalse.bb.instrs == t.rest.bb.instrs == []
  }

  function NewBlocks(t: TreeBlocks): set<Block> {
    {t.lenCheckTrue, t.strCmpTrue, t.strCmpFalse, t.iterCond, t.iterTrue, t.iterIncr, t.iterFalse, t.rest}
  }

  function NewBodies(t: TreeBlocks): set<BB> {
    {t.lenCheckTrue.bb, t.strCmpTrue.bb, t.strCmpFalse.bb, t.iterCond.bb, t.iterTrue.bb, t.iterIncr.bb,
     t.iterFalse.bb, t.rest.bb}
  }

  /** The basic blocks of nine different blocks of a function are different. */
  lemma BodiesAreSeparate(fn: Function, curr: Block, t: TreeBlocks, n: nat)
    requires fn.Valid() && fn.Owns(curr) && curr.rank < n
    requires |fn.all| == n + 8 && fn.all[n..] == Listed(t)
    ensures Separate(Bodies(curr, t))
  {
    var ranks := [curr.rank, n, n + 1, n + 2, n + 3, n + 4, n + 5, n + 6, n + 7];
    assert forall k :: 0 <= k < 8 ==> fn.all[n + k] == fn.all[n..][k];
    assert forall k :: 0 <= k < 9 ==> BlockList(Bodies(curr, t))[k] == fn.all[ranks[k]].bb;
  }

  /** The blocks for the outcome of the length check and for the two results. */
  method CreateUpper(fn: Function, curr: Block)
    returns (lenCheckTrue: Block, strCmpTrue: Block, strCmpFalse: Block)
    requires fn.Valid() && fn.IdsUnique() && fn.Owns(curr)
    modifies fn`blocks, fn`all, curr`children
    ensures fn.Valid() && fn.IdsUnique()
    ensures old(fn.SlotsMade()) ==> fn.SlotsMade()
    ensures fn.all == old(fn.all) + [lenCheckTrue, strCmpTrue, strCmpFalse]
    ensures fn.Owns(curr) && fn.Owns(lenCheckTrue) && fn.Owns(strCmpTrue) && fn.Owns(strCmpFalse)
    ensures lenCheckTrue.parent == strCmpTrue.parent == strCmpFalse.parent == curr
    ensures fresh({lenCheckTrue, strCmpTrue, strCmpFalse})
    ensures fresh({lenCheckTrue.bb, strCmpTrue.bb, strCmpFalse.bb})
    ensures lenCheckTrue.bb.instrs == strCmpTrue.bb.instrs == strCmpFalse.bb.instrs == []
  {
    hide Function.Valid, Function.IdsUnique, Function.SlotsMade;
    lenCheckTrue := new Block(fn, curr);
    strCmpTrue := new Block(fn, curr);
    strCmpFalse := new Block(fn, curr);
  }

  /** The blocks of the loop over the bytes. */
  method CreateLoop(fn: Function, lenCheckTrue: Block)
    returns (iterCond: Block, iterTrue: Block, iterIncr: Block, iterFalse: Block)
    requires fn.Valid() && fn.IdsUnique() && fn.Owns(lenCheckTrue)
    modifies fn`blocks, fn`all, lenCheckTrue`children
    ensures fn.Valid() && fn.IdsUnique()
    ensures old(fn.SlotsMade()) ==> fn.SlotsMade()
    ensures fn.all == old(fn.all) + [iterCond, iterTrue, iterIncr, iterFalse]
    ensures fn.Owns(iterCond) && fn.Owns(iterTrue) && fn.Owns(iterIncr) && fn.Owns(iterFalse)
    ensures iterCond.parent == iterTrue.parent == iterFalse.parent == lenCheckTrue
    ensures iterIncr.parent == iterTrue
    ensures fresh({iterCond, iterTrue, iterIncr, iterFalse})
    ensures fresh({iterCond.bb, iterTrue.bb, iterIncr.bb, iterFalse.bb})
    ensures iterCond.bb.instrs == iterTrue.bb.instrs == iterIncr.bb.instrs == iterFalse.bb.instrs == []
  {
    hide Function.Valid, Function.IdsUnique, Function.SlotsMade;
    iterCond := new Block(fn, lenCheckTrue);
    iterTrue := new Block(fn, lenCheckTrue);
    iterIncr := new Block(fn, iterTrue);
    iterFalse := new Block(fn, lenCheckTrue);
  }

  /** The block in which control resumes. */
  method CreateRest(fn: Function, curr: Block) returns (rest: Block)
    requires fn.Valid() && fn.IdsUnique() && fn.Owns(curr)
    modifies fn`blocks, fn`all, curr`nextBlock, (if curr.parent == null then {} else {curr.parent})`children
    ensures fn.Valid() && fn.IdsUnique()
    ensures old(fn.SlotsMade()) ==> fn.SlotsMade()
    ensures fn.all == old(fn.all) + [rest] && fn.Owns(rest) && fn.Owns(curr)
    ensures rest.parent == curr.parent && rest.prevBlock == curr && curr.nextBlock == rest
    ensures fresh(rest) && fresh(rest.bb) && rest.bb.instrs == []
  {
    hide Function.Valid, Function.IdsUnique, Function.SlotsMade;
    ghost var p := fn.ParentOf(curr);
    rest := new Block(fn, curr.parent);
    rest.LinkPreviousBlock(curr);
  }

  /** The blocks below the active one. */
  method CreateInner(fn: Function, curr: Block)
    returns (lenCheckTrue: Block, strCmpTrue: Block, strCmpFalse: Block, iterCond: Block, iterTrue: Block,
             iterIncr: Block, iterFalse: Block)
    requires fn.Valid() && fn.IdsUnique() && fn.Owns(curr)
    modifies fn`blocks, fn`all, curr`children
    ensures fn.Valid() && fn.IdsUnique() && fn.Owns(curr)
    ensures old(fn.SlotsMade()) ==> fn.SlotsMade()
    ensures fn.all == old(fn.all) + [lenCheckTrue, strCmpTrue, strCmpFalse] + [iterCond, iterTrue, iterIncr, iterFalse]
    ensures fn.Owns(lenCheckTrue) && fn.Owns(strCmpTrue) && fn.Owns(strCmpFalse) && fn.Owns(iterCond)
    ensures fn.Owns(iterTrue) && fn.Owns(iterIncr) && fn.Owns(iterFalse)
    ensures lenCheckTrue.parent == strCmpTrue.parent == strCmpFalse.parent == curr
    ensures iterCond.parent == iterTrue.parent == iterFalse.parent == lenCheckTrue && iterIncr.parent == iterTrue
    ensures fresh({lenCheckTrue, strCmpTrue, strCmpFalse, iterCond, iterTrue, iterIncr, iterFalse})
    ensures fresh({lenCheckTrue.bb, strCmpTrue.bb, strCmpFalse.bb, iterCond.bb, iterTrue.bb, iterIncr.bb,
                   iterFalse.bb})
    ensures lenCheckTrue.bb.instrs == strCmpTrue.bb.instrs == strCmpFalse.bb.instrs == []
    ensures iterCond.bb.instrs == iterTrue.bb.instrs == iterIncr.bb.instrs == iterFalse.bb.instrs == []
  {
    hide Function.Valid, Function.IdsUnique, Function.SlotsMade;
    lenCheckTrue, strCmpTrue, strCmpFalse := CreateUpper(fn, curr);
    iterCond, iterTrue, iterIncr, iterFalse := CreateLoop(fn, lenCheckTrue);
  }

  method CreateBlocks(fn: Function, curr: Block) returns (t: TreeBlocks)
    requires fn.Valid() && fn.IdsUnique() && fn.Owns(curr)
    modifies fn`blocks, fn`all, curr`children, curr`nextBlock
    modifies (if curr.parent == null then {} else {curr.parent})`children
    ensures fn.Valid() && fn.IdsUnique() && fn.Owns(curr)
    ensures old(fn.SlotsMade()) ==> fn.SlotsMade()
    ensures fn.all == old(fn.all) + Listed(t)
    ensures Placed(curr, t)
    ensures EmptyBlocks(fn, t) && fresh(NewBlocks(t)) && fresh(NewBodies(t))
  {
    hide Function.Valid, Function.IdsUnique, Function.SlotsMade, Listed;
    ghost var all := fn.all;
    var lenCheckTrue, strCmpTrue, strCmpFalse, iterCond, iterTrue, iterIncr, iterFalse := CreateInner(fn, curr);
    var rest := CreateRest(fn, curr);
    t := TreeBlocks(lenCheckTrue, strCmpTrue, strCmpFalse, iterCond, iterTrue, iterIncr, iterFalse, rest);
    ListedInOrder(all, t);
  }

  lemma ListedInOrder(all: seq<Block>, t: TreeBlocks)
    ensures all + [t.lenCheckTrue, t.strCmpTrue, t.strCmpFalse] +
            [t.iterCond, t.iterTrue, t.iterIncr, t.iterFalse] + [t.rest] == all + Listed(t)
  {
  }

  // ---------------------------------------------------------------------------
  // The code of each block

  /** The length check, at the end of the block that was active. */
  method EmitStart(builder: IRBuilder, b: Blocks<BB>, c: Comparison)
    requires builder.nextResult == c.base
    modifies builder`nextResult, builder.insertBlock`instrs
    ensures builder.nextResult == c.base + 1
    ensures builder.insertBlock.instrs == old(builder.insertBlock.instrs) + StartCode(b, c)
  {
    var sameLength := builder.CreateICmpEQ(c.lhsCount, c.rhsCount);
    builder.Insert(CondBr(sameLength, b.lenCheckTrue, b.strCmpFalse));
  }

  /** The lengths match: the index starts at zero. */
  method EmitLenCheckTrue(fn: Function, builder: IRBuilder, block: Block, b: Blocks<BB>, c: Comparison)
    requires fn.Valid() && fn.IdsUnique() && fn.Owns(block) && block.bb.instrs == []
    requires builder.nextResult == c.base + 1
    modifies fn`activeBlock, fn.all`active, builder, block.bb`instrs
    ensures fn.Valid() && fn.IdsUnique() && fn.GetBlock() == block && builder.insertBlock == block.bb
    ensures builder.nextResult == c.base + 1
    ensures block.bb.instrs == LenCheckTrueCode(b, c)
  {
    hide Function.Valid, Function.IdsUnique, Function.GetBlock, Block.PathToRoot, Block.OnActivePath;
    block.SetActive(builder);
    builder.Insert(Store(ConstInt(0), Slot(c.index)));
    builder.AddBranch(b.iterCond);
  }

  /** The iteration goes on while the index is below the count. */
  method EmitIterCond(fn: Function, builder: IRBuilder, block: Block, b: Blocks<BB>, c: Comparison)
    requires fn.Valid() && fn.IdsUnique() && fn.Owns(block) && block.bb.instrs == []
    requires builder.nextResult == c.base + 1
    modifies fn`activeBlock, fn.all`active, builder, block.bb`instrs
    ensures fn.Valid() && fn.IdsUnique() && fn.GetBlock() == block && builder.insertBlock == block.bb
    ensures builder.nextResult == c.base + 3
    ensures block.bb.instrs == IterCondCode(b, c)
  {
    hide Function.Valid, Function.IdsUnique, Function.GetBlock, Block.PathToRoot, Block.OnActivePath;
    block.SetActive(builder);
    var index := builder.CreateLoad(Slot(c.index));
    var inside := builder.CreateICmpULT(index, c.lhsCount);
    builder.Insert(CondBr(inside, b.iterTrue, b.iterFalse));
  }

  /** Loads the byte of a text at the index. */
  method EmitByteAtIndex(builder: IRBuilder, buff: Operand, index: nat) returns (loaded: Operand)
    modifies builder`nextResult, builder.insertBlock`instrs
    ensures builder.nextResult == old(builder.nextResult) + 2 && loaded == Result(old(builder.nextResult) + 1)
    ensures builder.insertBlock.instrs == old(builder.insertBlock.instrs) +
      [Load(old(builder.nextResult), Slot(index)),
       LoadByte(old(builder.nextResult) + 1, buff, Result(old(builder.nextResult)))]
  {
    var i := builder.CreateLoad(Slot(index));
    loaded := builder.CreateLoadByte(buff, i);
  }

  /** The bytes at the index are compared. */
  method EmitIterTrue(fn: Function, builder: IRBuilder, block: Block, b: Blocks<BB>, c: Comparison)
    requires fn.Valid() && fn.IdsUnique() && fn.Owns(block) && block.bb.instrs == []
    requires builder.nextResult == c.base + 3
    modifies fn`activeBlock, fn.all`active, builder, block.bb`instrs
    ensures fn.Valid() && fn.IdsUnique() && fn.GetBlock() == block && builder.insertBlock == block.bb
    ensures builder.nextResult == c.base + 8
    ensures block.bb.instrs == IterTrueCode(b, c)
  {
    hide Function.Valid, Function.IdsUnique, Function.GetBlock, Block.PathToRoot, Block.OnActivePath;
    block.SetActive(builder);
    var lhsByte := EmitByteAtIndex(builder, c.lhsBuff, c.index);
    var rhsByte := EmitByteAtIndex(builder, c.rhsBuff, c.index);
    var sameByte := builder.CreateICmpEQ(lhsByte, rhsByte);
    builder.Insert(CondBr(sameByte, b.iterIncr, b.iterFalse));
  }

  /** Adds one to the index. */
  method EmitIncrement(builder: IRBuilder, index: nat)
    modifies builder`nextResult, builder.insertBlock`instrs
    ensures builder.nextResult == old(builder.nextResult) + 2
    ensures builder.insertBlock.instrs == old(builder.insertBlock.instrs) +
      [Load(old(builder.nextResult), Slot(index)),
       Add(old(builder.nextResult) + 1, Result(old(builder.nextResult)), ConstInt(1)),
       Store(Result(old(builder.nextResult) + 1), Slot(index))]
  {
    var i := builder.CreateLoad(Slot(index));
    var next := builder.CreateAdd(i, ConstInt(1));
    builder.Insert(Store(next, Slot(index)));
  }

  /** The bytes agree: the index moves on. */
  method EmitIterIncr(fn: Function, builder: IRBuilder, block: Block, b: Blocks<BB>, c: Comparison)
    requires fn.Valid() && fn.IdsUnique() && fn.Owns(block) && block.bb.instrs == []
    requires builder.nextResult == c.base + 8
    modifies fn`activeBlock, fn.all`active, builder, block.bb`instrs
    ensures fn.Valid() && fn.IdsUnique() && fn.GetBlock() == block && builder.insertBlock == block.bb
    ensures builder.nextResult == c.base + 10
    ensures block.bb.instrs == IterIncrCode(b, c)
  {
    hide Function.Valid, Function.IdsUnique, Function.GetBlock, Block.PathToRoot, Block.OnActivePath;
    block.SetActive(builder);
    EmitIncrement(builder, c.index);
    builder.AddBranch(b.iterCond);
  }

  /** The iteration is over: has it covered the whole text? */
  method EmitIterFalse(fn: Function, builder: IRBuilder, block: Block, b: Blocks<BB>, c: Comparison)
    requires fn.Valid() && fn.IdsUnique() && fn.Owns(block) && block.bb.instrs == []
    requires builder.nextResult == c.base + 10
    modifies fn`activeBlock, fn.all`active, builder, block.bb`instrs
    ensures fn.Valid() && fn.IdsUnique() && fn.GetBlock() == block && builder.insertBlock == block.bb
    ensures builder.nextResult == c.base + 12
    ensures block.bb.instrs == IterFalseCode(b, c)
  {
    hide Function.Valid, Function.IdsUnique, Function.GetBlock, Block.PathToRoot, Block.OnActivePath;
    block.SetActive(builder);
    var index := builder.CreateLoad(Slot(c.index));
    var covered := builder.CreateICmpEQ(c.lhsCount, index);
    builder.Insert(CondBr(covered, b.strCmpTrue, b.strCmpFalse));
  }

  /** Either result leads to the resuming block. */
  method EmitMerge(fn: Function, builder: IRBuilder, block: Block, b: Blocks<BB>, c: Comparison)
    requires fn.Valid() && fn.IdsUnique() && fn.Owns(block) && block.bb.instrs == []
    requires builder.nextResult == c.base + 12
    modifies fn`activeBlock, fn.all`active, builder, block.bb`instrs
    ensures fn.Valid() && fn.IdsUnique() && fn.GetBlock() == block && builder.insertBlock == block.bb
    ensures builder.nextResult == c.base + 12
    ensures block.bb.instrs == MergeCode(b)
  {
    hide Function.Valid, Function.IdsUnique, Function.GetBlock, Block.PathToRoot, Block.OnActivePath;
    block.SetActive(builder);
    builder.AddBranch(b.rest);
  }

  /** Control resumes with the result. */
  method EmitRest(fn: Function, builder: IRBuilder, block: Block, b: Blocks<BB>, c: Comparison)
    returns (result: Operand)
    requires fn.Valid() && fn.IdsUnique() && fn.Owns(block) && block.bb.instrs == []
    requires builder.nextResult == c.base + 12
    modifies fn`activeBlock, fn.all`active, builder, block.bb`instrs
    ensures fn.Valid() && fn.IdsUnique() && fn.GetBlock() == block && builder.insertBlock == block.bb
    ensures builder.nextResult == c.base + 13
    ensures result == Result(c.base + 12)
    ensures block.bb.instrs == RestCode(b, c)
  {
    hide Function.Valid, Function.IdsUnique, Function.GetBlock, Block.PathToRoot, Block.OnActivePath;
    block.SetActive(builder);
    result := builder.CreatePHI(
      [(ConstBool(c.isEquality), b.strCmpTrue), (ConstBool(!c.isEquality), b.strCmpFalse)]);
  }

  // ---------------------------------------------------------------------------
  // The graph

  lemma PairwiseDifferent(b: Blocks<BB>)
    requires Separate(b)
    ensures b.lenCheckTrue != b.start
    ensures b.strCmpTrue !in {b.start, b.lenCheckTrue}
    ensures b.strCmpFalse !in {b.start, b.lenCheckTrue, b.strCmpTrue}
    ensures b.iterCond !in {b.start, b.lenCheckTrue, b.strCmpTrue, b.strCmpFalse}
    ensures b.iterTrue !in {b.start, b.lenCheckTrue, b.strCmpTrue, b.strCmpFalse, b.iterCond}
    ensures b.iterIncr !in {b.start, b.lenCheckTrue, b.strCmpTrue, b.strCmpFalse, b.iterCond, b.iterTrue}
    ensures b.iterFalse !in {b.start, b.lenCheckTrue, b.strCmpTrue, b.strCmpFalse, b.iterCond, b.iterTrue,
                             b.iterIncr}
    ensures b.rest !in {b.start, b.lenCheckTrue, b.strCmpTrue, b.strCmpFalse, b.iterCond, b.iterTrue,
                        b.iterIncr, b.iterFalse}
  {
    var l := BlockList(b);
    assert forall j :: 0 < j < 9 ==> l[0] != l[j];
    assert forall j :: 1 < j < 9 ==> l[1] != l[j];
    assert forall j :: 2 < j < 9 ==> l[2] != l[j];
    assert forall j :: 3 < j < 9 ==> l[3] != l[j];
    assert forall j :: 4 < j < 9 ==> l[4] != l[j];
    assert forall j :: 5 < j < 9 ==> l[5] != l[j];
    assert forall j :: 6 < j < 9 ==> l[6] != l[j];
    assert l[7] != l[8];
  }

  /** The blocks created for a comparison hold its code. */
  ghost predicate HoldsCode(b: Blocks<BB>, c: Comparison)
    reads b.lenCheckTrue, b.strCmpTrue, b.strCmpFalse, b.iterCond, b.iterTrue, b.iterIncr, b.iterFalse,
          b.rest
  {
    && b.lenCheckTrue.instrs == LenCheckTrueCode(b, c)
    && b.iterCond.instrs == IterCondCode(b, c)
    && b.iterTrue.instrs == IterTrueCode(b, c)
    && b.iterIncr.instrs == IterIncrCode(b, c)
    && b.iterFalse.instrs == IterFalseCode(b, c)
    && b.strCmpTrue.instrs == MergeCode(b)
    && b.strCmpFalse.instrs == MergeCode(b)
    && b.rest.instrs == RestCode(b, c)
  }

  /** Fills the blocks before the loop, at its head and in the first half of its body. */
  method EmitIteration(fn: Function, builder: IRBuilder, curr: Block, t: TreeBlocks, b: Blocks<BB>, c: Comparison)
    requires fn.Valid() && fn.IdsUnique() && b == Bodies(curr, t) && Separate(b)
    requires fn.Owns(t.lenCheckTrue) && fn.Owns(t.iterCond) && fn.Owns(t.iterTrue)
    requires b.lenCheckTrue.instrs == b.iterCond.instrs == b.iterTrue.instrs == []
    requires builder.nextResult == c.base + 1
    modifies fn`activeBlock, fn.all`active, builder
    modifies t.lenCheckTrue.bb`instrs, t.iterCond.bb`instrs, t.iterTrue.bb`instrs
    ensures fn.Valid() && fn.IdsUnique()
    ensures builder.nextResult == c.base + 8
    ensures b.lenCheckTrue.instrs == LenCheckTrueCode(b, c)
    ensures b.iterCond.instrs == IterCondCode(b, c)
    ensures b.iterTrue.instrs == IterTrueCode(b, c)
  {
    hide Function.Valid, Function.IdsUnique, LenCheckTrueCode, IterCondCode, IterTrueCode, Separate;
    PairwiseDifferent(b);
    EmitLenCheckTrue(fn, builder, t.lenCheckTrue, b, c);
    EmitIterCond(fn, builder, t.iterCond, b, c);
    EmitIterTrue(fn, builder, t.iterTrue, b, c);
  }

  /** Fills the blocks that end an iteration and the loop. */
  method EmitIterationEnd(fn: Function, builder: IRBuilder, curr: Block, t: TreeBlocks, b: Blocks<BB>, c: Comparison)
    requires fn.Valid() && fn.IdsUnique() && b == Bodies(curr, t) && Separate(b)
    requires fn.Owns(t.iterIncr) && fn.Owns(t.iterFalse)
    requires b.iterIncr.instrs == b.iterFalse.instrs == []
    requires builder.nextResult == c.base + 8
    modifies fn`activeBlock, fn.all`active, builder
    modifies t.iterIncr.bb`instrs, t.iterFalse.bb`instrs
    ensures fn.Valid() && fn.IdsUnique()
    ensures builder.nextResult == c.base + 12
    ensures b.iterIncr.instrs == IterIncrCode(b, c)
    ensures b.iterFalse.instrs == IterFalseCode(b, c)
  {
    hide Function.Valid, Function.IdsUnique, IterIncrCode, IterFalseCode, Separate;
    PairwiseDifferent(b);
    EmitIterIncr(fn, builder, t.iterIncr, b, c);
    EmitIterFalse(fn, builder, t.iterFalse, b, c);
  }

  /** Fills the blocks where the two results merge. */
  method EmitResult(fn: Function, builder: IRBuilder, curr: Block, t: TreeBlocks, b: Blocks<BB>, c: Comparison)
    returns (result: Operand)
    requires fn.Valid() && fn.IdsUnique() && b == Bodies(curr, t) && Separate(b)
    requires fn.Owns(t.strCmpTrue) && fn.Owns(t.strCmpFalse) && fn.Owns(t.rest)
    requires b.strCmpTrue.instrs == b.strCmpFalse.instrs == b.rest.instrs == []
    requires builder.nextResult == c.base + 12
    modifies fn`activeBlock, fn.all`active, builder
    modifies t.strCmpTrue.bb`instrs, t.strCmpFalse.bb`instrs, t.rest.bb`instrs
    ensures fn.Valid() && fn.IdsUnique()
    ensures fn.GetBlock() == t.rest && builder.insertBlock == t.rest.bb
    ensures builder.nextResult == c.base + 13 && result == Result(c.base + 12)
    ensures b.strCmpTrue.instrs == MergeCode(b)
    ensures b.strCmpFalse.instrs == MergeCode(b)
    ensures b.rest.instrs == RestCode(b, c)
  {
    hide Function.Valid, Function.IdsUnique, MergeCode, RestCode, Separate;
    PairwiseDifferent(b);
    EmitMerge(fn, builder, t.strCmpTrue, b, c);
    EmitMerge(fn, builder, t.strCmpFalse, b, c);
    result := EmitRest(fn, builder, t.rest, b, c);
  }

  /** Fills the blocks created for a comparison, one after the other. */
  method EmitGraph(fn: Function, builder: IRBuilder, curr: Block, t: TreeBlocks, b: Blocks<BB>, c: Comparison)
    returns (result: Operand)
    requires fn.Valid() && fn.IdsUnique() && fn.all != []
    requires b == Bodies(curr, t) && Separate(b)
    requires EmptyBlocks(fn, t)
    requires builder.nextResult == c.base + 1
    modifies fn`activeBlock, fn.all`active, builder
    modifies t.lenCheckTrue.bb`instrs, t.strCmpTrue.bb`instrs, t.strCmpFalse.bb`instrs,
             t.iterCond.bb`instrs, t.iterTrue.bb`instrs, t.iterIncr.bb`instrs, t.iterFalse.bb`instrs,
             t.rest.bb`instrs
    ensures fn.Valid() && fn.IdsUnique()
    ensures fn.GetBlock() == t.rest && builder.insertBlock == t.rest.bb
    ensures builder.nextResult == c.base + 13 && result == Result(c.base + 12)
    ensures HoldsCode(b, c)
  {
    hide Function.Valid, Function.IdsUnique, LenCheckTrueCode, IterCondCode, IterTrueCode, IterIncrCode,
         IterFalseCode, MergeCode, RestCode, Separate;
    PairwiseDifferent(b);
    EmitIteration(fn, builder, curr, t, b, c);
    EmitIterationEnd(fn, builder, curr, t, b, c);
    result := EmitResult(fn, builder, curr, t, b, c);
  }

  // ---------------------------------------------------------------------------
  // The whole emission

  datatype CompareResult =
    | Folded(flag: bool)           // both texts are constants: nothing is emitted
    | AtRunTime(value: Operand)    // the value at the point where control resumes

  /** Fetches both texts in the active block. */
  method EmitTexts(fn: Function, builder: IRBuilder, curr: Block, lhsEmit: TextValue, rhsEmit: TextValue)
    returns (lhsBuff: Operand, lhsCount: Operand, rhsBuff: Operand, rhsCount: Operand)
    requires fn.Valid() && fn.IdsUnique() && fn.Owns(curr) && builder.insertBlock == curr.bb
    modifies fn`nextId, curr`values, fn.EntryBlock()`instrs, curr.bb`instrs, builder`nextResult
    ensures fn.Valid() && fn.IdsUnique()
    ensures old(fn.SlotsMade()) ==> fn.SlotsMade()
    ensures fn.nextId == old(fn.nextId) + SlotsUsed(lhsEmit) + SlotsUsed(rhsEmit)
    ensures builder.nextResult == old(builder.nextResult) + ResultsUsed(lhsEmit) + ResultsUsed(rhsEmit)
    ensures lhsBuff == BufferOf(lhsEmit, old(builder.nextResult))
    ensures lhsCount == CountOf(lhsEmit, old(builder.nextResult))
    ensures rhsBuff == BufferOf(rhsEmit, old(builder.nextResult) + ResultsUsed(lhsEmit))
    ensures rhsCount == CountOf(rhsEmit, old(builder.nextResult) + ResultsUsed(lhsEmit))
    ensures curr.bb.instrs ==
      Shifted(fn.EntryBlock(), curr.bb, old(curr.bb.instrs), TextSlots(lhsEmit, rhsEmit, old(fn.nextId)))
      + TextsCode(lhsEmit, rhsEmit, old(fn.nextId), old(builder.nextResult))
    ensures curr.bb != fn.EntryBlock() ==>
      fn.EntryBlock().instrs ==
        PlaceAll(old(fn.EntryBlock().instrs), TextSlots(lhsEmit, rhsEmit, old(fn.nextId)))
  {
    hide Function.Valid, Function.IdsUnique, Function.SlotsMade, BufferOf, CountOf, ResultsUsed, PlaceAll,
         TextCode, NewSlots, SlotsUsed;
    ghost var slot, base := fn.nextId, builder.nextResult;
    ghost var before, entryBefore := curr.bb.instrs, fn.EntryBlock().instrs;
    lhsBuff, lhsCount := EmitText(fn, builder, curr, lhsEmit);
    ghost var middle := fn.nextId;
    rhsBuff, rhsCount := EmitText(fn, builder, curr, rhsEmit);
    TextCodeMakesNoSlots<BB>(lhsEmit, slot, base);
    PlaceBehindCode(before, TextCode(lhsEmit, slot, base), NewSlots(lhsEmit, slot), rhsEmit, middle);
    assert forall a: seq<Instr<BB>>, b: seq<Instr<BB>>, c: seq<Instr<BB>> :: a + b + c == a + (b + c);
    PlaceTwice(entryBefore, lhsEmit, rhsEmit, slot);
  }

  lemma TextCodeMakesNoSlots<B>(v: TextValue, slot: nat, base: nat)
    ensures TextCode<B>(v, slot, base) == [] || !TextCode<B>(v, slot, base)[0].Alloca?
  {
  }

  function TextSlots(lhsEmit: TextValue, rhsEmit: TextValue, slot: nat): seq<nat> {
    NewSlots(lhsEmit, slot) + NewSlots(rhsEmit, slot + SlotsUsed(lhsEmit))
  }

  function TextsCode<B>(lhsEmit: TextValue, rhsEmit: TextValue, slot: nat, base: nat): seq<Instr<B>> {
    TextCode(lhsEmit, slot, base)
    + TextCode(rhsEmit, slot + SlotsUsed(lhsEmit), base + ResultsUsed(lhsEmit))
  }

  lemma PlaceTwice<B>(instrs: seq<Instr<B>>, lhsEmit: TextValue, rhsEmit: TextValue, slot: nat)
    ensures PlaceAll(PlaceAll(instrs, NewSlots(lhsEmit, slot)), NewSlots(rhsEmit, slot + SlotsUsed(lhsEmit)))
            == PlaceAll(instrs, TextSlots(lhsEmit, rhsEmit, slot))
  {
    PlaceAppend(instrs, NewSlots(lhsEmit, slot), NewSlots(rhsEmit, slot + SlotsUsed(lhsEmit)));
  }

  lemma {:induction false} PlaceAppend<B>(instrs: seq<Instr<B>>, a: seq<nat>, b: seq<nat>)
    ensures PlaceAll(PlaceAll(instrs, a), b) == PlaceAll(instrs, a + b)
    decreases |b|
  {
    if b == [] {
      assert a + b == a;
    } else {
      var b' := b[..|b| - 1];
      assert (a + b)[..|a + b| - 1] == a + b';
      PlaceAppend(instrs, a, b');
    }
  }

  /** New slots of the second text go before what the first text has emitted. */
  lemma PlaceBehindCode<B>(instrs: seq<Instr<B>>, code: seq<Instr<B>>, slots: seq<nat>, v: TextValue, slot: nat)
    requires code == [] || !code[0].Alloca?
    ensures PlaceAll(PlaceAll(instrs, slots) + code, NewSlots(v, slot))
            == PlaceAll(instrs, slots + NewSlots(v, slot)) + code
  {
    PlaceAppend(instrs, slots, NewSlots(v, slot));
    if v.Computed? {
      PlaceOne(PlaceAll(instrs, slots) + code, slot);
      PlaceOne(PlaceAll(instrs, slots), slot);
      PlacedBefore(PlaceAll(instrs, slots), code, slot);
    }
  }

  /** The slots that a comparison adds: for the texts, and for the index if it is the first one. */
  ghost function ComparisonSlots(
      lhsEmit: TextValue, rhsEmit: TextValue, slot: nat, index: Option<LocalValue>): seq<nat>
  {
    TextSlots(lhsEmit, rhsEmit, slot) +
    if index.None? then [slot + SlotsUsed(lhsEmit) + SlotsUsed(rhsEmit)] else []
  }

  /** The slot of the index of a comparison. */
  ghost function IndexSlot(lhsEmit: TextValue, rhsEmit: TextValue, slot: nat, index: Option<LocalValue>): nat {
    if index.None? then slot + SlotsUsed(lhsEmit) + SlotsUsed(rhsEmit) else index.value.localId
  }

  /** The index local is looked up, or made when this is the first comparison of the function. */
  method FetchIndex(fn: Function, curr: Block, ghost code: seq<Instr<BB>>, ghost before: seq<Instr<BB>>)
    returns (index: LocalValue)
    requires fn.Valid() && fn.IdsUnique() && fn.Owns(curr)
    requires curr.bb.instrs == before + code && (code == [] || !code[0].Alloca?)
    modifies fn`strComparisonIndex, fn`nextId, fn.GetFirstBlock()`values, fn.EntryBlock()`instrs
    ensures fn.Valid() && fn.IdsUnique() && fn.strComparisonIndex == Some(index)
    ensures old(fn.SlotsMade()) ==> fn.SlotsMade()
    ensures index.localId ==
      if old(fn.strComparisonIndex).None? then old(fn.nextId) else old(fn.strComparisonIndex).value.localId
    ensures curr.bb.instrs ==
      Shifted(fn.EntryBlock(), curr.bb, before, IndexSlots(old(fn.strComparisonIndex), old(fn.nextId))) + code
    ensures fn.EntryBlock().instrs ==
      PlaceAll(old(fn.EntryBlock().instrs), IndexSlots(old(fn.strComparisonIndex), old(fn.nextId)))
  {
    hide Function.Valid, Function.IdsUnique, Function.SlotsMade, WithAlloca;
    ghost var slot := fn.nextId;
    PlaceOne(before, slot);
    PlaceOne(fn.EntryBlock().instrs, slot);
    PlacedBefore(before, code, slot);
    index := fn.GetStrComparisonIndex();
  }

  function IndexSlots(index: Option<LocalValue>, slot: nat): seq<nat> {
    if index.None? then [slot] else []
  }

  /** Nothing in `instrs` leads to `target`. */
  ghost predicate Avoids(instrs: seq<Instr<BB>>, target: BB) {
    forall i :: 0 <= i < |instrs| ==> target !in Successors(instrs[i])
  }

  /** Code cannot lead to a block that did not exist when the code was written. */
  twostate lemma OldCodeAvoids(instrs: seq<Instr<BB>>, new target: BB)
    requires fresh(target)
    ensures Avoids(instrs, target)
  {
    forall i | 0 <= i < |instrs|
      ensures target !in Successors(instrs[i])
    {
      OldInstrAvoids(instrs[i], target);
    }
  }

  twostate lemma OldInstrAvoids(instr: Instr<BB>, new target: BB)
    requires fresh(target)
    ensures target !in Successors(instr)
  {
    match instr
    case Switch(targets) =>
    case _ =>
  }

  lemma {:induction false} PlacedAvoids(instrs: seq<Instr<BB>>, target: BB, slots: seq<nat>)
    requires Avoids(instrs, target)
    ensures Avoids(PlaceAll(instrs, slots), target)
    decreases |slots|
  {
    if slots != [] {
      PlacedAvoids(instrs, target, slots[..|slots| - 1]);
    }
  }

  lemma BodiesDiffer(fn: Function, x: Block, y: Block)
    requires fn.Valid() && x in fn.all && y in fn.all && x != y
    ensures x.bb != y.bb
  {
    var i :| 0 <= i < |fn.all| && fn.all[i] == x;
    var j :| 0 <= j < |fn.all| && fn.all[j] == y;
    if j < i {
      assert fn.all[j].bb != fn.all[i].bb;
    }
  }

  /**
   Emits a comparison of two texts. Two constants are compared on the spot. Otherwise the texts are
   fetched in the active block, the blocks of the comparison are added to the tree and filled, and
   emission continues in the block where control resumes.
   */
  method CompareText(fn: Function, builder: IRBuilder, isEquality: bool, lhsEmit: TextValue, rhsEmit: TextValue)
    returns (result: CompareResult, ghost t: Option<TreeBlocks>, ghost c: Option<Comparison>)
    requires fn.Valid() && fn.IdsUnique() && fn.all != [] && builder.insertBlock == fn.GetBlock().bb
    modifies fn, fn.all, builder, fn.EntryBlock()`instrs, fn.GetBlock().bb`instrs
    ensures fn.Valid() && fn.IdsUnique()
    ensures old(fn.SlotsMade()) ==> fn.SlotsMade()
    ensures result.Folded? <==> lhsEmit.ConstText? && rhsEmit.ConstText?
    ensures result.Folded? ==>
      && result.flag == (if isEquality then lhsEmit.bytes == rhsEmit.bytes else lhsEmit.bytes != rhsEmit.bytes)
      && unchanged(fn) && unchanged(fn.all) && unchanged(builder)
      && unchanged(old(fn.EntryBlock())) && unchanged(old(fn.GetBlock()).bb)
    ensures result.AtRunTime? ==>
      && t.Some? && c.Some? && fn.all == old(fn.all) + Listed(t.value)
      && result.value == Result(c.value.base + 12)
      && fn.GetBlock() == t.value.rest && builder.insertBlock == t.value.rest.bb
      && Placed(old(fn.GetBlock()), t.value)
      && Compares(c.value, isEquality, lhsEmit, rhsEmit, old(builder.nextResult))
      && c.value.index == IndexSlot(lhsEmit, rhsEmit, old(fn.nextId), old(fn.strComparisonIndex))
      && fn.strComparisonIndex.Some? && fn.strComparisonIndex.value.localId == c.value.index
      && HoldsCode(Bodies(old(fn.GetBlock()), t.value), c.value)
      && Separate(Bodies(old(fn.GetBlock()), t.value))
      && old(fn.GetBlock()).bb.instrs ==
           Shifted(fn.EntryBlock(), old(fn.GetBlock()).bb, old(fn.GetBlock().bb.instrs),
                   ComparisonSlots(lhsEmit, rhsEmit, old(fn.nextId), old(fn.strComparisonIndex)))
           + ActiveBlockCode(Bodies(old(fn.GetBlock()), t.value), c.value, lhsEmit, rhsEmit,
                             old(fn.nextId), old(builder.nextResult))
      && (old(fn.GetBlock()).bb != fn.EntryBlock() ==>
            fn.EntryBlock().instrs ==
              PlaceAll(old(fn.EntryBlock().instrs),
                       ComparisonSlots(lhsEmit, rhsEmit, old(fn.nextId), old(fn.strComparisonIndex))))
      && (old(fn.SlotsMade()) ==> c.value.index in Slots(fn.EntryBlock().instrs))
      && (forall s :: s in TextSlots(lhsEmit, rhsEmit, old(fn.nextId)) ==> s in Slots(fn.EntryBlock().instrs))
      && Avoids(old(fn.GetBlock().bb.instrs), t.value.rest.bb)
      && (forall x :: x in old(fn.all) && x != old(fn.GetBlock()) ==> Avoids(x.bb.instrs, t.value.rest.bb))
  {
    hide Function.Valid, Function.IdsUnique, Function.SlotsMade, HoldsCode, Separate, ActiveBlockCode, Compares,
         IndexSlot, PlaceAll, ComparisonSlots, Avoids, Slots, TextSlots;
    t, c := None, None;
    if lhsEmit.ConstText? && rhsEmit.ConstText? {
      FoldingAgrees(lhsEmit.bytes, rhsEmit.bytes);
      var strCmpRes := ComparePrerunText(ConstantData(lhsEmit.bytes), |lhsEmit.bytes|,
                                         ConstantData(rhsEmit.bytes), |rhsEmit.bytes|);
      result := Folded(if isEquality then strCmpRes else !strCmpRes);
      return;
    }
    var curr := fn.GetBlock();
    var value, blocks, comparison := EmitComparison(fn, builder, curr, isEquality, lhsEmit, rhsEmit);
    result, t, c := AtRunTime(value), Some(blocks), Some(comparison);
    if fn.SlotsMade() {
      fn.IndexHasSlot();
    }
    TextSlotsArePlaced(old(fn.EntryBlock().instrs), lhsEmit, rhsEmit, old(fn.nextId), old(fn.strComparisonIndex),
                       ActiveBlockCode(Bodies(curr, blocks), comparison, lhsEmit, rhsEmit, old(fn.nextId),
                                       old(builder.nextResult)));
    OldCodeAvoids(old(curr.bb.instrs), blocks.rest.bb);
    forall x | x in old(fn.all) && x != curr
      ensures Avoids(x.bb.instrs, blocks.rest.bb)
    {
      BodiesDiffer(fn, x, curr);
      OldCodeAvoids(old(x.bb.instrs), blocks.rest.bb);
      PlacedAvoids(old(x.bb.instrs), blocks.rest.bb,
                   ComparisonSlots(lhsEmit, rhsEmit, old(fn.nextId), old(fn.strComparisonIndex)));
    }
  }

  /** The blocks that emission may touch belong to the function. */
  lemma NearBlocks(fn: Function, curr: Block)
    requires fn.Valid() && fn.Owns(curr)
    ensures curr in fn.all && fn.all != [] && fn.GetFirstBlock() == fn.all[0]
    ensures curr.parent != null ==> curr.parent in fn.all
  {
    var p := fn.ParentOf(curr);
  }

  /** Slots for the texts and then the slot for the index. */
  lemma PlaceIndexSlot(entry: BB, bb: BB, instrs: seq<Instr<BB>>, lhsEmit: TextValue, rhsEmit: TextValue,
                       slot: nat, index: Option<LocalValue>)
    ensures Shifted(entry, bb, Shifted(entry, bb, instrs, TextSlots(lhsEmit, rhsEmit, slot)),
                    IndexSlots(index, slot + SlotsUsed(lhsEmit) + SlotsUsed(rhsEmit)))
            == Shifted(entry, bb, instrs, ComparisonSlots(lhsEmit, rhsEmit, slot, index))
    ensures PlaceAll(PlaceAll(instrs, TextSlots(lhsEmit, rhsEmit, slot)),
                     IndexSlots(index, slot + SlotsUsed(lhsEmit) + SlotsUsed(rhsEmit)))
            == PlaceAll(instrs, ComparisonSlots(lhsEmit, rhsEmit, slot, index))
  {
    PlaceAppend(instrs, TextSlots(lhsEmit, rhsEmit, slot),
                IndexSlots(index, slot + SlotsUsed(lhsEmit) + SlotsUsed(rhsEmit)));
  }

  lemma TextsCodeMakesNoSlots<B>(lhsEmit: TextValue, rhsEmit: TextValue, slot: nat, base: nat)
    ensures TextsCode<B>(lhsEmit, rhsEmit, slot, base) == [] ||
            !TextsCode<B>(lhsEmit, rhsEmit, slot, base)[0].Alloca?
  {
  }

  /** Creates the blocks, and then finds the index local. */
  method CreateBlocksAndIndex(fn: Function, curr: Block, ghost code: seq<Instr<BB>>, ghost before: seq<Instr<BB>>)
    returns (t: TreeBlocks, index: LocalValue)
    requires fn.Valid() && fn.IdsUnique() && fn.Owns(curr)
    requires curr.bb.instrs == before + code && (code == [] || !code[0].Alloca?)
    modifies fn, fn.all, fn.EntryBlock()`instrs
    ensures fn.Valid() && fn.IdsUnique() && fn.Owns(curr) && fn.all == old(fn.all) + Listed(t)
    ensures old(fn.SlotsMade()) ==> fn.SlotsMade()
    ensures EmptyBlocks(fn, t) && fresh(NewBlocks(t)) && fresh(NewBodies(t)) && Placed(curr, t)
    ensures fn.strComparisonIndex == Some(index)
    ensures index.localId ==
      if old(fn.strComparisonIndex).None? then old(fn.nextId) else old(fn.strComparisonIndex).value.localId
    ensures curr.bb.instrs ==
      Shifted(fn.EntryBlock(), curr.bb, before, IndexSlots(old(fn.strComparisonIndex), old(fn.nextId))) + code
    ensures fn.EntryBlock() == old(fn.EntryBlock()) && fn.EntryBlock().instrs ==
      PlaceAll(old(fn.EntryBlock().instrs), IndexSlots(old(fn.strComparisonIndex), old(fn.nextId)))
  {
    hide Function.Valid, Function.IdsUnique, Function.SlotsMade, PlaceAll, IndexSlots, Shifted;
    NearBlocks(fn, curr);
    ghost var entry := fn.EntryBlock();
    t := CreateBlocks(fn, curr);
    NearBlocks(fn, curr);
    assert fn.EntryBlock() == entry;
    index := FetchIndex(fn, curr, code, before);
  }

  /** Fetches the texts, creates the blocks and finds the index local. */
  method Prepare(fn: Function, builder: IRBuilder, curr: Block, isEquality: bool, lhsEmit: TextValue,
                 rhsEmit: TextValue)
    returns (t: TreeBlocks, c: Comparison)
    requires fn.Valid() && fn.IdsUnique() && fn.Owns(curr) && builder.insertBlock == curr.bb
    modifies fn, fn.all, builder`nextResult, fn.EntryBlock()`instrs, curr.bb`instrs
    ensures fn.Valid() && fn.IdsUnique() && fn.Owns(curr) && fn.all == old(fn.all) + Listed(t)
    ensures old(fn.SlotsMade()) ==> fn.SlotsMade()
    ensures EmptyBlocks(fn, t) && fresh(NewBlocks(t)) && fresh(NewBodies(t)) && Placed(curr, t)
    ensures Compares(c, isEquality, lhsEmit, rhsEmit, old(builder.nextResult))
    ensures builder.nextResult == c.base
    ensures fn.strComparisonIndex.Some? && fn.strComparisonIndex.value.localId == c.index
    ensures c.index == IndexSlot(lhsEmit, rhsEmit, old(fn.nextId), old(fn.strComparisonIndex))
    ensures curr.bb.instrs ==
      Shifted(old(fn.EntryBlock()), curr.bb, old(curr.bb.instrs),
              ComparisonSlots(lhsEmit, rhsEmit, old(fn.nextId), old(fn.strComparisonIndex)))
      + TextsCode(lhsEmit, rhsEmit, old(fn.nextId), old(builder.nextResult))
    ensures fn.EntryBlock() == old(fn.EntryBlock())
    ensures curr.bb != fn.EntryBlock() ==>
      fn.EntryBlock().instrs ==
        PlaceAll(old(fn.EntryBlock().instrs),
                 ComparisonSlots(lhsEmit, rhsEmit, old(fn.nextId), old(fn.strComparisonIndex)))
  {
    hide Function.Valid, Function.IdsUnique, Function.SlotsMade, TextsCode, TextSlots, PlaceAll, BufferOf,
         CountOf, ResultsUsed, SlotsUsed, ComparisonSlots, IndexSlots, Shifted, NewBlocks, NewBodies, EmptyBlocks,
         Placed, Listed;
    NearBlocks(fn, curr);
    ghost var slot, base := fn.nextId, builder.nextResult;
    ghost var entry, before, entryBefore, known :=
      fn.EntryBlock(), curr.bb.instrs, fn.EntryBlock().instrs, fn.strComparisonIndex;
    PlaceIndexSlot(entry, curr.bb, before, lhsEmit, rhsEmit, slot, known);
    PlaceIndexSlot(entry, curr.bb, entryBefore, lhsEmit, rhsEmit, slot, known);
    TextsCodeMakesNoSlots<BB>(lhsEmit, rhsEmit, slot, base);
    var lhsBuff, lhsCount, rhsBuff, rhsCount := EmitTexts(fn, builder, curr, lhsEmit, rhsEmit);
    var index;
    t, index := CreateBlocksAndIndex(fn, curr, TextsCode(lhsEmit, rhsEmit, slot, base),
                                     Shifted(entry, curr.bb, before, TextSlots(lhsEmit, rhsEmit, slot)));
    c := Comparison(isEquality, lhsBuff, lhsCount, rhsBuff, rhsCount, index.localId, builder.nextResult);
  }

  lemma ListedAreNew(fn: Function, t: TreeBlocks, all: seq<Block>)
    requires fn.all == all + Listed(t)
    ensures forall i :: 0 <= i < |fn.all| ==> (i < |all| && fn.all[i] == all[i]) || fn.all[i] in NewBlocks(t)
  {
  }

  lemma AddedAreSeparate(fn: Function, curr: Block, t: TreeBlocks, n: nat)
    requires fn.Valid() && fn.Owns(curr) && curr.rank < n <= |fn.all|
    requires fn.all == fn.all[..n] + Listed(t)
    ensures Separate(Bodies(curr, t))
  {
    assert fn.all[n..] == Listed(t);
    BodiesAreSeparate(fn, curr, t, n);
  }

  /** The code of the texts and the length check after it are the code of the active block. */
  lemma ActiveBlockParts(b: Blocks<BB>, c: Comparison, lhsEmit: TextValue, rhsEmit: TextValue,
                         slot: nat, base: nat, before: seq<Instr<BB>>)
    ensures before + TextsCode(lhsEmit, rhsEmit, slot, base) + StartCode(b, c) ==
            before + ActiveBlockCode(b, c, lhsEmit, rhsEmit, slot, base)
  {
  }

  /** Emits the length check at the end of the active block, and then fills the created blocks. */
  method EmitCode(fn: Function, builder: IRBuilder, curr: Block, t: TreeBlocks, b: Blocks<BB>, c: Comparison)
    returns (value: Operand)
    requires fn.Valid() && fn.IdsUnique() && fn.Owns(curr) && builder.insertBlock == curr.bb
    requires b == Bodies(curr, t) && Separate(b) && EmptyBlocks(fn, t)
    requires fn.all != [] && fn.EntryBlock() !in NewBodies(t) && builder.nextResult == c.base
    modifies fn`activeBlock, fn.all`active, builder, curr.bb`instrs, NewBodies(t)`instrs
    ensures fn.Valid() && fn.IdsUnique()
    ensures old(fn.SlotsMade()) ==> fn.SlotsMade()
    ensures fn.GetBlock() == t.rest && builder.insertBlock == t.rest.bb
    ensures value == Result(c.base + 12) && HoldsCode(b, c)
    ensures curr.bb.instrs == old(curr.bb.instrs) + StartCode(b, c)
  {
    hide Function.Valid, Function.IdsUnique, Function.SlotsMade, HoldsCode, Separate, StartCode, EmptyBlocks,
         Function.GetBlock, Block.PathToRoot, Block.OnActivePath;
    PairwiseDifferent(b);
    EmitStart(builder, b, c);
    value := EmitGraph(fn, builder, curr, t, b, c);
    StartMakesNoSlots(b, c);
    if old(fn.SlotsMade()) {
      fn.StillSlotsMade();
    }
  }

  lemma StartMakesNoSlots(b: Blocks<BB>, c: Comparison)
    ensures forall i :: 0 <= i < |StartCode(b, c)| ==> !StartCode(b, c)[i].Alloca?
  {
  }

  /** The emission of a comparison that cannot be folded. */
  method EmitComparison(fn: Function, builder: IRBuilder, curr: Block, isEquality: bool,
                        lhsEmit: TextValue, rhsEmit: TextValue)
    returns (value: Operand, t: TreeBlocks, c: Comparison)
    requires fn.Valid() && fn.IdsUnique() && fn.Owns(curr) && builder.insertBlock == curr.bb
    modifies fn, fn.all, builder, fn.EntryBlock()`instrs, curr.bb`instrs
    ensures fn.Valid() && fn.IdsUnique() && fn.all != [] && fn.all == old(fn.all) + Listed(t)
    ensures old(fn.SlotsMade()) ==> fn.SlotsMade()
    ensures value == Result(c.base + 12)
    ensures fn.GetBlock() == t.rest && builder.insertBlock == t.rest.bb
    ensures Placed(curr, t)
    ensures fresh(t.rest.bb)
    ensures Compares(c, isEquality, lhsEmit, rhsEmit, old(builder.nextResult))
    ensures fn.strComparisonIndex.Some? && fn.strComparisonIndex.value.localId == c.index
    ensures c.index == IndexSlot(lhsEmit, rhsEmit, old(fn.nextId), old(fn.strComparisonIndex))
    ensures HoldsCode(Bodies(curr, t), c) && Separate(Bodies(curr, t))
    ensures curr.bb.instrs ==
      Shifted(old(fn.EntryBlock()), curr.bb, old(curr.bb.instrs),
              ComparisonSlots(lhsEmit, rhsEmit, old(fn.nextId), old(fn.strComparisonIndex)))
      + ActiveBlockCode(Bodies(curr, t), c, lhsEmit, rhsEmit, old(fn.nextId), old(builder.nextResult))
    ensures curr.bb != fn.EntryBlock() ==>
      fn.EntryBlock().instrs ==
        PlaceAll(old(fn.EntryBlock().instrs),
                 ComparisonSlots(lhsEmit, rhsEmit, old(fn.nextId), old(fn.strComparisonIndex)))
  {
    hide Function.Valid, Function.IdsUnique, Function.SlotsMade, HoldsCode, Separate, ActiveBlockCode, TextsCode,
         Shifted, Function.GetBlock,
         ComparisonSlots, IndexSlot, PlaceAll, StartCode, Compares, EmptyBlocks, Listed, NewBlocks;
    NearBlocks(fn, curr);
    ghost var n, slot, base := |fn.all|, fn.nextId, builder.nextResult;
    ghost var before := Shifted(fn.EntryBlock(), curr.bb, curr.bb.instrs,
                                ComparisonSlots(lhsEmit, rhsEmit, fn.nextId, fn.strComparisonIndex));
    t, c := Prepare(fn, builder, curr, isEquality, lhsEmit, rhsEmit);
    var b := Bodies(curr, t);
    AddedAreSeparate(fn, curr, t, n);
    ListedAreNew(fn, t, old(fn.all));
    assert forall i :: 0 <= i < |fn.all| ==> (i < n && fn.all[i] == old(fn.all)[i]) || fresh(fn.all[i]);
    value := EmitCode(fn, builder, curr, t, b, c);
    ActiveBlockParts(b, c, lhsEmit, rhsEmit, slot, base, before);
  }

  // ---------------------------------------------------------------------------
  // What the emission amounts to

  /**
   `code` is what the created blocks of a comparison were left with, or what became of it later:
   emission goes on in the resuming block only.
   */
  ghost predicate Extends(code: Code<BB>, b: Blocks<BB>)
    reads Created(b)
  {
    && Created(b) <= code.Keys
    && (forall x :: x in Created(b) && x != b.rest ==> code[x] == x.instrs)
    && b.rest.instrs <= code[b.rest]
  }

  /**
   The block that was active ends in the code of the comparison. What is before it can still change:
   if the block is the entry block, later allocas are placed there.
   */
  ghost predicate StartsIn(code: Code<BB>, b: Blocks<BB>, c: Comparison, before: seq<Instr<BB>>,
                           lhsEmit: TextValue, rhsEmit: TextValue, slot: nat, base: nat)
  {
    b.start in code && code[b.start] == before + ActiveBlockCode(b, c, lhsEmit, rhsEmit, slot, base)
  }

  /** The blocks that the emission leaves behind hold the graph of the comparison. */
  lemma BlocksHoldGraph(code: Code<BB>, b: Blocks<BB>, c: Comparison, before: seq<Instr<BB>>,
                        lhsEmit: TextValue, rhsEmit: TextValue, slot: nat, base: nat)
    requires Extends(code, b) && HoldsCode(b, c) && Separate(b)
    requires StartsIn(code, b, c, before, lhsEmit, rhsEmit, slot, base)
    ensures b.start in code && |before| < |code[b.start]| && |code[b.start]| >= 2
    ensures code[b.start][|before|..] == ActiveBlockCode(b, c, lhsEmit, rhsEmit, slot, base)
    ensures !code[b.start][|before|].Alloca?
    ensures Emitted(code, b, c, |code[b.start]| - 2)
    ensures code[b.start][..|code[b.start]| - 2] == before + TextsCode(lhsEmit, rhsEmit, slot, base)
  {
    hide LenCheckTrueCode, IterCondCode, IterTrueCode, IterIncrCode, IterFalseCode, MergeCode, RestCode,
         TextCode, Separate, SlotsUsed, ResultsUsed;
    RestIsSeparate(b);
    var tail := ActiveBlockCode(b, c, lhsEmit, rhsEmit, slot, base);
    assert tail == TextsCode(lhsEmit, rhsEmit, slot, base) + StartCode(b, c);
    TextsCodeMakesNoSlots<BB>(lhsEmit, rhsEmit, slot, base);
    assert code[b.start][|before|] == tail[0];
  }

  /** Where the comparison starts, all slots of the entry block are there. */
  lemma SlotsAtStart(code: Code<BB>, entry: BB, start: BB, before: seq<Instr<BB>>, m0: Machine<BB>, k: nat)
    requires entry in code && AllocasFirst(code[entry]) && m0.Running? && m0.block == entry && m0.pc == 0
    requires start in code && |before| < |code[start]| && !code[start][|before|].Alloca?
    requires At(Steps(code, m0, k), start, |before|)
    ensures Slots(code[entry]) <= Steps(code, m0, k).slots.Keys
  {
    hide Steps, Slots, AllocasFirst;
    SlotsDominate(code, entry, m0, k);
  }

  /**
   For all texts, every run from the start of the function that reaches the point where the emission
   of a comparison began goes on to the resuming block, and the returned value is then whether the
   texts are equal, or are not equal, as asked. This needs no more of the index than what the
   emission ensures: that the entry block makes its slot.
   */
  lemma EmittedComparisonIsCorrect(
      code: Code<BB>, entry: BB, b: Blocks<BB>, c: Comparison, isEquality: bool, before: seq<Instr<BB>>,
      m0: Machine<BB>, k: nat, lhsEmit: TextValue, rhsEmit: TextValue, slot: nat, base: nat,
      lhs: seq<byte>, rhs: seq<byte>)
    returns (n: nat)
    requires Extends(code, b) && HoldsCode(b, c) && Separate(b)
    requires StartsIn(code, b, c, before, lhsEmit, rhsEmit, slot, base)
    requires Compares(c, isEquality, lhsEmit, rhsEmit, base)
    requires entry in code && AllocasFirst(code[entry]) && c.index in Slots(code[entry])
    requires forall s :: s in TextSlots(lhsEmit, rhsEmit, slot) ==> s in Slots(code[entry])
    requires m0.Running? && m0.block == entry && m0.pc == 0
    requires At(Steps(code, m0, k), b.start, |before|)
    requires Denotes(Steps(code, m0, k), lhsEmit, lhs, slot, base)
    requires Denotes(Steps(code, m0, k), rhsEmit, rhs, slot, base)
    ensures var m, m' := Steps(code, m0, k), Steps(code, m0, k + n);
      && At(m', b.rest, 1)
      && Eval(m', Result(c.base + 12)) == Bool(if isEquality then lhs == rhs else lhs != rhs)
      && m'.wrapped == m.wrapped && m'.slots.Keys == m.slots.Keys
    ensures forall i: nat :: i <= k + n ==> Steps(code, m0, i).Running?
  {
    hide Steps, Step, Execute, Emitted, Denotes, ActiveBlockCode, HoldsCode, Separate, Extends, Compares, StartsIn,
         Slots, AllocasFirst;
    BlocksHoldGraph(code, b, c, before, lhsEmit, rhsEmit, slot, base);
    SlotsAtStart(code, entry, b.start, before, m0, k);
    assert lhsEmit.Computed? ==> TextSlots(lhsEmit, rhsEmit, slot)[0] == slot;
    assert rhsEmit.Computed? ==> TextSlots(lhsEmit, rhsEmit, slot)[SlotsUsed(lhsEmit)] == slot + SlotsUsed(lhsEmit);
    var m := Steps(code, m0, k);
    n := CompareTextRuns(code, b, c, isEquality, |before|, m, lhsEmit, rhsEmit, slot, base, lhs, rhs);
    StepsCompose(code, m0, k, n);
    NoFaultUntil(code, m0, k + n);
  }

  /**
   If the active block was not terminated when emission began, then it and every created block but
   the resuming one end in exactly one terminator that stays among the created blocks. If the other
   blocks do not lead to the resuming one, which is new to them, then its predecessors are exactly
   the two incoming blocks of the PHI.
   */
  lemma {:induction false} EmittedGraphIsWellFormed(
      code: Code<BB>, b: Blocks<BB>, c: Comparison, before: seq<Instr<BB>>,
      lhsEmit: TextValue, rhsEmit: TextValue, slot: nat, base: nat)
    requires Extends(code, b) && HoldsCode(b, c) && Separate(b) && !HasTerminator(before)
    requires StartsIn(code, b, c, before, lhsEmit, rhsEmit, slot, base)
    requires forall x :: x in code && x !in Created(b) + {b.start} ==> Avoids(code[x], b.rest)
    ensures forall x :: x in Created(b) + {b.start} && x != b.rest ==> Terminated(code[x], Created(b))
    ensures forall x :: x in code && x != b.rest ==>
      (JumpsTo(code, x, b.rest) <==> x in {b.strCmpTrue, b.strCmpFalse})
    ensures b.rest.instrs == [Phi(c.base + 12, [(ConstBool(c.isEquality), b.strCmpTrue),
                                                (ConstBool(!c.isEquality), b.strCmpFalse)])]
  {
    hide Emitted, Separate, Terminated, JumpsTo, ActiveBlockCode, StartsIn, TextsCode, HasTerminator;
    BlocksHoldGraph(code, b, c, before, lhsEmit, rhsEmit, slot, base);
    TextsCodeDoesNotEnd(before, lhsEmit, rhsEmit, slot, base);
    GraphIsTerminated(code, b, c, |code[b.start]| - 2);
    forall x | x in code && x != b.rest
      ensures JumpsTo(code, x, b.rest) <==> x in {b.strCmpTrue, b.strCmpFalse}
    {
      if x in Created(b) + {b.start} {
        RestPredecessors(code, b, c, |code[b.start]| - 2, x);
      } else {
        AvoidingDoesNotJump(code, x, b.rest);
      }
    }
  }

  lemma AvoidingDoesNotJump(code: Code<BB>, from: BB, target: BB)
    requires from in code && Avoids(code[from], target)
    ensures !JumpsTo(code, from, target)
  {
  }

  lemma TextsCodeDoesNotEnd<B>(before: seq<Instr<B>>, lhsEmit: TextValue, rhsEmit: TextValue, slot: nat, base: nat)
    requires !HasTerminator(before)
    ensures !HasTerminator(before + TextsCode(lhsEmit, rhsEmit, slot, base))
  {
    var code := TextsCode<B>(lhsEmit, rhsEmit, slot, base);
    TextCodeHasNoTerminator<B>(lhsEmit, slot, base);
    TextCodeHasNoTerminator<B>(rhsEmit, slot + SlotsUsed(lhsEmit), base + ResultsUsed(lhsEmit));
    forall i | 0 <= i < |before + code|
      ensures !IsTerminator((before + code)[i])
    {
    }
  }

  lemma TextCodeHasNoTerminator<B>(v: TextValue, slot: nat, base: nat)
    ensures !HasTerminator<B>(TextCode(v, slot, base))
  {
  }

  /** Placing slots makes them, and keeps the ones that were there. */
  lemma {:induction false} PlacedSlots<B>(instrs: seq<Instr<B>>, slots: seq<nat>)
    ensures forall s :: s in Slots(PlaceAll(instrs, slots)) <==> s in Slots(instrs) || s in slots
  {
    if slots != [] {
      var shorter := slots[..|slots| - 1];
      assert slots == shorter + [slots[|slots| - 1]];
      PlacedSlots(instrs, shorter);
      PlacedSlot(PlaceAll(instrs, shorter), slots[|slots| - 1]);
    }
  }

  /** The slots that the texts of a comparison need are made by the entry block. */
  lemma TextSlotsArePlaced(instrs: seq<Instr<BB>>, lhsEmit: TextValue, rhsEmit: TextValue, slot: nat,
                           index: Option<LocalValue>, code: seq<Instr<BB>>)
    ensures forall s :: s in TextSlots(lhsEmit, rhsEmit, slot) ==>
      && s in Slots(PlaceAll(instrs, ComparisonSlots(lhsEmit, rhsEmit, slot, index)))
      && s in Slots(PlaceAll(instrs, ComparisonSlots(lhsEmit, rhsEmit, slot, index)) + code)
  {
    hide PlaceAll, TextSlots;
    var slots := ComparisonSlots(lhsEmit, rhsEmit, slot, index);
    PlacedSlots(instrs, slots);
    var placed := PlaceAll(instrs, slots);
    forall s | s in TextSlots(lhsEmit, rhsEmit, slot)
      ensures s in Slots(placed) && s in Slots(placed + code)
    {
      assert s in slots;
      SlotOfPrefix(placed, code, s);
    }
  }

  lemma SlotOfPrefix(instrs: seq<Instr<BB>>, code: seq<Instr<BB>>, s: nat)
    requires s in Slots(instrs)
    ensures s in Slots(instrs + code)
  {
    var i :| 0 <= i < |instrs| && instrs[i].Alloca? && instrs[i].slot == s;
    assert (instrs + code)[i] == instrs[i];
  }
}
