/**
 The blocks of a function while its body is being emitted: a forest with parent and child links,
 links between a block and the one that resumes after it, and a path of active blocks.
 */
module BlockTree {
  import opened Wrappers
  import opened Ir
  import opened AllocaPrefixes

  /** What scoping and destruction need to know about the type of a local. */
  datatype LocalType = LocalType(
    isRef: bool,
    hasDestructor: bool,           // an expanded type with a destructor of its own
    isDestructible: bool,          // can be destroyed at the level of the type
    pointer: Option<PointerType>)

  datatype PointerType = PointerType(
    ownerFunction: Option<nat>,    // the function that owns the memory pointed to, if one does
    isMulti: bool,                 // points to many values, with a count
    pointeeHasDestructor: bool)    // the pointee is a struct type with a destructor

  datatype LocalValue = LocalValue(name: string, localId: nat, ty: LocalType)

  function FirstNamed(values: seq<LocalValue>, name: string): (local: Option<LocalValue>)
    ensures local.Some? <==> exists v :: v in values && v.name == name
    ensures local.Some? ==> local.value in values && local.value.name == name
  {
    if values == [] then None
    else if values[0].name == name then Some(values[0])
    else FirstNamed(values[1..], name)
  }

  ghost predicate HasId(values: seq<LocalValue>, id: nat) {
    exists v :: v in values && v.localId == id
  }

  /** `values` followed by those of `more` whose ids are not there yet. */
  ghost function AddNew(values: seq<LocalValue>, more: seq<LocalValue>): seq<LocalValue> {
    if more == [] then values
    else
      var earlier, v := AddNew(values, more[..|more| - 1]), more[|more| - 1];
      if HasId(earlier, v.localId) then earlier else earlier + [v]
  }

  /** Appends those of `more` whose ids are not among the collected ones yet. */
  method AddLocals(vals: seq<LocalValue>, more: seq<LocalValue>) returns (collected: seq<LocalValue>)
    ensures collected == AddNew(vals, more)
  {
    collected := vals;
    for i := 0 to |more|
      invariant collected == AddNew(vals, more[..i])
    {
      var found := false;
      for j := 0 to |collected|
        invariant !found && forall k :: 0 <= k < j ==> collected[k].localId != more[i].localId
      {
        if collected[j].localId == more[i].localId {
          found := true;
          assert HasId(collected, more[i].localId);
          break;
        }
      }
      assert more[..i + 1][..i] == more[..i];
      if !found {
        collected := collected + [more[i]];
      }
    }
    assert more[..|more|] == more;
  }

  type BB = BasicBlock

  class BasicBlock {
    var instrs: seq<Instr<BasicBlock>>

    constructor ()
      ensures instrs == []
    {
      instrs := [];
    }
  }

  /** Appends instructions to a basic block and numbers their results. */
  class IRBuilder {
    var insertBlock: BasicBlock
    var nextResult: nat

    constructor (bb: BasicBlock)
      ensures insertBlock == bb && nextResult == 0
    {
      insertBlock, nextResult := bb, 0;
    }

    method SetInsertPoint(bb: BasicBlock)
      modifies this`insertBlock
      ensures insertBlock == bb
    {
      insertBlock := bb;
    }

    method Insert(instr: Instr<BasicBlock>)
      modifies insertBlock`instrs
      ensures insertBlock.instrs == old(insertBlock.instrs) + [instr]
    {
      insertBlock.instrs := insertBlock.instrs + [instr];
    }

    method CreateLoad(address: Operand) returns (result: Operand)
      modifies this`nextResult, insertBlock`instrs
      ensures result == Result(old(nextResult)) && nextResult == old(nextResult) + 1
      ensures insertBlock.instrs == old(insertBlock.instrs) + [Load(old(nextResult), address)]
    {
      result := Result(nextResult);
      Insert(Load(nextResult, address));
      nextResult := nextResult + 1;
    }

    method CreateLoadTextBuffer(address: Operand) returns (result: Operand)
      modifies this`nextResult, insertBlock`instrs
      ensures result == Result(old(nextResult)) && nextResult == old(nextResult) + 1
      ensures insertBlock.instrs == old(insertBlock.instrs) + [LoadTextBuffer(old(nextResult), address)]
    {
      result := Result(nextResult);
      Insert(LoadTextBuffer(nextResult, address));
      nextResult := nextResult + 1;
    }

    method CreateLoadTextCount(address: Operand) returns (result: Operand)
      modifies this`nextResult, insertBlock`instrs
      ensures result == Result(old(nextResult)) && nextResult == old(nextResult) + 1
      ensures insertBlock.instrs == old(insertBlock.instrs) + [LoadTextCount(old(nextResult), address)]
    {
      result := Result(nextResult);
      Insert(LoadTextCount(nextResult, address));
      nextResult := nextResult + 1;
    }

    method CreateLoadByte(buffer: Operand, index: Operand) returns (result: Operand)
      modifies this`nextResult, insertBlock`instrs
      ensures result == Result(old(nextResult)) && nextResult == old(nextResult) + 1
      ensures insertBlock.instrs == old(insertBlock.instrs) + [LoadByte(old(nextResult), buffer, index)]
    {
      result := Result(nextResult);
      Insert(LoadByte(nextResult, buffer, index));
      nextResult := nextResult + 1;
    }

    method CreateICmpEQ(lhs: Operand, rhs: Operand) returns (result: Operand)
      modifies this`nextResult, insertBlock`instrs
      ensures result == Result(old(nextResult)) && nextResult == old(nextResult) + 1
      ensures insertBlock.instrs == old(insertBlock.instrs) + [ICmpEq(old(nextResult), lhs, rhs)]
    {
      result := Result(nextResult);
      Insert(ICmpEq(nextResult, lhs, rhs));
      nextResult := nextResult + 1;
    }

    method CreateICmpULT(lhs: Operand, rhs: Operand) returns (result: Operand)
      modifies this`nextResult, insertBlock`instrs
      ensures result == Result(old(nextResult)) && nextResult == old(nextResult) + 1
      ensures insertBlock.instrs == old(insertBlock.instrs) + [ICmpUlt(old(nextResult), lhs, rhs)]
    {
      result := Result(nextResult);
      Insert(ICmpUlt(nextResult, lhs, rhs));
      nextResult := nextResult + 1;
    }

    method CreateAdd(lhs: Operand, rhs: Operand) returns (result: Operand)
      modifies this`nextResult, insertBlock`instrs
      ensures result == Result(old(nextResult)) && nextResult == old(nextResult) + 1
      ensures insertBlock.instrs == old(insertBlock.instrs) + [Add(old(nextResult), lhs, rhs)]
    {
      result := Result(nextResult);
      Insert(Add(nextResult, lhs, rhs));
      nextResult := nextResult + 1;
    }

    method CreatePHI(incoming: seq<(Operand, BasicBlock)>) returns (result: Operand)
      modifies this`nextResult, insertBlock`instrs
      ensures result == Result(old(nextResult)) && nextResult == old(nextResult) + 1
      ensures insertBlock.instrs == old(insertBlock.instrs) + [Phi(old(nextResult), incoming)]
    {
      result := Result(nextResult);
      Insert(Phi(nextResult, incoming));
      nextResult := nextResult + 1;
    }

    method CreateLoadPointer(address: Operand) returns (result: Operand)
      modifies this`nextResult, insertBlock`instrs
      ensures result == Result(old(nextResult)) && nextResult == old(nextResult) + 1
      ensures insertBlock.instrs == old(insertBlock.instrs) + [LoadPointer(old(nextResult), address)]
    {
      result := Result(nextResult);
      Insert(LoadPointer(nextResult, address));
      nextResult := nextResult + 1;
    }

    method CreateLoadPointerCount(address: Operand) returns (result: Operand)
      modifies this`nextResult, insertBlock`instrs
      ensures result == Result(old(nextResult)) && nextResult == old(nextResult) + 1
      ensures insertBlock.instrs == old(insertBlock.instrs) + [LoadPointerCount(old(nextResult), address)]
    {
      result := Result(nextResult);
      Insert(LoadPointerCount(nextResult, address));
      nextResult := nextResult + 1;
    }

    method CreateIsNonNull(value: Operand) returns (result: Operand)
      modifies this`nextResult, insertBlock`instrs
      ensures result == Result(old(nextResult)) && nextResult == old(nextResult) + 1
      ensures insertBlock.instrs == old(insertBlock.instrs) + [IsNonNull(old(nextResult), value)]
    {
      result := Result(nextResult);
      Insert(IsNonNull(nextResult, value));
      nextResult := nextResult + 1;
    }

    method CreateCall(callee: Callee, arguments: seq<Operand>) returns (result: Operand)
      modifies this`nextResult, insertBlock`instrs
      ensures result == Result(old(nextResult)) && nextResult == old(nextResult) + 1
      ensures insertBlock.instrs == old(insertBlock.instrs) + [Call(old(nextResult), callee, arguments)]
    {
      result := Result(nextResult);
      Insert(Call(nextResult, callee, arguments));
      nextResult := nextResult + 1;
    }

    /** Branches to a block unless the current one has been terminated already. */
    method AddBranch(dest: BasicBlock)
      modifies insertBlock`instrs
      ensures insertBlock.instrs ==
        if HasTerminator(old(insertBlock.instrs)) then old(insertBlock.instrs)
        else old(insertBlock.instrs) + [Br(dest)]
    {
      var found := false;
      for i := 0 to |insertBlock.instrs|
        invariant !found && insertBlock.instrs == old(insertBlock.instrs)
        invariant forall k :: 0 <= k < i ==> !IsTerminator(insertBlock.instrs[k])
      {
        if IsTerminator(insertBlock.instrs[i]) {
          found := true;
          break;
        }
      }
      if !found {
        Insert(Br(dest));
      }
    }
  }

  /**
   A function under construction. `all` lists its blocks in the order in which they were created;
   the position of a block in it is the block's rank.
   */
  class Function {
    const id: nat
    var blocks: seq<Block>
    var activeBlock: nat
    var strComparisonIndex: Option<LocalValue>
    var nextId: nat
    ghost var all: seq<Block>

    constructor (id: nat)
      ensures this.id == id && blocks == [] && all == [] && activeBlock == 0
      ensures strComparisonIndex == None && Valid() && IdsUnique() && SlotsMade()
    {
      this.id := id;
      blocks, all := [], [];
      activeBlock, nextId := 0, 0;
      strComparisonIndex := None;
    }

    ghost predicate Owns(b: Block)
      reads this
    {
      b.rank < |all| && all[b.rank] == b && b.fn == this
    }

    /** The links of `b` agree with the links of its neighbours. */
    ghost predicate Linked(b: Block)
      requires b in all
      reads this, all
    {
      && Owns(b)
      && (b.parent == null ==> b.index < |blocks| && blocks[b.index] == b)
      && (b.parent != null ==> Owns(b.parent) && b.parent in all && b.parent.rank < b.rank && IsChild(b.parent, b))
      && (forall k :: 0 <= k < |b.children| ==> IsChildAt(b, k))
      && (b.prevBlock != null ==> Owns(b.prevBlock) && b.prevBlock.rank < b.rank)
      && (b.active.Some? ==> b.active.value < |b.children|)
    }

    ghost predicate IsChild(parent: Block, b: Block)
      requires parent in all
      reads this, all
    {
      b.index < |parent.children| && parent.children[b.index] == b
    }

    ghost predicate IsChildAt(parent: Block, k: nat)
      requires parent in all
      reads this, all
    {
      && k < |parent.children| && Owns(parent.children[k]) && parent.children[k] in all
      && parent.children[k].parent == parent && parent.children[k].index == k
      && parent.rank < parent.children[k].rank
    }

    ghost predicate IsRootAt(k: nat)
      reads this, all
    {
      && k < |blocks| && Owns(blocks[k]) && blocks[k] in all
      && blocks[k].parent == null && blocks[k].index == k
    }

    ghost predicate Valid()
      reads this, all
    {
      && (forall b {:trigger Linked(b)} :: b in all ==> Linked(b))
      && (forall k {:trigger IsRootAt(k)} :: 0 <= k < |blocks| ==> IsRootAt(k))
      && (all == [] ==> blocks == [] && activeBlock == 0)
      && (all != [] ==> activeBlock < |blocks| && blocks[0] == all[0])
      && (forall i, j :: 0 <= i < j < |all| ==> all[i].bb != all[j].bb)
    }

    /** The parent of a block, which was created before it. */
    ghost function ParentOf(b: Block): (parent: Block?)
      requires Valid() && Owns(b)
      reads this, all
      ensures b in all && parent == b.parent
      ensures parent != null ==> Owns(parent) && parent.rank < b.rank && IsChild(parent, b)
    {
      assert b in all && Linked(b);
      b.parent
    }

    /** The block in which code is being emitted. */
    function GetBlock(): (b: Block)
      requires Valid() && all != []
      reads this, all
      ensures Owns(b)
    {
      assert IsRootAt(activeBlock);
      blocks[activeBlock].GetActive()
    }

    /** Every local has an id of its own, and ids in use are below the counter. */
    ghost predicate IdsUnique()
      reads this, all
    {
      && (forall b, i :: b in all && 0 <= i < |b.values| ==> b.values[i].localId < nextId)
      && (forall b, c, i, j ::
            (b in all && c in all && 0 <= i < |b.values| && 0 <= j < |c.values| &&
             b.values[i].localId == c.values[j].localId) ==> b == c && i == j)
    }

    /**
     The slot of every local, and that of the index of text comparisons, is made by the leading
     allocas of the entry block.
     */
    ghost predicate SlotsMade()
      reads this, all, if all == [] then {} else {EntryBlock()}
    {
      if all == [] then strComparisonIndex == None
      else
        && AllocasFirst(EntryBlock().instrs)
        && (strComparisonIndex.Some? ==> strComparisonIndex.value.localId in Slots(EntryBlock().instrs))
        && (forall b, i :: b in all && 0 <= i < |b.values| ==> b.values[i].localId in Slots(EntryBlock().instrs))
    }

    /** Emission that appends ordinary instructions, and changes no local, keeps the slots. */
    twostate lemma StillSlotsMade()
      requires old(SlotsMade()) && all == old(all) && all != [] && strComparisonIndex == old(strComparisonIndex)
      requires forall b :: b in all ==> b.values == old(b.values)
      requires old(EntryBlock().instrs) <= EntryBlock().instrs
      requires forall i :: |old(EntryBlock().instrs)| <= i < |EntryBlock().instrs| ==> !EntryBlock().instrs[i].Alloca?
      ensures SlotsMade()
    {
      var was, code := old(EntryBlock().instrs), EntryBlock().instrs[|old(EntryBlock().instrs)|..];
      assert EntryBlock().instrs == was + code;
      AppendedKeepsSlots(was, code);
    }

    /** The ids of locals depend on nothing but the locals and the counter. */
    twostate lemma StillIdsUnique()
      requires old(IdsUnique()) && all == old(all) && nextId == old(nextId)
      requires forall b :: b in all ==> b.values == old(b.values)
      ensures IdsUnique()
    {
    }

    twostate lemma AddedKeepsIds(new b: Block)
      requires old(IdsUnique()) && all == old(all) + [b] && nextId == old(nextId) && b.values == []
      requires forall a :: a in old(all) ==> a.values == old(a.values)
      ensures IdsUnique()
    {
    }

    /** A block that has just been added has no locals, and its code is empty. */
    twostate lemma AddedKeepsSlots(new b: Block)
      requires old(SlotsMade()) && all == old(all) + [b] && strComparisonIndex == old(strComparisonIndex)
      requires b.values == [] && b.bb.instrs == []
      requires forall a :: a in old(all) ==> a.values == old(a.values)
      requires old(all) != [] ==> EntryBlock().instrs == old(EntryBlock().instrs)
      ensures SlotsMade()
    {
    }

    function GetFirstBlock(): Block
      requires Valid() && all != []
      reads this, all
    {
      blocks[0]
    }

    /** The basic block at which the function is entered is that of the block created first. */
    ghost function EntryBlock(): BasicBlock
      requires all != []
      reads this
    {
      all[0].bb
    }

    /** Places an alloca in the entry block, after the allocas that are already there. */
    method NewAlloca(slot: nat)
      requires Valid() && all != []
      modifies EntryBlock()`instrs
      ensures EntryBlock().instrs == WithAlloca(old(EntryBlock().instrs), slot)
    {
      var entry := blocks[0].bb;
      var instrs := entry.instrs;
      if instrs == [] {
        entry.instrs := [Alloca(slot)];
      } else {
        var i := 0;
        while i < |instrs| && instrs[i].Alloca?
          invariant i <= AllocaPrefix(instrs)
        {
          i := i + 1;
        }
        if i < |instrs| {
          entry.instrs := instrs[..i] + [Alloca(slot)] + instrs[i..];
        } else {
          entry.instrs := instrs + [Alloca(slot)];
        }
      }
    }

    /** The index local of text comparisons, which is made when it is first asked for. */
    method GetStrComparisonIndex() returns (local: LocalValue)
      requires Valid() && IdsUnique() && all != []
      modifies this`strComparisonIndex, this`nextId, GetFirstBlock()`values, EntryBlock()`instrs
      ensures Valid() && IdsUnique()
      ensures strComparisonIndex == Some(local)
      ensures old(SlotsMade()) ==> SlotsMade() && local.localId in Slots(EntryBlock().instrs)
      ensures old(strComparisonIndex).Some? ==>
        && local == old(strComparisonIndex).value && nextId == old(nextId)
        && EntryBlock().instrs == old(EntryBlock().instrs) && GetFirstBlock().values == old(GetFirstBlock().values)
      ensures old(strComparisonIndex).None? ==>
        && local.localId == old(nextId) && nextId == old(nextId) + 1
        && EntryBlock().instrs == WithAlloca(old(EntryBlock().instrs), local.localId)
        && GetFirstBlock().values == old(GetFirstBlock().values) + [local]
    {
      hide Valid, Linked, IdsUnique, SlotsMade;
      ActiveInRange(this);
      ShapeInRange(this);
      if strComparisonIndex.None? {
        var created := GetFirstBlock().NewLocal("qat'strCmpInd", LocalType(false, false, false, None));
        label made:
        strComparisonIndex := Some(created);
        SameShapeIsValid@made(this);
        IndexIsALocal@made(created);
      }
      local := strComparisonIndex.value;
      if SlotsMade() {
        IndexHasSlot();
      }
    }

    /** Remembering one of the locals as the index of text comparisons changes nothing about locals. */
    twostate lemma IndexIsALocal(new local: LocalValue)
      requires old(IdsUnique()) && all == old(all) && all != [] && nextId == old(nextId)
      requires strComparisonIndex == Some(local) && local in all[0].values
      requires forall b :: b in all ==> b.values == old(b.values)
      requires EntryBlock().instrs == old(EntryBlock().instrs)
      ensures IdsUnique()
      ensures old(SlotsMade()) ==> SlotsMade()
    {
      StillIdsUnique();
      assert all[0] in all;
    }

    lemma IndexHasSlot()
      requires SlotsMade() && strComparisonIndex.Some?
      ensures all != [] && strComparisonIndex.value.localId in Slots(EntryBlock().instrs)
    {
    }

    method SetActiveBlock(index: nat)
      modifies this`activeBlock
      ensures activeBlock == index
    {
      activeBlock := index;
    }
  }

  /** Changing active fields and links to earlier blocks keeps a function valid. */
  twostate lemma StillValid(fn: Function)
    requires old(fn.Valid()) && fn.all == old(fn.all) && fn.blocks == old(fn.blocks)
    requires fn.all == [] ==> fn.activeBlock == 0
    requires fn.all != [] ==> fn.activeBlock < |fn.blocks|
    requires forall b :: b in fn.all ==>
      && b.parent == old(b.parent) && b.children == old(b.children)
      && (b.prevBlock != null ==> fn.Owns(b.prevBlock) && b.prevBlock.rank < b.rank)
      && (b.active.Some? ==> b.active.value < |b.children|)
    ensures fn.Valid()
  {
    forall b | b in fn.all
      ensures fn.Linked(b)
    {
      assert old(fn.Linked(b));
      forall k | 0 <= k < |b.children|
        ensures fn.IsChildAt(b, k)
      {
        assert old(fn.IsChildAt(b, k));
      }
    }
    forall k | 0 <= k < |fn.blocks|
      ensures fn.IsRootAt(k)
    {
      assert old(fn.IsRootAt(k));
    }
  }

  /** Adding a block at the end of its siblings keeps a function valid. */
  twostate lemma AddedBlockIsLinked(fn: Function, new b: Block)
    requires old(fn.Valid())
    requires b.fn == fn && b.rank == |old(fn.all)| && fn.all == old(fn.all) + [b]
    requires b.children == [] && b.active == None && b.prevBlock == null
    requires forall a :: a in old(fn.all) ==> a != b && a.bb != b.bb
    requires forall a :: a in old(fn.all) ==>
      a.parent == old(a.parent) && a.active == old(a.active) && a.prevBlock == old(a.prevBlock)
    requires forall a :: a in old(fn.all) ==>
      a.children == if a == b.parent then old(a.children) + [b] else old(a.children)
    requires b.parent == null ==> fn.blocks == old(fn.blocks) + [b] && b.index == |old(fn.blocks)|
    requires b.parent != null ==> fn.blocks == old(fn.blocks) && b.parent in old(fn.all)
    requires forall a :: a in old(fn.all) && a == b.parent ==> b.index == |old(a.children)|
    requires fn.activeBlock == old(fn.activeBlock) && (old(fn.all) == [] ==> b.parent == null)
    ensures fn.Valid()
  {
    forall a | a in fn.all
      ensures fn.Linked(a)
    {
      if a != b {
        assert old(fn.Linked(a));
        forall k | 0 <= k < |a.children|
          ensures fn.IsChildAt(a, k)
        {
          if k < |old(a.children)| {
            assert old(fn.IsChildAt(a, k));
          }
        }
      } else if b.parent != null {
        var p: Block := b.parent;
        assert old(fn.Linked(p));
      }
    }
    forall k | 0 <= k < |fn.blocks|
      ensures fn.IsRootAt(k)
    {
      if k < |old(fn.blocks)| {
        assert old(fn.IsRootAt(k));
      }
    }
  }

  /** Nothing but active fields has changed, and they still point to children. */
  twostate predicate SameShape(fn: Function)
    reads fn, fn.all
  {
    && fn.all == old(fn.all) && fn.blocks == old(fn.blocks)
    && (fn.all == [] ==> fn.activeBlock == 0)
    && (fn.all != [] ==> fn.activeBlock < |fn.blocks|)
    && (forall b :: b in fn.all ==>
          && b.parent == old(b.parent) && b.children == old(b.children)
          && b.prevBlock == old(b.prevBlock)
          && (b.active.Some? ==> b.active.value < |b.children|))
  }

  lemma ActiveInRange(fn: Function)
    requires fn.Valid()
    ensures forall b :: b in fn.all && b.active.Some? ==> b.active.value < |b.children|
    ensures forall b :: b in fn.all && b.parent == null ==> b.index < |fn.blocks|
  {
    forall b | b in fn.all
      ensures fn.Linked(b)
    {
    }
  }

  lemma ShapeInRange(fn: Function)
    requires fn.Valid()
    ensures fn.all == [] ==> fn.activeBlock == 0
    ensures fn.all != [] ==> fn.activeBlock < |fn.blocks|
    ensures fn.all != [] ==> fn.GetFirstBlock() == fn.all[0] && fn.Owns(fn.GetFirstBlock())
  {
    assert fn.all != [] ==> fn.IsRootAt(0);
  }

  twostate lemma SameShapeIsValid(fn: Function)
    requires old(fn.Valid()) && SameShape(fn)
    ensures fn.Valid()
  {
    forall b | b in fn.all
      ensures old(fn.Linked(b))
    {
    }
    StillValid(fn);
  }

  lemma {:induction false} PathGoesUp(fn: Function, b: Block, a: Block)
    requires fn.Valid() && fn.Owns(b) && a in b.PathToRoot()
    ensures fn.Owns(a) && a.rank <= b.rank
    decreases b.rank
  {
    assert b in fn.all && fn.Linked(b);
    if b.parent != null && a != b {
      PathGoesUp(fn, b.parent, a);
    }
  }

  class Block {
    const fn: Function
    const bb: BasicBlock
    const index: nat
    var parent: Block?
    var children: seq<Block>
    var active: Option<nat>
    var values: seq<LocalValue>
    var prevBlock: Block?
    var nextBlock: Block?
    ghost const rank: nat

    constructor (fn: Function, parent: Block?)
      requires fn.Valid() && (parent != null ==> fn.Owns(parent))
      requires fn.all == [] ==> parent == null
      modifies fn`blocks, fn`all, (if parent == null then {} else {parent})`children
      ensures fn.Valid() && fn.all == old(fn.all) + [this] && rank == |old(fn.all)|
      ensures this.fn == fn && this.parent == parent && fresh(bb) && bb.instrs == []
      ensures children == [] && active == None && values == []
      ensures prevBlock == null && nextBlock == null
      ensures old(fn.IdsUnique()) ==> fn.IdsUnique()
      ensures old(fn.SlotsMade()) ==> fn.SlotsMade()
      ensures parent == null ==> fn.blocks == old(fn.blocks) + [this]
      ensures parent != null ==>
        fn.blocks == old(fn.blocks) && parent.children == old(parent.children) + [this]
    {
      hide Function.Valid, Function.Linked, Function.IdsUnique, Function.SlotsMade;
      this.fn, this.parent := fn, parent;
      children, active, values := [], None, [];
      prevBlock, nextBlock := null, null;
      rank := |fn.all|;
      index := if parent != null then |parent.children| else |fn.blocks|;
      bb := new BasicBlock();
      new;
      if parent != null {
        parent.children := parent.children + [this];
      } else {
        fn.blocks := fn.blocks + [this];
      }
      fn.all := fn.all + [this];
      AddedBlockIsLinked(fn, this);
      if old(fn.IdsUnique()) {
        fn.AddedKeepsIds(this);
      }
      if old(fn.SlotsMade()) {
        fn.AddedKeepsSlots(this);
      }
    }

    function GetActive(): (b: Block)
      requires fn.Valid() && fn.Owns(this)
      reads fn, fn.all
      ensures fn.Owns(b)
      decreases |fn.all| - rank
    {
      assert this in fn.all && fn.Linked(this);
      if active.Some? then
        assert fn.IsChildAt(this, active.value);
        children[active.value].GetActive()
      else this
    }

    /** The blocks from the root of the tree down to this one. */
    ghost function PathToRoot(): set<Block>
      requires fn.Valid() && fn.Owns(this)
      reads fn, fn.all
      decreases rank
    {
      var p := fn.ParentOf(this);
      if p == null then {this} else p.PathToRoot() + {this}
    }

    /** The active fields from the root lead to this block. */
    ghost predicate OnActivePath()
      requires fn.Valid() && fn.Owns(this)
      reads fn, fn.all
      decreases rank
    {
      var p := fn.ParentOf(this);
      && (p == null ==> fn.activeBlock == index)
      && (p != null ==> p.active == Some(index) && p.OnActivePath())
    }

    /** Whether a block is on the active path depends on the blocks above it only. */
    twostate lemma {:induction false} SameActivePath()
      requires old(fn.Valid()) && SameShape(fn) && old(fn.Owns(this))
      requires fn.activeBlock == old(fn.activeBlock)
      requires forall a :: a in fn.all && a.rank < rank ==> a.active == old(a.active)
      requires old(OnActivePath())
      ensures fn.Valid()
      ensures OnActivePath()
      decreases rank
    {
      SameShapeIsValid(fn);
      var p := old(fn.ParentOf(this));
      if p != null {
        p.SameActivePath();
      }
    }

    /** The path to the root depends on parent links only. */
    twostate lemma {:induction false} SamePathToRoot()
      requires old(fn.Valid()) && SameShape(fn) && old(fn.Owns(this))
      ensures fn.Valid()
      ensures PathToRoot() == old(PathToRoot())
      decreases rank
    {
      SameShapeIsValid(fn);
      var p := old(fn.ParentOf(this));
      if p != null {
        p.SamePathToRoot();
      }
    }

    /** Ids stay unique when a block gets a local with the next one. */
    twostate lemma NewLocalKeepsIds(new local: LocalValue)
      requires old(fn.IdsUnique()) && this in fn.all && fn.all == old(fn.all)
      requires values == old(values) + [local]
      requires local.localId == old(fn.nextId) && fn.nextId == old(fn.nextId) + 1
      requires forall b :: b in fn.all && b != this ==> b.values == old(b.values)
      ensures fn.IdsUnique()
    {
      assert forall i :: 0 <= i < |values| - 1 ==> values[i] == old(values)[i];
    }

    twostate lemma NewLocalKeepsSlots(new local: LocalValue)
      requires old(fn.SlotsMade()) && this in fn.all && fn.all == old(fn.all)
      requires fn.strComparisonIndex == old(fn.strComparisonIndex)
      requires values == old(values) + [local]
      requires fn.EntryBlock().instrs == WithAlloca(old(fn.EntryBlock().instrs), local.localId)
      requires forall b :: b in fn.all && b != this ==> b.values == old(b.values)
      ensures fn.SlotsMade()
    {
      hide WithAlloca, AllocasFirst, Slots;
      PlacingKeepsAllocasFirst(old(fn.EntryBlock().instrs), local.localId);
      PlacedSlot(old(fn.EntryBlock().instrs), local.localId);
      assert forall i :: 0 <= i < |values| - 1 ==> values[i] == old(values)[i];
    }

    method NewLocal(name: string, ty: LocalType) returns (local: LocalValue)
      requires fn.Valid() && fn.Owns(this) && fn.IdsUnique()
      modifies this`values, fn`nextId, fn.EntryBlock()`instrs
      ensures fn.Valid() && fn.IdsUnique()
      ensures old(fn.SlotsMade()) ==> fn.SlotsMade()
      ensures local == LocalValue(name, old(fn.nextId), ty) && fn.nextId == old(fn.nextId) + 1
      ensures values == old(values) + [local]
      ensures fn.EntryBlock().instrs == WithAlloca(old(fn.EntryBlock().instrs), local.localId)
    {
      hide Function.Valid, Function.Linked, Function.IdsUnique, Function.SlotsMade, WithAlloca;
      ActiveInRange(fn);
      ShapeInRange(fn);
      local := LocalValue(name, fn.nextId, ty);
      fn.NewAlloca(local.localId);
      values := values + [local];
      fn.nextId := fn.nextId + 1;
      SameShapeIsValid(fn);
      NewLocalKeepsIds(local);
      if old(fn.SlotsMade()) {
        NewLocalKeepsSlots(local);
      }
    }

    /** Whether a local with this name is in scope. */
    predicate HasValue(name: string)
      requires fn.Valid() && fn.Owns(this)
      reads fn, fn.all
      decreases rank
    {
      assert this in fn.all && fn.Linked(this);
      || (exists i :: 0 <= i < |values| && values[i].name == name)
      || (prevBlock != null && prevBlock.HasValue(name))
      || (parent != null && parent.HasValue(name))
    }

    /** The local that a name refers to. */
    function GetValue(name: string): Option<LocalValue>
      requires fn.Valid() && fn.Owns(this)
      reads fn, fn.all
      decreases rank
    {
      assert this in fn.all && fn.Linked(this);
      if FirstNamed(values, name).Some? then FirstNamed(values, name)
      else if prevBlock != null && prevBlock.HasValue(name) then prevBlock.GetValue(name)
      else if parent != null then parent.GetValue(name)
      else None
    }

    /** `vals` with the locals in scope added, outermost first and each id once. */
    ghost function Collected(vals: seq<LocalValue>): seq<LocalValue>
      requires fn.Valid() && fn.Owns(this)
      reads fn, fn.all
      decreases rank
    {
      assert this in fn.all && fn.Linked(this);
      var fromParent := if parent != null then parent.Collected(vals) else vals;
      var fromPrevious := if prevBlock != null then prevBlock.Collected(fromParent) else fromParent;
      AddNew(fromPrevious, values)
    }

    lemma PreviousIsEarlier()
      requires fn.Valid() && fn.Owns(this) && prevBlock != null
      ensures fn.Owns(prevBlock) && prevBlock.rank < rank
    {
      assert this in fn.all && fn.Linked(this);
    }

    method CollectAllLocalValuesSoFar(vals: seq<LocalValue>) returns (collected: seq<LocalValue>)
      requires fn.Valid() && fn.Owns(this)
      ensures collected == Collected(vals)
      decreases rank
    {
      hide Function.Valid, Function.Linked, AddNew;
      ghost var above := fn.ParentOf(this);
      collected := vals;
      if parent != null {
        collected := parent.CollectAllLocalValuesSoFar(collected);
      }
      if prevBlock != null {
        PreviousIsEarlier();
        collected := prevBlock.CollectAllLocalValuesSoFar(collected);
      }
      collected := AddLocals(collected, values);
    }

    /** Linking to an earlier block keeps the function valid. */
    twostate lemma LinkedToEarlier(new block: Block)
      requires old(fn.Valid()) && fn.all == old(fn.all) && fn.blocks == old(fn.blocks)
      requires fn.activeBlock == old(fn.activeBlock)
      requires this in fn.all && fn.Owns(block) && block.rank < rank && prevBlock == block
      requires forall b :: b in fn.all ==>
        b.parent == old(b.parent) && b.children == old(b.children) && b.active == old(b.active)
      requires forall b :: b in fn.all && b != this ==> b.prevBlock == old(b.prevBlock)
      ensures fn.Valid()
    {
      forall b | b in fn.all
        ensures old(fn.Linked(b))
      {
      }
      StillValid(fn);
    }

    /** Any block can be linked; the function stays well formed exactly if that block is an earlier one. */
    method LinkPreviousBlock(block: Block)
      requires fn.Valid() && fn.Owns(this) && fn.Owns(block)
      modifies this`prevBlock, block`nextBlock
      ensures prevBlock == block && block.nextBlock == this
      ensures fn.Valid() <==> block.rank < rank
      ensures old(fn.IdsUnique()) ==> fn.IdsUnique()
      ensures old(fn.SlotsMade()) ==> fn.SlotsMade()
    {
      hide Function.Valid, Function.Linked, Function.IdsUnique, Function.SlotsMade;
      prevBlock := block;
      block.nextBlock := this;
      if fn.Valid() {
        PreviousIsEarlier();
      }
      if block.rank < rank {
        LinkedToEarlier(block);
      }
      if old(fn.IdsUnique()) {
        fn.StillIdsUnique();
      }
      if old(fn.SlotsMade()) {
        fn.StillSlotsMade();
      }
    }

    /** Makes this block the one in which code is emitted, and lets the builder append to it. */
    method SetActive(builder: IRBuilder)
      requires fn.Valid() && fn.Owns(this)
      modifies fn`activeBlock, fn.all`active, builder`insertBlock
      ensures fn.Valid() && OnActivePath() && active == None
      ensures fn.GetBlock() == this && builder.insertBlock == bb
      ensures old(fn.IdsUnique()) ==> fn.IdsUnique()
      ensures old(fn.SlotsMade()) ==> fn.SlotsMade()
      ensures forall b :: b in fn.all && b !in old(PathToRoot()) ==> b.active == old(b.active)
      decreases rank
    {
      hide Function.Valid, Function.Linked, OnActivePath, PathToRoot, GetActive, Function.GetBlock,
           Function.IdsUnique, Function.SlotsMade;
      ghost var p := fn.ParentOf(this);
      OnOwnPath();
      ClearActive();
      if parent != null {
        parent.SetActive(builder);
        ActivateChild();
      } else {
        ActivateRoot();
      }
      builder.SetInsertPoint(bb);
      ActivePathLeadsHere();
      if old(fn.IdsUnique()) {
        fn.StillIdsUnique();
      }
      if old(fn.SlotsMade()) {
        fn.StillSlotsMade();
      }
    }

    method ClearActive()
      requires fn.Valid() && fn.Owns(this)
      modifies this`active
      ensures fn.Valid() && active == None
      ensures parent != null ==> fn.Owns(parent) && parent.PathToRoot() == old(parent.PathToRoot())
    {
      ghost var p := fn.ParentOf(this);
      ActiveInRange(fn);
      active := None;
      SameShapeIsValid(fn);
      if parent != null {
        parent.SamePathToRoot();
      }
    }

    /** Makes this root the active one. */
    method ActivateRoot()
      requires fn.Valid() && fn.Owns(this) && parent == null
      modifies fn`activeBlock
      ensures fn.Valid() && OnActivePath()
    {
      ghost var p := fn.ParentOf(this);
      ActiveInRange(fn);
      fn.SetActiveBlock(index);
      SameShapeIsValid(fn);
    }

    /** The active path leads to the active block of every block on it. */
    lemma {:induction false} ActivePathLeadsHere()
      requires fn.Valid() && fn.Owns(this) && OnActivePath()
      ensures fn.all != [] && fn.GetBlock() == GetActive()
      ensures active == None ==> fn.GetBlock() == this
      decreases rank
    {
      var p := fn.ParentOf(this);
      if p != null {
        p.ActivePathLeadsHere();
      } else {
        assert fn.Linked(this);
      }
    }

    lemma OnOwnPath()
      requires fn.Valid() && fn.Owns(this)
      ensures this in PathToRoot()
      ensures fn.ParentOf(this) != null ==>
        fn.ParentOf(this) in fn.ParentOf(this).PathToRoot()
      ensures fn.ParentOf(this) != null ==>
        PathToRoot() == fn.ParentOf(this).PathToRoot() + {this} &&
        this !in fn.ParentOf(this).PathToRoot()
    {
      var p := fn.ParentOf(this);
      if p != null && this in p.PathToRoot() {
        PathGoesUp(fn, p, this);
      }
    }

    /** Makes this block the active child of its parent, which is the end of the active path. */
    method ActivateChild()
      requires fn.Valid() && fn.Owns(this) && parent != null && fn.Owns(parent)
      requires parent.OnActivePath()
      modifies parent`active
      ensures fn.Valid() && OnActivePath() && parent.active == Some(index)
    {
      ghost var p := fn.ParentOf(this);
      ActiveInRange(fn);
      parent.active := Some(index);
      parent.SameActivePath();
    }
  }
}
