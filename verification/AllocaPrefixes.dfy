/** Allocas stay in front: what the placement of allocas keeps in the entry block of a function. */
module AllocaPrefixes {
  import opened Ir

  /** The number of leading allocas of a block. */
  function AllocaPrefix<B>(instrs: seq<Instr<B>>): (n: nat)
    ensures n <= |instrs|
    ensures forall i :: 0 <= i < n ==> instrs[i].Alloca?
    ensures n < |instrs| ==> !instrs[n].Alloca?
  {
    if instrs == [] || !instrs[0].Alloca? then 0 else 1 + AllocaPrefix(instrs[1..])
  }

  /** A block in which an alloca for `slot` has been placed before everything that is not one. */
  function WithAlloca<B>(instrs: seq<Instr<B>>, slot: nat): seq<Instr<B>> {
    var n := AllocaPrefix(instrs);
    instrs[..n] + [Alloca(slot)] + instrs[n..]
  }

  /** No alloca comes after an instruction that is not one. */
  ghost predicate AllocasFirst<B>(instrs: seq<Instr<B>>) {
    forall i, j :: 0 <= i < j < |instrs| && instrs[j].Alloca? ==> instrs[i].Alloca?
  }

  /** The slots that the allocas of a block make. */
  function Slots<B>(instrs: seq<Instr<B>>): set<nat> {
    set i | 0 <= i < |instrs| && instrs[i].Alloca? :: instrs[i].slot
  }

  /** What can happen to the entry block while a function is emitted. */
  datatype Event<B> = PlaceAlloca(slot: nat) | Append(instr: Instr<B>)

  ghost predicate Ordinary<B>(events: seq<Event<B>>) {
    forall i :: 0 <= i < |events| && events[i].Append? ==> !events[i].instr.Alloca?
  }

  function ApplyOne<B>(instrs: seq<Instr<B>>, event: Event<B>): seq<Instr<B>> {
    match event
    case PlaceAlloca(slot) => WithAlloca(instrs, slot)
    case Append(instr) => instrs + [instr]
  }

  function Apply<B>(instrs: seq<Instr<B>>, events: seq<Event<B>>): seq<Instr<B>>
    decreases |events|
  {
    if events == [] then instrs else Apply(ApplyOne(instrs, events[0]), events[1..])
  }

  /** `part` can be found in `whole`, in order, at the positions `at`. */
  ghost predicate Embeds<B>(part: seq<Instr<B>>, whole: seq<Instr<B>>, at: seq<nat>) {
    && |at| == |part|
    && (forall i :: 0 <= i < |at| ==> at[i] < |whole| && whole[at[i]] == part[i])
    && (forall i, j :: 0 <= i < j < |at| ==> at[i] < at[j])
  }

  lemma AllocaPrefixIsMaximal<B>(instrs: seq<Instr<B>>)
    requires AllocasFirst(instrs)
    ensures forall i :: AllocaPrefix(instrs) <= i < |instrs| ==> !instrs[i].Alloca?
  {
    var n := AllocaPrefix(instrs);
    assert forall i :: n < i < |instrs| && instrs[i].Alloca? ==> instrs[n].Alloca?;
  }

  lemma PlacingKeepsAllocasFirst<B>(instrs: seq<Instr<B>>, slot: nat)
    requires AllocasFirst(instrs)
    ensures AllocasFirst(WithAlloca(instrs, slot))
    ensures WithAlloca(instrs, slot)[AllocaPrefix(instrs)] == Alloca(slot)
  {
    AllocaPrefixIsMaximal(instrs);
    var n := AllocaPrefix(instrs);
    var placed := WithAlloca(instrs, slot);
    assert forall j :: n < j < |placed| ==> placed[j] == instrs[j - 1];
    assert forall i :: 0 <= i < n ==> placed[i] == instrs[i];
  }

  lemma PlacedSlot<B>(instrs: seq<Instr<B>>, slot: nat)
    ensures forall s :: s in Slots(WithAlloca(instrs, slot)) <==> s in Slots(instrs) || s == slot
  {
    var n := AllocaPrefix(instrs);
    var placed := WithAlloca(instrs, slot);
    forall s | s in Slots(instrs) || s == slot
      ensures s in Slots(placed)
    {
      if s in Slots(instrs) {
        var i :| 0 <= i < |instrs| && instrs[i].Alloca? && instrs[i].slot == s;
        assert placed[if i < n then i else i + 1] == instrs[i];
      } else {
        assert placed[n] == Alloca(slot);
      }
    }
    forall s | s in Slots(placed)
      ensures s in Slots(instrs) || s == slot
    {
      var i :| 0 <= i < |placed| && placed[i].Alloca? && placed[i].slot == s;
      if i != n {
        assert placed[i] == instrs[if i < n then i else i - 1];
      }
    }
  }

  lemma {:induction false} PlacingEmbeds<B>(instrs: seq<Instr<B>>, slot: nat) returns (at: seq<nat>)
    ensures Embeds(instrs, WithAlloca(instrs, slot), at)
  {
    var n := AllocaPrefix(instrs);
    at := seq(|instrs|, i requires 0 <= i < |instrs| => if i < n then i else i + 1);
  }

  lemma EmbedsTransitive<B>(
      a: seq<Instr<B>>, b: seq<Instr<B>>, c: seq<Instr<B>>, ab: seq<nat>, bc: seq<nat>)
    returns (ac: seq<nat>)
    requires Embeds(a, b, ab) && Embeds(b, c, bc)
    ensures Embeds(a, c, ac)
  {
    ac := seq(|a|, i requires 0 <= i < |a| => bc[ab[i]]);
  }

  /**
   However placements of allocas and other emission interleave, the entry block stays a run of
   allocas followed by other instructions, and what was in it keeps its relative order.
   */
  lemma {:induction false} EntryBlockStaysOrdered<B>(instrs: seq<Instr<B>>, events: seq<Event<B>>)
    returns (at: seq<nat>)
    requires AllocasFirst(instrs) && Ordinary(events)
    ensures AllocasFirst(Apply(instrs, events))
    ensures Embeds(instrs, Apply(instrs, events), at)
    decreases |events|
  {
    if events == [] {
      at := seq(|instrs|, i => i);
    } else {
      var next := ApplyOne(instrs, events[0]);
      var first := seq(|instrs|, i => i);
      if events[0].PlaceAlloca? {
        PlacingKeepsAllocasFirst(instrs, events[0].slot);
        first := PlacingEmbeds(instrs, events[0].slot);
      }
      var rest := EntryBlockStaysOrdered(next, events[1..]);
      at := EmbedsTransitive(instrs, next, Apply(instrs, events), first, rest);
    }
  }

  /** The leading allocas of the entry block run first, and make their slots. */
  lemma {:induction false} AllocasRunFirst<B>(code: Code<B>, entry: B, m: Machine<B>, n: nat)
    requires entry in code && AllocasFirst(code[entry]) && n <= AllocaPrefix(code[entry])
    requires m.Running? && m.block == entry && m.pc == 0
    ensures var m' := Steps(code, m, n);
      && m'.Running? && m'.block == entry && m'.pc == n
      && Slots(code[entry][..n]) <= m'.slots.Keys
  {
    if n == 0 {
      assert Slots(code[entry][..0]) == {};
    } else {
      AllocasRunFirst(code, entry, m, n - 1);
      StepsCompose(code, m, n - 1, 1);
      var before := Steps(code, m, n - 1);
      var after := Step(code, before);
      assert Steps(code, before, 1) == Steps(code, after, 0);
      var instrs := code[entry];
      forall s | s in Slots(instrs[..n])
        ensures s in after.slots
      {
        var i :| 0 <= i < n && instrs[..n][i].Alloca? && instrs[..n][i].slot == s;
        if i < n - 1 {
          assert instrs[..n - 1][i] == instrs[..n][i];
          assert s in Slots(instrs[..n - 1]);
        }
      }
    }
  }

  lemma AllSlotsAreInPrefix<B>(instrs: seq<Instr<B>>)
    requires AllocasFirst(instrs)
    ensures Slots(instrs[..AllocaPrefix(instrs)]) == Slots(instrs)
  {
    AllocaPrefixIsMaximal(instrs);
    var n := AllocaPrefix(instrs);
    forall s | s in Slots(instrs)
      ensures s in Slots(instrs[..n])
    {
      var i :| 0 <= i < |instrs| && instrs[i].Alloca? && instrs[i].slot == s;
      assert instrs[..n][i] == instrs[i];
    }
    forall s | s in Slots(instrs[..n])
      ensures s in Slots(instrs)
    {
      var i :| 0 <= i < n && instrs[..n][i].Alloca? && instrs[..n][i].slot == s;
      assert instrs[i].slot == s;
    }
  }

  /** No instruction takes a slot away. */
  lemma StepKeepsSlots<B>(code: Code<B>, m: Machine<B>)
    requires Step(code, m).Running?
    ensures m.Running? && m.slots.Keys <= Step(code, m).slots.Keys
  {
  }

  lemma {:induction false} SlotsStay<B>(code: Code<B>, m: Machine<B>, n: nat)
    requires Steps(code, m, n).Running?
    ensures m.Running? && m.slots.Keys <= Steps(code, m, n).slots.Keys
    decreases n
  {
    hide Step;
    if n > 0 {
      SlotsStay(code, Step(code, m), n - 1);
      StepKeepsSlots(code, m);
    }
  }

  /**
   The entry block dominates: in every run from the start of a function, at every point that is not
   one of the leading allocas, all slots of the entry block are there.
   */
  lemma {:induction false} SlotsDominate<B>(code: Code<B>, entry: B, m: Machine<B>, k: nat)
    requires entry in code && AllocasFirst(code[entry])
    requires m.Running? && m.block == entry && m.pc == 0
    requires var m' := Steps(code, m, k);
      && m'.Running?
      && (k >= AllocaPrefix(code[entry]) || m'.block != entry || m'.pc >= AllocaPrefix(code[entry]))
    ensures Slots(code[entry]) <= Steps(code, m, k).slots.Keys
  {
    hide Steps, AllocaPrefix, Slots, AllocasFirst;
    var n := AllocaPrefix(code[entry]);
    if k < n {
      AllocasRunFirst(code, entry, m, k);
    } else {
      AllocasRunFirst(code, entry, m, n);
      AllSlotsAreInPrefix(code[entry]);
      StepsCompose(code, m, n, k - n);
      SlotsStay(code, Steps(code, m, n), k - n);
    }
  }

  /** What is emitted later takes no slot away from the entry block. */
  lemma {:induction false} LaterEmissionKeepsSlots<B>(instrs: seq<Instr<B>>, events: seq<Event<B>>)
    ensures Slots(instrs) <= Slots(Apply(instrs, events))
    decreases |events|
  {
    if events != [] {
      OneEventKeepsSlots(instrs, events[0]);
      LaterEmissionKeepsSlots(ApplyOne(instrs, events[0]), events[1..]);
    }
  }

  lemma OneEventKeepsSlots<B>(instrs: seq<Instr<B>>, event: Event<B>)
    ensures Slots(instrs) <= Slots(ApplyOne(instrs, event))
  {
    match event {
      case PlaceAlloca(slot) => PlacedSlot(instrs, slot);
      case Append(instr) =>
        forall s | s in Slots(instrs)
          ensures s in Slots(instrs + [instr])
        {
          var i :| 0 <= i < |instrs| && instrs[i].Alloca? && instrs[i].slot == s;
          assert (instrs + [instr])[i] == instrs[i];
        }
    }
  }

  /** Instructions that are not allocas change nothing about slots. */
  lemma AppendedKeepsSlots<B>(instrs: seq<Instr<B>>, code: seq<Instr<B>>)
    requires AllocasFirst(instrs) && forall i :: 0 <= i < |code| ==> !code[i].Alloca?
    ensures AllocasFirst(instrs + code) && Slots(instrs) <= Slots(instrs + code)
  {
    forall s | s in Slots(instrs)
      ensures s in Slots(instrs + code)
    {
      var i :| 0 <= i < |instrs| && instrs[i].Alloca? && instrs[i].slot == s;
      assert (instrs + code)[i] == instrs[i];
    }
  }
}
