/** The free list: a stack of blocks, each naming the one below it in slot 0 and other
    free blocks in its remaining slots. */
module FreeList {
  import opened Blocks
  import opened Index
  import opened TreeLayout

  /** Where the superblock and the inode blocks are. */
  ghost predicate Layout(d: seq<Block>, owner: seq<Owner>) {
    && 1 <= |d| == |owner| <= WORD_LIMIT
    && R >= 2
    && 1 + d[0][0] <= |d|
    && (forall c :: 0 <= c < |d| ==> (owner[c] == Super <==> c == 0))
    && (forall c :: 0 <= c < |d| ==> (owner[c] == Inodes <==> 1 <= c <= d[0][0]))
    && (forall c :: 0 <= c < |d| && owner[c].Node? ==> owner[c].ino < NInodes(d))
  }

  /** chain lists the blocks of the free list from the last to the first. */
  ghost predicate ChainOk(d: seq<Block>, owner: seq<Owner>, chain: seq<nat>)
    requires Layout(d, owner)
  {
    && d[0][1] == (if chain == [] then 0 else chain[|chain| - 1])
    && (forall j :: 0 <= j < |chain| ==>
          0 < chain[j] < |d| && owner[chain[j]] == FreeList(j)
          && d[chain[j]][0] == (if j == 0 then 0 else chain[j - 1]))
    && (forall c :: 0 <= c < |d| && owner[c].FreeList? ==> owner[c].j < |chain| && chain[owner[c].j] == c)
  }

  ghost predicate SlotsOk(d: seq<Block>, owner: seq<Owner>, chain: seq<nat>)
    requires Layout(d, owner) && ChainOk(d, owner, chain)
  {
    && (forall j, i :: 0 <= j < |chain| && 1 <= i < R && d[chain[j]][i] != 0 ==>
          d[chain[j]][i] < |d| && owner[d[chain[j]][i]] == FreeSlot(j, i))
    && (forall c :: 0 <= c < |d| && owner[c].FreeSlot? ==>
          owner[c].j < |chain| && 1 <= owner[c].i < R && d[chain[owner[c].j]][owner[c].i] == c)
  }

  ghost predicate FreeInv(d: seq<Block>, owner: seq<Owner>, chain: seq<nat>) {
    Layout(d, owner) && ChainOk(d, owner, chain) && SlotsOk(d, owner, chain)
  }

  /** The free blocks. */
  ghost function FreeSet(owner: seq<Owner>): set<nat> {
    set c: nat | c < |owner| && IsFree(owner[c])
  }

  /** Blocks other than the superblock and the free ones keep their contents. */
  ghost predicate OnlyFreeChanged(d: seq<Block>, d': seq<Block>, owner: seq<Owner>)
    requires |owner| == |d|
  {
    && |d'| == |d| >= 1
    && d'[0][0] == d[0][0]
    && (forall c :: 0 <= c < |d| && owner[c] != Super && !IsFree(owner[c]) ==> d'[c] == d[c])
  }

  /** What may happen to the owners of blocks that are not part of the free list. */
  ghost predicate OnlyNodesChanged(owner: seq<Owner>, owner': seq<Owner>, ninodes: nat) {
    && |owner'| == |owner|
    && forall c :: 0 <= c < |owner| && owner'[c] != owner[c] ==>
         && (owner[c].Node? || owner[c].Taken?)
         && (owner'[c].Taken? || (owner'[c].Node? && owner'[c].ino < ninodes))
  }

  /** A change that leaves the superblock and the free list blocks alone. */
  lemma FreeFrame(d: seq<Block>, d': seq<Block>, owner: seq<Owner>, owner': seq<Owner>, chain: seq<nat>)
    requires FreeInv(d, owner, chain) && |d'| == |d|
    requires d'[0] == d[0]
    requires forall c :: 0 <= c < |d| && owner[c].FreeList? ==> d'[c] == d[c]
    requires OnlyNodesChanged(owner, owner', NInodes(d))
    ensures FreeInv(d', owner', chain)
    ensures FreeSet(owner') == FreeSet(owner)
  {
    FrameChain(d, d', owner, owner', chain);
    FrameSlots(d, d', owner, owner', chain);
  }

  lemma FrameChain(d: seq<Block>, d': seq<Block>, owner: seq<Owner>, owner': seq<Owner>, chain: seq<nat>)
    requires FreeInv(d, owner, chain) && |d'| == |d|
    requires d'[0] == d[0]
    requires forall c :: 0 <= c < |d| && owner[c].FreeList? ==> d'[c] == d[c]
    requires OnlyNodesChanged(owner, owner', NInodes(d))
    ensures Layout(d', owner') && ChainOk(d', owner', chain)
  {}

  lemma FrameSlots(d: seq<Block>, d': seq<Block>, owner: seq<Owner>, owner': seq<Owner>, chain: seq<nat>)
    requires FreeInv(d, owner, chain) && Layout(d', owner') && ChainOk(d', owner', chain) && |d'| == |d|
    requires forall c :: 0 <= c < |d| && owner[c].FreeList? ==> d'[c] == d[c]
    requires OnlyNodesChanged(owner, owner', NInodes(d))
    ensures SlotsOk(d', owner', chain)
  {}

  // ----- Allocation -----

  /** Slot i of the first block b of the free list named f; now it names f' and f has owner o'. */
  ghost predicate SlotChange(d: seq<Block>, d': seq<Block>, owner: seq<Owner>, owner': seq<Owner>,
                             chain: seq<nat>, b: nat, i: nat, u: Word, t: nat)
    requires FreeInv(d, owner, chain)
  {
    && chain != [] && b == chain[|chain| - 1] && 1 <= i < R
    && |d'| == |d| && |owner'| == |owner|
    && 0 < t < |d| && t != b
    && d'[b] == d[b][i := u]
    && (forall c :: 0 <= c < |d| && c != b && c != t ==> d'[c] == d[c])
    && (forall c :: 0 <= c < |d| && c != t ==> owner'[c] == owner[c])
  }

  lemma SlotChangeChain(d: seq<Block>, d': seq<Block>, owner: seq<Owner>, owner': seq<Owner>,
                        chain: seq<nat>, b: nat, i: nat, u: Word, t: nat)
    requires FreeInv(d, owner, chain) && SlotChange(d, d', owner, owner', chain, b, i, u, t)
    requires owner[t] == FreeSlot(|chain| - 1, i) || CanFree(owner, t)
    requires owner'[t] == FreeSlot(|chain| - 1, i) || owner'[t] == Taken
    ensures Layout(d', owner') && ChainOk(d', owner', chain)
  {
    assert forall j :: 0 <= j < |chain| ==> chain[j] != t;
  }

  lemma SlotTaken(d: seq<Block>, d': seq<Block>, owner: seq<Owner>, owner': seq<Owner>,
                  chain: seq<nat>, b: nat, i: nat, f: nat)
    requires FreeInv(d, owner, chain) && SlotChange(d, d', owner, owner', chain, b, i, 0, f)
    requires Layout(d', owner') && ChainOk(d', owner', chain)
    requires owner[f] == FreeSlot(|chain| - 1, i) && owner'[f] == Taken
    ensures SlotsOk(d', owner', chain)
  {
    assert forall j :: 0 <= j < |chain| && chain[j] != b ==> d'[chain[j]] == d[chain[j]];
  }

  lemma SlotFilled(d: seq<Block>, d': seq<Block>, owner: seq<Owner>, owner': seq<Owner>,
                   chain: seq<nat>, b: nat, i: nat, t: Word)
    requires FreeInv(d, owner, chain) && SlotChange(d, d', owner, owner', chain, b, i, t, t)
    requires Layout(d', owner') && ChainOk(d', owner', chain)
    requires d[b][i] == 0 && CanFree(owner, t) && owner'[t] == FreeSlot(|chain| - 1, i)
    ensures SlotsOk(d', owner', chain)
  {
    assert forall j :: 0 <= j < |chain| && chain[j] != b ==> chain[j] != t && d'[chain[j]] == d[chain[j]];
  }

  /** Slot i of the first free list block names a free block. */
  lemma TakeSlot(d: seq<Block>, owner: seq<Owner>, chain: seq<nat>, b: Word, i: nat)
    requires FreeInv(d, owner, chain) && chain != [] && b == d[0][1]
    requires 1 <= i < R && d[b][i] != 0
    ensures 0 < d[b][i] < |d| && IsFree(owner[d[b][i]]) && owner[b].FreeList?
    ensures FreeInv(d[b := d[b][i := 0]], owner[d[b][i] := Taken], chain)
    ensures FreeSet(owner[d[b][i] := Taken]) == FreeSet(owner) - {d[b][i]}
  {
    var top := |chain| - 1;
    assert b == chain[top] && owner[d[b][i]] == FreeSlot(top, i);
    var f := d[b][i];
    var d', owner' := d[b := d[b][i := 0]], owner[f := Taken];
    SlotChangeChain(d, d', owner, owner', chain, b, i, 0, f);
    SlotTaken(d, d', owner, owner', chain, b, i, f);
  }

  /** No slot of the first free list block is in use: the block itself is taken. */
  lemma TakeHead(d: seq<Block>, owner: seq<Owner>, chain: seq<nat>, b: Word)
    requires FreeInv(d, owner, chain) && chain != [] && b == d[0][1]
    requires forall i :: 1 <= i < R ==> d[b][i] == 0
    ensures 0 < b < |d| && IsFree(owner[b])
    ensures FreeInv(d[0 := d[0][1 := d[b][0]]], owner[b := Taken], chain[..|chain| - 1])
    ensures FreeSet(owner[b := Taken]) == FreeSet(owner) - {b}
  {
    var top := |chain| - 1;
    assert b == chain[top];
    var d', owner', chain' := d[0 := d[0][1 := d[b][0]]], owner[b := Taken], chain[..top];
    HeadTakenChain(d, d', owner, owner', chain, chain', b);
    HeadTakenSlots(d, d', owner, owner', chain, chain', b);
  }

  ghost predicate HeadTaken(d: seq<Block>, d': seq<Block>, owner: seq<Owner>, owner': seq<Owner>,
                            chain: seq<nat>, chain': seq<nat>, b: nat)
    requires FreeInv(d, owner, chain)
  {
    && chain == chain' + [b]
    && (forall i :: 1 <= i < R ==> d[b][i] == 0)
    && |d'| == |d| && |owner'| == |owner|
    && d'[0] == d[0][1 := d[b][0]]
    && owner'[b] == Taken
    && (forall c :: 0 < c < |d| ==> d'[c] == d[c])
    && (forall c :: 0 <= c < |d| && c != b ==> owner'[c] == owner[c])
  }

  lemma HeadTakenChain(d: seq<Block>, d': seq<Block>, owner: seq<Owner>, owner': seq<Owner>,
                       chain: seq<nat>, chain': seq<nat>, b: nat)
    requires FreeInv(d, owner, chain) && HeadTaken(d, d', owner, owner', chain, chain', b)
    ensures Layout(d', owner') && ChainOk(d', owner', chain')
    ensures forall j :: 0 <= j < |chain'| ==> chain'[j] == chain[j] && d'[chain[j]] == d[chain[j]]
  {
    var top := |chain'|;
    assert |chain| == top + 1 && chain[top] == b;
    assert owner[chain[top]] == FreeList(top) && d[chain[top]][0] == (if top == 0 then 0 else chain[top - 1]);
    forall j | 0 <= j < top
      ensures chain'[j] == chain[j] && 0 < chain[j] < |d| && chain[j] != b && d'[chain[j]] == d[chain[j]]
      ensures d'[chain'[j]][0] == (if j == 0 then 0 else chain'[j - 1])
    {
      assert owner[chain[j]] == FreeList(j) && d[chain[j]][0] == (if j == 0 then 0 else chain[j - 1]);
      assert j > 0 ==> chain'[j - 1] == chain[j - 1];
    }
  }

  lemma HeadTakenSlots(d: seq<Block>, d': seq<Block>, owner: seq<Owner>, owner': seq<Owner>,
                       chain: seq<nat>, chain': seq<nat>, b: nat)
    requires FreeInv(d, owner, chain) && HeadTaken(d, d', owner, owner', chain, chain', b)
    requires Layout(d', owner') && ChainOk(d', owner', chain')
    requires forall j :: 0 <= j < |chain'| ==> chain'[j] == chain[j] && d'[chain[j]] == d[chain[j]]
    ensures SlotsOk(d', owner', chain')
  {
    assert chain[|chain'|] == b;
  }

  lemma NoneFree(d: seq<Block>, owner: seq<Owner>, chain: seq<nat>)
    requires FreeInv(d, owner, chain)
    ensures FreeSet(owner) == {} <==> chain == []
    ensures d[0][1] == 0 <==> chain == []
  {
    if chain != [] {
      assert chain[0] in FreeSet(owner);
    }
  }

  // ----- Freeing -----

  /** t is a block that the free list does not know. */
  ghost predicate CanFree(owner: seq<Owner>, t: nat) {
    t < |owner| && (owner[t].Node? || owner[t].Taken?)
  }

  /** Slot i of the first block b is unused. */
  lemma PutSlot(d: seq<Block>, owner: seq<Owner>, chain: seq<nat>, b: Word, t: Word, i: nat)
    requires FreeInv(d, owner, chain) && chain != [] && CanFree(owner, t) && b == d[0][1]
    requires 1 <= i < R && d[b][i] == 0
    ensures t != 0 && t != b && owner[b].FreeList?
    ensures FreeInv(d[t := NullBlock()][b := d[b][i := t]], owner[t := FreeSlot(|chain| - 1, i)], chain)
  {
    var top := |chain| - 1;
    assert b == chain[top];
    var d', owner' := d[t := NullBlock()][b := d[b][i := t]], owner[t := FreeSlot(top, i)];
    SlotChangeChain(d, d', owner, owner', chain, b, i, t, t);
    SlotFilled(d, d', owner, owner', chain, b, i, t);
  }

  /** Every slot of the first block is in use, or there is none: t becomes the first block. */
  lemma PutHead(d: seq<Block>, owner: seq<Owner>, chain: seq<nat>, t: Word)
    requires FreeInv(d, owner, chain) && CanFree(owner, t)
    ensures t != 0
    ensures FreeInv(d[t := NewRoot(d[0][1])][0 := d[0][1 := t]], owner[t := FreeList(|chain|)], chain + [t])
  {
    var b := d[0][1];
    RefsBounds();
    var d', owner', chain' := d[t := NewRoot(b)][0 := d[0][1 := t]], owner[t := FreeList(|chain|)], chain + [t];
    assert forall c :: 0 < c < |d| && c != t ==> d'[c] == d[c];
    assert forall j :: 0 <= j < |chain| ==> chain[j] != t && chain'[j] == chain[j];
    HeadPutChain(d, d', owner, owner', chain, chain', t);
    HeadPutSlots(d, d', owner, owner', chain, chain', t);
  }

  ghost predicate HeadPut(d: seq<Block>, d': seq<Block>, owner: seq<Owner>, owner': seq<Owner>,
                          chain: seq<nat>, chain': seq<nat>, t: Word)
    requires FreeInv(d, owner, chain)
  {
    && chain' == chain + [t]
    && |d'| == |d| && |owner'| == |owner| && 0 < t < |d|
    && d'[0] == d[0][1 := t] && d'[t] == NewRoot(d[0][1])
    && owner'[t] == FreeList(|chain|)
    && (forall c :: 0 < c < |d| && c != t ==> d'[c] == d[c])
    && (forall c :: 0 <= c < |d| && c != t ==> owner'[c] == owner[c])
  }

  lemma HeadPutChain(d: seq<Block>, d': seq<Block>, owner: seq<Owner>, owner': seq<Owner>,
                     chain: seq<nat>, chain': seq<nat>, t: Word)
    requires FreeInv(d, owner, chain) && HeadPut(d, d', owner, owner', chain, chain', t) && CanFree(owner, t)
    ensures Layout(d', owner') && ChainOk(d', owner', chain')
  {
    assert forall j :: 0 <= j < |chain| ==> chain[j] != t && chain'[j] == chain[j];
  }

  lemma HeadPutSlots(d: seq<Block>, d': seq<Block>, owner: seq<Owner>, owner': seq<Owner>,
                     chain: seq<nat>, chain': seq<nat>, t: Word)
    requires FreeInv(d, owner, chain) && HeadPut(d, d', owner, owner', chain, chain', t) && CanFree(owner, t)
    requires Layout(d', owner') && ChainOk(d', owner', chain')
    ensures SlotsOk(d', owner', chain')
  {
    assert forall j :: 0 <= j < |chain| ==> chain[j] != t && chain'[j] == chain[j];
  }

  // ----- What treedisk_alloc_block and treedisk_free_block do to the disk -----

  /** The last slot in use, or 0. */
  function LastUsed(fl: Block, i: nat): (k: nat)
    requires i < R
    ensures k <= i
    ensures k > 0 ==> fl[k] != 0
    ensures forall j :: k < j <= i ==> fl[j] == 0
  {
    if i == 0 || fl[i] != 0 then i else LastUsed(fl, i - 1)
  }

  /** The first slot not in use, or R. */
  function FirstUnused(fl: Block, i: nat): (k: nat)
    requires 1 <= i <= R
    ensures i <= k <= R
    ensures k < R ==> fl[k] == 0
    ensures forall j :: i <= j < k ==> fl[j] != 0
    decreases R - i
  {
    if i == R || fl[i] == 0 then i else FirstUnused(fl, i + 1)
  }

  /** The superblock in memory and the disk; Panic when the source gives up. */
  datatype Store = Panic | On(super: Block, d: seq<Block>)

  datatype Allocation = NoBlock | Block(f: Word, st: Store)

  /** treedisk_alloc_block: the last block named by the first free list block b or, if b
      names none, b itself. */
  ghost function AllocOp(super: Block, d: seq<Block>): Allocation
    requires R >= 2 && |d| >= 1
  {
    if super[1] == 0 || super[1] >= |d| then NoBlock
    else if LastUsed(d[super[1]], R - 1) == 0 then
      Block(super[1], On(super[1 := d[super[1]][0]], d[0 := super[1 := d[super[1]][0]]]))
    else
      Block(d[super[1]][LastUsed(d[super[1]], R - 1)],
            On(super, d[super[1] := d[super[1]][LastUsed(d[super[1]], R - 1) := 0]]))
  }

  /** What an allocation does to the owners and to the free list. */
  ghost predicate AllocOk(d: seq<Block>, owner: seq<Owner>, f: nat, st: Store, chain': seq<nat>)
    requires |owner| == |d|
  {
    && st.On? && |st.d| == |d| >= 1 && st.super == st.d[0]
    && 0 < f < |d| && IsFree(owner[f])
    && FreeInv(st.d, owner[f := Taken], chain')
    && OnlyFreeChanged(d, st.d, owner)
  }

  /** Allocating hands out a free block, unless there is none, and keeps the free list. */
  lemma AllocKeeps(d: seq<Block>, owner: seq<Owner>, chain: seq<nat>) returns (chain': seq<nat>)
    requires FreeInv(d, owner, chain)
    ensures AllocOp(d[0], d) == NoBlock <==> FreeSet(owner) == {}
    ensures AllocOp(d[0], d).Block? ==> AllocOk(d, owner, AllocOp(d[0], d).f, AllocOp(d[0], d).st, chain')
  {
    NoneFree(d, owner, chain);
    var b := d[0][1];
    chain' := chain;
    if b != 0 {
      assert b == chain[|chain| - 1];
      var i := LastUsed(d[b], R - 1);
      if i == 0 {
        TakeHead(d, owner, chain, b);
        chain' := chain[..|chain| - 1];
      } else {
        TakeSlot(d, owner, chain, b, i);
      }
    }
  }

  /** treedisk_free_block: t is zeroed, and named by the first free list block b; if b has no
      room or there is none, t becomes the first free list block. */
  ghost function FreeOp(super: Block, d: seq<Block>, t: Word): Store
    requires R >= 2 && |d| >= 1
  {
    if t >= |d| || super[1] >= |d| then Panic
    else if super[1] == 0 then
      On(super[1 := t], d[t := NullBlock()][0 := super[1 := t]])
    else if FirstUnused(d[t := NullBlock()][super[1]], 1) == R then
      On(super[1 := t], d[t := NullBlock()][0 := super[1 := t]][t := NewRoot(super[1])])
    else
      On(super, d[t := NullBlock()][super[1] := d[t := NullBlock()][super[1]][FirstUnused(d[t := NullBlock()][super[1]], 1) := t]])
  }

  ghost predicate FreeOk(d: seq<Block>, owner: seq<Owner>, t: nat, st: Store, o: Owner, chain': seq<nat>)
    requires |owner| == |d| && t < |d|
  {
    && st.On? && |st.d| == |d| >= 1 && st.super == st.d[0]
    && IsFree(o) && FreeInv(st.d, owner[t := o], chain')
    && (o.FreeSlot? ==> st.d[t] == NullBlock())
    && st.d[0][0] == d[0][0]
    && (forall c :: 0 <= c < |d| && c != t && owner[c] != Super && !owner[c].FreeList? ==> st.d[c] == d[c])
  }

  /** Freeing a block zeroes it, puts it on the free list, and changes nothing but that list. */
  lemma FreeKeeps(d: seq<Block>, owner: seq<Owner>, chain: seq<nat>, t: Word)
      returns (o: Owner, chain': seq<nat>)
    requires FreeInv(d, owner, chain) && CanFree(owner, t)
    ensures FreeOk(d, owner, t, FreeOp(d[0], d, t), o, chain')
  {
    var b := d[0][1];
    NoneFree(d, owner, chain);
    if b == 0 || FirstUnused(d[b], 1) == R {
      o, chain' := FreeList(|chain|), chain + [t];
      FreeAsHead(d, owner, chain, t);
    } else {
      o, chain' := FreeSlot(|chain| - 1, FirstUnused(d[b], 1)), chain;
      PutSlot(d, owner, chain, b, t, FirstUnused(d[b], 1));
    }
  }

  lemma FreeAsHead(d: seq<Block>, owner: seq<Owner>, chain: seq<nat>, t: Word)
    requires FreeInv(d, owner, chain) && CanFree(owner, t)
    requires d[0][1] == 0 || (d[0][1] < |d| && FirstUnused(d[d[0][1]], 1) == R)
    ensures FreeOk(d, owner, t, FreeOp(d[0], d, t), FreeList(|chain|), chain + [t])
  {
    var b := d[0][1];
    NoneFree(d, owner, chain);
    PutHead(d, owner, chain, t);
    assert b != 0 ==> owner[b].FreeList?;
    NewRootOfZero();
    assert FreeOp(d[0], d, t).d == d[t := NewRoot(b)][0 := d[0][1 := t]];
  }

  lemma NewRootOfZero()
    ensures NewRoot(0) == NullBlock()
  {
    RefsBounds();
  }

  lemma SetOne<T>(s: set<T>, x: T)
    requires x in s
    ensures |s| == |s - {x}| + 1
  {}
}
