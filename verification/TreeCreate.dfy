/** The disk that treedisk_create makes: every block behind the inodes is free. */
module TreeCreate {
  import opened Blocks
  import opened Index
  import opened TreeLayout
  import opened FreeList
  import opened TreeFS

  /** The inode blocks needed for n inodes, in 32-bit arithmetic. */
  function InodeBlocksFor(n: Word): (nib: nat)
    ensures nib + 2 < WORD_LIMIT
  {
    RefsBounds();
    QuotientOf((n + IPB - 1) % WORD_LIMIT, IPB)
  }

  function QuotientOf(x: nat, d: nat): (q: nat)
    requires d >= 2
    ensures q == x / d && 2 * q <= x
  {
    HalfAtMost(x, d);
    x / d
  }

  lemma HalfAtMost(x: nat, d: nat)
    requires d >= 2
    ensures 2 * (x / d) <= x
  {
    var q, r := DivMod(x, d);
    if q > 0 { DoubleAtMost(d, q); }
  }

  lemma {:induction false} DoubleAtMost(d: nat, q: nat)
    requires d >= 2
    ensures 2 * q <= d * q
  {
    if q > 0 {
      DoubleAtMost(d, q - 1);
      assert d * q == d * (q - 1) + d;
    }
  }

  /** There is room for the n inodes, and no block too many, exactly if the sum in
      InodeBlocksFor does not wrap. */
  lemma InodesFit(n: Word)
    ensures n <= InodesIn(InodeBlocksFor(n)) < n + IPB <==> n + IPB - 1 < WORD_LIMIT
  {
    RefsBounds();
    var x := (n + IPB - 1) % WORD_LIMIT;
    var q, r := DivMod(x, IPB);
    InodesInIsProduct(q);
    MulCommutes(IPB, q);
    if n + IPB - 1 >= WORD_LIMIT {
      Pow2Below(LOG_RPB);
      DivUnique(n + IPB - 1, WORD_LIMIT, 1, n + IPB - 1 - WORD_LIMIT);
      QuotientZero(x, IPB);
    }
  }

  // ----- The free list that setup_freelist writes, for the blocks nf .. n -----

  /** Block j of the list is followed by the R - 1 blocks that it names. */
  ghost function ListHead(nf: nat, j: nat): nat {
    RefsBounds();
    nf + Child(j, 0)
  }

  ghost predicate IsListBlock(b: Block, nf: nat, n: nat, j: nat) {
    && b[0] == (if j == 0 then 0 else ListHead(nf, j - 1))
    && forall i :: 1 <= i < R ==> b[i] == if ListHead(nf, j) + i < n then ListHead(nf, j) + i else 0
  }

  ghost predicate ListWritten(d: seq<Block>, nf: nat) {
    forall j: nat :: ListHead(nf, j) < |d| ==> IsListBlock(d[ListHead(nf, j)], nf, |d|, j)
  }

  ghost function FreshOwner(nf: nat, c: nat): Owner {
    if c == 0 then Super
    else if c < nf then Inodes
    else if Slot(c - nf) == 0 then FreeList(Parent(c - nf))
    else FreeSlot(Parent(c - nf), Slot(c - nf))
  }

  ghost function FreshOwners(nf: nat, n: nat): (o: seq<Owner>)
    ensures |o| == n && forall c :: 0 <= c < n ==> o[c] == FreshOwner(nf, c)
  {
    seq(n, c requires 0 <= c => FreshOwner(nf, c))
  }

  /** The number of list blocks for m free blocks. */
  ghost function ListLength(m: nat): nat {
    if m == 0 then 0 else 1 + Parent(m - 1)
  }

  ghost function FreshChain(nf: nat, n: nat): (ch: seq<nat>)
    requires nf <= n
    ensures |ch| == ListLength(n - nf) && forall j :: 0 <= j < |ch| ==> ch[j] == ListHead(nf, j)
  {
    seq(ListLength(n - nf), j requires 0 <= j => ListHead(nf, j))
  }

  /** A new file system on a disk of n blocks. */
  ghost predicate IsFresh(d: seq<Block>, nib: nat) {
    && |d| <= WORD_LIMIT && nib + 2 <= |d|
    && d[0][0] == nib && d[0][1] == ListHead(nib + 1, ListLength(|d| - nib - 1) - 1)
    && (forall c :: 1 <= c <= nib ==> d[c] == NullBlock())
    && ListWritten(d, nib + 1)
  }

  lemma ChildIndex(j: nat, i: nat)
    requires i < R
    ensures Child(j, i) == Child(j, 0) + i
    decreases j
  {
    RefsBounds();
    if j > 0 { ChildIndex(j - 1, i); }
  }

  lemma {:induction false} ChildMonotone(j: nat, k: nat)
    requires j <= k
    ensures R >= 1 && Child(j, 0) + (k - j) <= Child(k, 0)
    decreases k
  {
    RefsBounds();
    if j < k { ChildMonotone(j, k - 1); }
  }

  /** List block j is on the disk exactly if it is on the list. */
  lemma ListHeads(nf: nat, n: nat, j: nat)
    requires nf <= n
    ensures ListHead(nf, j) < n <==> j < ListLength(n - nf)
  {
    RefsBounds();
    if nf < n {
      var m := n - nf - 1;
      ChildOf(m);
      ChildIndex(Parent(m), Slot(m));
      if j <= Parent(m) {
        ChildMonotone(j, Parent(m));
      } else {
        ChildMonotone(Parent(m) + 1, j);
      }
    }
  }

  lemma WrittenFrame(d: seq<Block>, d': seq<Block>, nf: nat)
    requires ListWritten(d, nf) && nf <= |d'| == |d| && d'[nf..] == d[nf..]
    ensures ListWritten(d', nf)
  {
    ListHeadsRise(nf);
    forall j: nat | ListHead(nf, j) < |d| ensures d'[ListHead(nf, j)] == d[ListHead(nf, j)] {
      var k := ListHead(nf, j);
      assert k == ListHead(nf, 0) || ListHead(nf, 0) < ListHead(nf, j);
      assert d'[k] == d'[nf..][k - nf] && d[k] == d[nf..][k - nf];
    }
  }

  lemma NextListHead(nf: nat, j: nat)
    ensures ListHead(nf, j + 1) == ListHead(nf, j) + R
  {
    RefsBounds();
  }

  lemma ListHeadsRise(nf: nat)
    ensures ListHead(nf, 0) == nf
    ensures forall j: nat, k: nat :: j < k ==> nf <= ListHead(nf, j) < ListHead(nf, k)
  {
    RefsBounds();
    forall j: nat, k: nat | j < k ensures nf <= ListHead(nf, j) < ListHead(nf, k) { ChildMonotone(j, k); }
  }

  /** After j blocks nothing is left for another one: these are all. */
  lemma LastListHead(nf: nat, n: nat, j: nat)
    requires nf < n && ListHead(nf, j) >= n
    requires j > 0 ==> ListHead(nf, j - 1) < n
    ensures j > 0 && j == ListLength(n - nf)
    ensures forall k: nat :: ListHead(nf, k) < n <==> k < j
  {
    ListHeadsRise(nf);
    ListHeads(nf, n, j);
    if j > 0 { ListHeads(nf, n, j - 1); }
    forall k: nat ensures ListHead(nf, k) < n <==> k < j { ListHeads(nf, n, k); }
  }

  /** Slot i of list block j names a block exactly if that block is on the disk. */
  lemma SlotOwner(nf: nat, j: nat, i: nat)
    requires i < R && nf >= 1
    ensures FreshOwner(nf, ListHead(nf, j) + i) == if i == 0 then FreeList(j) else FreeSlot(j, i)
  {
    ChildIndex(j, i);
  }

  /** Every block has its role from the start, and every file is empty. */
  lemma FreshInv(d: seq<Block>, nib: nat, owner: seq<Owner>, chain: seq<nat>)
    requires IsFresh(d, nib)
    requires owner == FreshOwners(nib + 1, |d|) && chain == FreshChain(nib + 1, |d|)
    ensures Inv(d, owner, chain)
    ensures forall c :: 0 <= c < |d| ==> (IsFree(owner[c]) <==> c > nib)
    ensures forall ino: nat :: ino < NInodes(d) ==> Files(d)[ino] == []
  {
    hide IsFresh, NodeAt, Layout, ChainOk, SlotsOk, Slot, Parent, ListHead, ListLength;
    FreshLayout(d, nib, owner);
    FreshChainOk(d, nib, owner, chain);
    FreshSlotsOk(d, nib, owner, chain);
    FreshSize(d, nib);
    assert FreeInv(d, owner, chain);
    forall ino: nat | ino < InodesIn(nib) ensures FileOk(d, owner, ino) && File(d, ino) == [] {
      FreshFile(d, nib, owner, ino);
    }
  }

  lemma FreshSize(d: seq<Block>, nib: nat)
    requires IsFresh(d, nib)
    ensures 0 < |d| <= WORD_LIMIT && d[0][0] == nib && nib + 2 <= |d|
  {}

  lemma FreshFile(d: seq<Block>, nib: nat, owner: seq<Owner>, ino: nat)
    requires IsFresh(d, nib) && ino < InodesIn(nib)
    requires owner == FreshOwners(nib + 1, |d|)
    ensures InodeBlockNo(ino) < |d| && Root(d, ino) == 0 && NBlocks(d, ino) == 0
    ensures FileOk(d, owner, ino) && File(d, ino) == []
  {
    InodeBlockInRange(nib, ino);
    assert d[InodeBlockNo(ino)] == NullBlock();
    forall H: nat, h: nat, x: nat ensures NodeAt(d, 0, H, 0, h, x) == 0 { EmptyTree(d, H, h, x); }
  }

  lemma {:induction false} EmptyTree(d: seq<Block>, H: nat, h: nat, x: nat)
    ensures NodeAt(d, 0, H, 0, h, x) == 0
    decreases H - h
  {
    if h < H { EmptyTree(d, H, h + 1, Parent(x)); }
  }

  lemma FreshLayout(d: seq<Block>, nib: nat, owner: seq<Owner>)
    requires IsFresh(d, nib) && owner == FreshOwners(nib + 1, |d|)
    ensures Layout(d, owner)
    ensures forall c :: 0 <= c < |d| ==> (IsFree(owner[c]) <==> c > nib)
  {
    RefsBounds();
  }

  /** List block j, on the disk and among the owners. */
  lemma ListBlockAt(d: seq<Block>, nib: nat, j: nat)
    requires IsFresh(d, nib) && j < ListLength(|d| - nib - 1)
    ensures nib < ListHead(nib + 1, j) < |d|
    ensures IsListBlock(d[ListHead(nib + 1, j)], nib + 1, |d|, j)
    ensures FreshOwner(nib + 1, ListHead(nib + 1, j)) == FreeList(j)
  {
    hide ListHead, ListLength, IsListBlock, FreshOwner;
    RefsBounds();
    ListHeads(nib + 1, |d|, j);
    ListHeadsRise(nib + 1);
    assert j == 0 || ListHead(nib + 1, 0) < ListHead(nib + 1, j);
    SlotOwner(nib + 1, j, 0);
  }

  /** A free block is a list block or in a slot of one. */
  lemma FreshBack(nf: nat, n: nat, c: nat)
    requires 1 <= nf <= c < n
    ensures Parent(c - nf) < ListLength(n - nf)
    ensures ListHead(nf, Parent(c - nf)) + Slot(c - nf) == c
    ensures Slot(c - nf) == 0 ==> FreshOwner(nf, c) == FreeList(Parent(c - nf))
    ensures Slot(c - nf) != 0 ==> FreshOwner(nf, c) == FreeSlot(Parent(c - nf), Slot(c - nf))
  {
    ChildOf(c - nf);
    ChildIndex(Parent(c - nf), Slot(c - nf));
    ParentMonotone(c - nf, n - nf - 1);
  }

  lemma FreshChainOk(d: seq<Block>, nib: nat, owner: seq<Owner>, chain: seq<nat>)
    requires IsFresh(d, nib) && Layout(d, owner)
    requires owner == FreshOwners(nib + 1, |d|) && chain == FreshChain(nib + 1, |d|)
    ensures ChainOk(d, owner, chain)
  {
    hide IsFresh, FreshOwners, FreshChain, FreshOwner, ListHead, ListLength, ChainOk;
    FreshLinks(d, nib, owner, chain);
    LinkedIsChain(d, owner, chain);
  }

  lemma LinkedIsChain(d: seq<Block>, owner: seq<Owner>, chain: seq<nat>)
    requires Layout(d, owner)
    requires chain != [] && d[0][1] == chain[|chain| - 1]
    requires forall j :: 0 <= j < |chain| ==>
              && 0 < chain[j] < |d| && owner[chain[j]] == FreeList(j)
              && d[chain[j]][0] == (if j == 0 then 0 else chain[j - 1])
    requires forall c :: 0 <= c < |d| && owner[c].FreeList? ==> owner[c].j < |chain| && chain[owner[c].j] == c
    ensures ChainOk(d, owner, chain)
  {}

  /** The list blocks are linked in the order in which they were written. */
  lemma FreshLinks(d: seq<Block>, nib: nat, owner: seq<Owner>, chain: seq<nat>)
    requires IsFresh(d, nib) && |owner| == |d|
    requires owner == FreshOwners(nib + 1, |d|) && chain == FreshChain(nib + 1, |d|)
    ensures chain != [] && d[0][1] == chain[|chain| - 1]
    ensures forall j :: 0 <= j < |chain| ==>
              && 0 < chain[j] < |d| && owner[chain[j]] == FreeList(j)
              && d[chain[j]][0] == (if j == 0 then 0 else chain[j - 1])
    ensures forall c :: 0 <= c < |d| && owner[c].FreeList? ==> owner[c].j < |chain| && chain[owner[c].j] == c
  {
    hide Parent, Slot, ListHead, FreshOwner, IsListBlock;
    var nf, n := nib + 1, |d|;
    assert |chain| >= 1 && d[0][1] == chain[|chain| - 1];
    forall j | 0 <= j < |chain|
      ensures 0 < chain[j] < n && owner[chain[j]] == FreeList(j)
      ensures d[chain[j]][0] == (if j == 0 then 0 else chain[j - 1])
    {
      ListBlockAt(d, nib, j);
      ListBlockLink(d[chain[j]], nf, n, j);
    }
    forall c | 0 <= c < n && owner[c].FreeList? ensures owner[c].j < |chain| && chain[owner[c].j] == c {
      FreeIsBehind(nf, c);
      FreshBack(nf, n, c);
    }
  }

  lemma ListBlockLink(b: Block, nf: nat, n: nat, j: nat)
    requires IsListBlock(b, nf, n, j)
    ensures b[0] == (if j == 0 then 0 else ListHead(nf, j - 1))
  {}

  lemma FreeIsBehind(nf: nat, c: nat)
    requires IsFree(FreshOwner(nf, c)) && nf >= 1
    ensures c >= nf
  {}

  lemma FreshSlotsOk(d: seq<Block>, nib: nat, owner: seq<Owner>, chain: seq<nat>)
    requires IsFresh(d, nib) && Layout(d, owner)
    requires owner == FreshOwners(nib + 1, |d|) && chain == FreshChain(nib + 1, |d|)
    requires ChainOk(d, owner, chain)
    ensures SlotsOk(d, owner, chain)
  {
    hide Parent, Slot, ListHead, FreshOwner, IsListBlock, ListLength;
    var nf, n := nib + 1, |d|;
    forall j, i | 0 <= j < |chain| && 1 <= i < R && d[chain[j]][i] != 0
      ensures d[chain[j]][i] < n && owner[d[chain[j]][i]] == FreeSlot(j, i)
    {
      ListBlockAt(d, nib, j);
      ListBlockSlot(d[chain[j]], nf, n, j, i);
      SlotOwner(nf, j, i);
    }
    forall c | 0 <= c < n && owner[c].FreeSlot?
      ensures owner[c].j < |chain| && 1 <= owner[c].i < R && d[chain[owner[c].j]][owner[c].i] == c
    {
      FreeIsBehind(nf, c);
      FreshBack(nf, n, c);
      ListBlockAt(d, nib, owner[c].j);
      ListBlockSlot(d[chain[owner[c].j]], nf, n, owner[c].j, owner[c].i);
    }
  }

  lemma ListBlockSlot(b: Block, nf: nat, n: nat, j: nat, i: nat)
    requires IsListBlock(b, nf, n, j) && 1 <= i < R
    ensures b[i] == if ListHead(nf, j) + i < n then ListHead(nf, j) + i else 0
  {}

  /** The disk once treedisk_create has written everything. */
  lemma MadeInv(d: seq<Block>, nib: nat, owner: seq<Owner>, chain: seq<nat>)
    requires IsFresh(d, nib)
    requires owner == FreshOwners(nib + 1, |d|) && chain == FreshChain(nib + 1, |d|)
    ensures Inv(d, owner, chain) && |d| >= 1 && 1 + d[0][0] <= |d| && |Files(d)| == InodesIn(nib)
    ensures forall c :: 0 <= c < |owner| ==> (IsFree(owner[c]) <==> c > nib)
    ensures forall ino: nat :: ino < |Files(d)| ==> Files(d)[ino] == []
  {
    hide Inv, Files, ListWritten, ListHead, ListLength, IsFree;
    FreshInv(d, nib, owner, chain);
  }
}
