/** The disk that fatdisk_create makes, and when it is that of a file system. */
module FatCreate {
  import opened Blocks
  import opened Index
  import opened TreeLayout
  import opened TreeCreate
  import opened FatTable
  import opened FatSpace
  import opened FatRuns

  // ----- The table that setup_fatfreelist writes for m blocks behind the inodes -----

  /** How many of the m blocks have been counted before table block k: R data blocks and itself for each */
  ghost function Start(k: nat): nat {
    if k == 0 then 0 else Start(k - 1) + R + 1
  }

  /** How many table blocks are written */
  ghost function TableBlocks(m: nat): (n: nat)
    ensures n <= m && (m > 0 ==> n > 0)
    decreases m
  {
    RefsBounds();
    if m == 0 then 0 else if m <= R + 1 then 1 else 1 + TableBlocks(m - (R + 1))
  }

  /** Table block k: as many entries are free as there are blocks left, up to R. */
  ghost predicate IsTableBlock(b: Block, k: nat, m: nat) {
    forall i :: 0 <= i < R ==> b[i] == if Start(k) + i < m then 0 else NIL
  }

  lemma {:induction false} StartIs(k: nat)
    ensures Start(k) == Child(k, 0) + k
  {
    RefsBounds();
    if k > 0 { StartIs(k - 1); }
  }

  lemma {:induction false} StartMonotone(j: nat, k: nat)
    requires j <= k
    ensures Start(j) + (k - j) <= Start(k)
    decreases k
  {
    if j < k { StartMonotone(j, k - 1); }
  }

  /** The last table block is the last that starts before the end. */
  lemma {:induction false} LastStart(m: nat)
    ensures Start(TableBlocks(m)) >= m && (m > 0 ==> Start(TableBlocks(m) - 1) < m)
    decreases m
  {
    RefsBounds();
    if 0 < m <= R + 1 {
      assert Start(1) == Start(0) + R + 1;
    } else if m > 0 {
      LastStart(m - (R + 1));
      StartNext(TableBlocks(m - (R + 1)));
    }
  }

  lemma {:induction false} StartNext(k: nat)
    ensures Start(k + 1) == Start(k) + R + 1
    ensures k > 0 ==> Start(k) == Start(k - 1) + R + 1
  {}

  /** The groups come out even. */
  lemma {:induction false} EvenGroups(m: nat)
    ensures Start(TableBlocks(m)) == m <==> m % (R + 1) == 0
    decreases m
  {
    RefsBounds();
    if 0 < m <= R + 1 {
      assert Start(1) == Start(0) + R + 1;
      if m <= R { DivUnique(m, R + 1, 0, m); }
    } else if m > 0 {
      EvenGroups(m - (R + 1));
      DivStep(m, R + 1);
      StartNext(TableBlocks(m - (R + 1)));
    }
  }

  /** A table block that starts before the end is one of them; ... */
  lemma {:induction false} BeforeLast(m: nat, k: nat)
    requires Start(k) < m
    ensures k < TableBlocks(m)
  {
    LastStart(m);
    if k >= TableBlocks(m) { StartMonotone(TableBlocks(m), k); }
  }

  /** ... one that does not is behind the last. */
  lemma {:induction false} AtLast(m: nat, k: nat)
    requires Start(k) >= m && k <= TableBlocks(m)
    ensures k == TableBlocks(m)
  {
    LastStart(m);
    if k < TableBlocks(m) { StartMonotone(k, TableBlocks(m) - 1); }
  }

  // ----- The whole disk -----

  /** Table block k is on the disk. */
  ghost predicate TableBlockAt(d: seq<Block>, nib: nat, k: nat) {
    nib + 1 + k < |d| && IsTableBlock(d[nib + 1 + k], k, |d| - nib - 1)
  }

  /** d is what fatdisk_create makes of a disk. */
  ghost predicate IsMade(d: seq<Block>, nib: nat) {
    && R >= 4 && nib + 2 <= |d| < WORD_LIMIT
    && d[0][0] == nib && d[0][1] == TableBlocks(|d| - nib - 1) && d[0][2] == 0
    && (forall c :: 1 <= c <= nib ==> d[c] == NullBlock())
    && (forall k: nat :: k < TableBlocks(|d| - nib - 1) ==> TableBlockAt(d, nib, k))
  }

  /** The parts of d */
  ghost function PartsOf(d: seq<Block>, nib: nat): (v: Fat)
    requires IsMade(d, nib)
    ensures v.freeList == 0 && v.nfat == TableBlocks(|d| - nib - 1) && |v.inodes| == nib
    ensures |v.fat| == Child(v.nfat, 0) && |v.data| == |d| - nib - 1 - v.nfat
    ensures forall e: nat :: e < |v.fat| ==> Parent(e) < v.nfat && v.fat[e] == d[nib + 1 + Parent(e)][Slot(e)]
    ensures forall b :: 0 <= b < nib ==> v.inodes[b] == d[1 + b]
    ensures forall e :: 0 <= e < |v.data| ==> v.data[e] == d[1 + nib + v.nfat + e]
  {
    hide Parent, Slot, Child, TableBlocks;
    var n := TableBlocks(|d| - nib - 1);
    forall e: nat | e < Child(n, 0) ensures Parent(e) < n { EntryBlock(e, n); }
    Fat(0, n, d[1..1 + nib], seq(Child(n, 0), e requires 0 <= e < Child(n, 0) => d[nib + 1 + Parent(e)][Slot(e)]), d[1 + nib + n..])
  }

  /** The blocks behind the inodes are whole groups of a table block and R data blocks, ... */
  ghost predicate IsEven(d: seq<Block>, nib: nat)
    requires nib < |d|
  {
    (|d| - nib - 1) % (R + 1) == 0
  }

  /** ... and the data blocks, which fatdisk_create does not write, are zero. */
  ghost predicate IsClear(d: seq<Block>, nib: nat)
    requires nib < |d|
  {
    forall c :: 1 + nib + TableBlocks(|d| - nib - 1) <= c < |d| ==> d[c] == NullBlock()
  }

  /** Entry e is free exactly if the blocks left when its table block was written were enough for it. */
  lemma {:induction false} EntryMade(d: seq<Block>, nib: nat, e: nat)
    requires IsMade(d, nib) && e < |PartsOf(d, nib).fat|
    ensures PartsOf(d, nib).fat[e] == if e + Parent(e) < |d| - nib - 1 then 0 else NIL
    ensures e + Parent(e) < Start(TableBlocks(|d| - nib - 1))
  {
    hide Parent, Slot, Child, TableBlocks;
    var n, k := TableBlocks(|d| - nib - 1), Parent(e);
    assert TableBlockAt(d, nib, k);
    StartIs(k);
    FirstInBlock(e);
    StartNext(k);
    StartMonotone(k + 1, n);
  }

  lemma {:induction false} EvenIsNew(d: seq<Block>, nib: nat)
    requires IsMade(d, nib) && Start(TableBlocks(|d| - nib - 1)) == |d| - nib - 1
    ensures var v := PartsOf(d, nib);
      && v.nfat >= 1 && IsTable(v.fat, v.nfat) && |v.data| == |v.fat|
      && (forall e: nat :: e < |v.fat| ==> v.fat[e] == 0) && (forall b :: 0 <= b < |v.inodes| ==> v.inodes[b] == NullBlock())
  {
    hide Child, Parent, Slot, TableBlocks, IsTableBlock;
    var v := PartsOf(d, nib);
    StartIs(v.nfat);
    forall e: nat | e < |v.fat| ensures v.fat[e] == 0 { EntryMade(d, nib, e); }
  }

  /** A data block that is not zero, though its entry is free */
  lemma {:induction false} NotClear(d: seq<Block>, nib: nat, cs: seq<seq<nat>>)
    requires IsMade(d, nib) && !IsClear(d, nib)
    requires var v := PartsOf(d, nib); |v.data| == |v.fat| && forall e: nat :: e < |v.fat| ==> v.fat[e] == 0
    ensures !Inv(PartsOf(d, nib), cs) && !IsNew(PartsOf(d, nib))
  {
    hide Child, Parent, Slot, TableBlocks, IsTableBlock, IsTable;
    var v := PartsOf(d, nib);
    var c :| 1 + nib + v.nfat <= c < |d| && d[c] != NullBlock();
    var e: nat := c - 1 - nib - v.nfat;
    assert v.data[e] == d[c] && v.fat[e] == 0;
  }

  /** The last free entry has no block. */
  lemma {:induction false} NotEven(d: seq<Block>, nib: nat, cs: seq<seq<nat>>)
    requires IsMade(d, nib) && Start(TableBlocks(|d| - nib - 1)) > |d| - nib - 1
    ensures var v := PartsOf(d, nib); |v.data| < |v.fat| && v.fat[|v.data|] == 0
    ensures !Inv(PartsOf(d, nib), cs) && !IsNew(PartsOf(d, nib))
  {
    hide Child, Parent, Slot, TableBlocks, IsTableBlock, IsTable;
    var v, m := PartsOf(d, nib), |d| - nib - 1;
    var k: nat := v.nfat - 1;
    LastStart(m);
    StartNext(k);
    StartIs(k);
    NextChild(k);
    var e: nat := |v.data|;
    ChildIndex(k, e - Child(k, 0));
    EntryMade(d, nib, e);
  }

  /** What fatdisk_create makes is a new file system exactly if the blocks come out even and the data blocks are
      clear. */
  lemma {:induction false} MadeIsNew(d: seq<Block>, nib: nat)
    requires IsMade(d, nib)
    ensures Inv(PartsOf(d, nib), NoChains(InodesIn(nib))) <==> IsEven(d, nib) && IsClear(d, nib)
    ensures IsNew(PartsOf(d, nib)) <==> IsEven(d, nib) && IsClear(d, nib)
  {
    hide Child, Parent, Slot, TableBlocks, IsTable, IsMade;
    var v, cs := PartsOf(d, nib), NoChains(InodesIn(nib));
    MadeSize(d, nib);
    EvenGroups(|d| - nib - 1);
    LastStart(|d| - nib - 1);
    if IsEven(d, nib) {
      EvenIsNew(d, nib);
      if IsClear(d, nib) {
        assert IsNew(v);
        NewInv(v);
      } else {
        NotClear(d, nib, cs);
      }
    } else {
      NotEven(d, nib, cs);
    }
  }

  lemma MadeSize(d: seq<Block>, nib: nat)
    requires IsMade(d, nib)
    ensures nib + 2 <= |d| < WORD_LIMIT
  {}
}
