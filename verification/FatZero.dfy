/** A table on which a write gets entry 0 as a successor, and three calls more that put one entry in two files. */
module FatZero {
  import opened Blocks
  import opened Index
  import opened TreeLayout
  import opened TreeCreate
  import opened FatTable
  import opened FatSpace

  /** The next free entry is ahead ... */
  lemma AllocAhead(v: Fat, n: nat)
    requires IsTable(v.fat, v.nfat) && v.freeList < n < |v.fat| && v.fat[n] == 0
    requires forall x: nat :: v.freeList < x < n ==> v.fat[x] != 0
    ensures Alloc(v) == Allocated(v.freeList, v.(fat := v.fat[v.freeList := NIL], freeList := n))
  {
    hide Child, Parent, Slot, FreeFrom, IsTable, LeastFree;
    TableKept(v, v.freeList, NIL);
    SearchIsNext(v.fat[v.freeList := NIL], v.nfat, v.freeList);
    LeastIs(v.fat[v.freeList := NIL], v.freeList, |v.fat|, n);
  }

  /** ... or at the beginning of the table. */
  lemma AllocWraps(v: Fat, n: nat)
    requires IsTable(v.fat, v.nfat) && n < v.freeList < |v.fat| && v.fat[n] == 0 && Parent(n) < Parent(v.freeList)
    requires forall x: nat :: x < n || v.freeList < x < |v.fat| ==> v.fat[x] != 0
    ensures Alloc(v) == Allocated(v.freeList, v.(fat := v.fat[v.freeList := NIL], freeList := n))
  {
    hide Child, Parent, Slot, FreeFrom, IsTable, LeastFree;
    var f, fat := v.freeList, v.fat[v.freeList := NIL];
    TableKept(v, f, NIL);
    SearchIsNext(fat, v.nfat, f);
    FirstInBlock(n);
    ChildMonotone(Parent(n) + 1, Parent(f));
    LeastIs(fat, f, |fat|, |fat|);
    LeastIs(fat, 0, Child(Parent(f), 0), n);
  }

  /** A table of two blocks, with R + 1 data blocks.  Entries 0, 2 and R are free; files 0 and 2 are the chains
      [1] and [3], file 3 has entries 4 to R - 1, and the other files are empty. */
  ghost function Tight(): (v: Fat)
    ensures v.freeList == R && v.nfat == 2 && v.fat == TightTable() && |v.data| == R + 1 && |v.inodes| == 2
    ensures forall e :: 0 <= e < |v.data| ==> v.data[e] == NullBlock()
    ensures forall k: nat :: k < NFiles(v) ==> InodeOk(v, k, TightChains()[k])
    ensures IsTable(v.fat, v.nfat) && InodeBlockNo(0) <= |v.inodes|
  {
    TightSize();
    var v := Fat(R, 2, [NullBlock(), NullBlock()], TightTable(), seq(R + 1, i => NullBlock()));
    TightInodes(v);
    WithInode(WithInode(WithInode(v, 0, 1, 1), 2, 3, 1), 3, 4, R - 4)
  }

  ghost function TightTable(): (fat: seq<Word>)
    ensures |fat| == 2 * R
    ensures R >= 4 && forall e :: 0 <= e < |fat| ==>
      fat[e] == if e == 0 || e == 2 || e == R then 0 else if 4 <= e < R - 1 then e + 1 else NIL
  {
    RefsBounds();
    SmallRefs();
    seq(2 * R, e requires 0 <= e < 2 * R => if e == 0 || e == 2 || e == R then 0 else if 4 <= e < R - 1 then e + 1 else NIL)
  }

  ghost function TightChains(): (cs: seq<seq<nat>>)
    ensures |cs| == InodesIn(2) >= 4
    ensures cs[0] == [1] && cs[1] == [] && cs[2] == [3] && cs[3] == Ascending(4, R)
    ensures forall k :: 4 <= k < |cs| ==> cs[k] == []
  {
    FourFiles();
    seq(InodesIn(2), k => if k == 0 then [1] else if k == 2 then [3] else if k == 3 then Ascending(4, R) else [])
  }

  ghost function Ascending(lo: nat, hi: nat): (c: seq<nat>)
    ensures |c| == if lo <= hi then hi - lo else 0
    ensures forall i :: 0 <= i < |c| ==> c[i] == lo + i
  {
    seq(if lo <= hi then hi - lo else 0, i => lo + i)
  }

  lemma FourFiles()
    ensures InodesIn(2) >= 4
  {
    RefsBounds();
    assert InodesIn(2) == IPB + InodesIn(1) && InodesIn(1) == IPB + InodesIn(0);
  }

  lemma SmallRefs()
    ensures 8 * R <= WORD_LIMIT
  {
    Pow2Monotone(LOG_RPB, 29);
    Pow2Of32();
    assert Pow2(32) == 2 * Pow2(31) && Pow2(31) == 2 * Pow2(30) && Pow2(30) == 2 * Pow2(29);
  }

  lemma {:induction false} SetInode(v: Fat, k: nat, head: Word, size: Word, l: nat)
    requires HasInode(v, k) && HasInode(v, l)
    ensures var v' := WithInode(v, k, head, size);
      && v' == v.(inodes := v'.inodes) && |v'.inodes| == |v.inodes|
      && Head(v', l) == (if l == k then head else Head(v, l)) && Size(v', l) == if l == k then size else Size(v, l)
  {
    if l != k { InodesApart(l, k); InodesApart(k, l); }
  }

  lemma {:induction false} TightInodes(v: Fat)
    requires |v.inodes| == 2 && v.inodes[0] == NullBlock() && v.inodes[1] == NullBlock()
    ensures 8 * R <= WORD_LIMIT && R >= 4
    ensures forall k: nat :: k < 4 ==> InodeBlockNo(k) <= 2
    ensures var v' := WithInode(WithInode(WithInode(v, 0, 1, 1), 2, 3, 1), 3, 4, R - 4);
      && v' == v.(inodes := v'.inodes) && |v'.inodes| == 2
      && forall k: nat :: k < InodesIn(2) ==> InodeOk(v', k, TightChains()[k])
  {
    hide WithInode, InodeBlockNo, InodeWord, InodesIn, Head, Size;
    SmallRefs();
    RefsBounds();
    FourFiles();
    forall k: nat | k < InodesIn(2) ensures InodeBlockNo(k) <= 2 { InodeBlockInRange(2, k); }
    var v1 := WithInode(v, 0, 1, 1);
    SetInode(v, 0, 1, 1, 0);
    var v2 := WithInode(v1, 2, 3, 1);
    SetInode(v1, 2, 3, 1, 0);
    var v3 := WithInode(v2, 3, 4, R - 4);
    SetInode(v2, 3, 4, R - 4, 0);
    forall k: nat | k < InodesIn(2) ensures InodeOk(v3, k, TightChains()[k]) {
      SetInode(v, 0, 1, 1, k);
      SetInode(v1, 2, 3, 1, k);
      SetInode(v2, 3, 4, R - 4, k);
      NewInode(v, k);
    }
  }

  lemma NewInode(v: Fat, k: nat)
    requires HasInode(v, k) && |v.inodes| == 2 && v.inodes[0] == NullBlock() && v.inodes[1] == NullBlock()
    ensures Head(v, k) == 0 && Size(v, k) == 0
  {
    hide InodeBlockNo, InodeWord;
  }

  lemma {:induction false} TightInv()
    ensures Inv(Tight(), TightChains())
  {
    hide InodesIn, Child, InodeOk, Pow2, NFiles, Parent, Slot, IsChain, NoneLost;
    var v, cs := Tight(), TightChains();
    TightFiles(v);
    TightSize();
    TightLosesNone();
    forall k: nat | k < |cs| ensures IsChain(v, cs[k]) { TightChain(k); }
  }

  lemma {:induction false} TightChain(k: nat)
    requires k < |TightChains()|
    ensures IsChain(Tight(), TightChains()[k])
  {
    hide InodesIn, Child, InodeOk, Pow2, NFiles, Parent, Slot;
    var v, c := Tight(), TightChains()[k];
    forall i | 0 <= i < |c| ensures Link(v, c, i) {}
  }

  lemma {:induction false} TightLosesNone()
    ensures NoneLost(Tight(), TightChains())
  {
    hide InodesIn, Child, InodeOk, Pow2, NFiles, Parent, Slot;
    var v, cs := Tight(), TightChains();
    forall e: nat {:trigger v.fat[e]} | e < |v.fat| && e < |v.data| && v.fat[e] != 0 ensures !Unused(cs, e) {
      assert if e == 1 then At(cs, 0, 0, e) else if e == 3 then At(cs, 2, 0, e) else At(cs, 3, e - 4, e);
    }
  }

  lemma TightFiles(v: Fat)
    requires |v.inodes| == 2
    ensures NFiles(v) == InodesIn(2)
  {}

  lemma TightSize()
    ensures IsTable(TightTable(), 2)
    ensures Parent(R) == 1 && Parent(0) == 0 && Parent(2) == 0
  {
    SmallRefs();
    RefsBounds();
    assert Child(2, 0) == R + Child(1, 0) && Child(1, 0) == R + Child(0, 0);
  }

  // ----- Four calls on it -----

  /** The parts of v that matter below: the table and the inodes of files 0 and 1 */
  ghost predicate Stands(v: Fat, fat: seq<Word>, freeList: nat, size0: nat, head1: nat, size1: nat) {
    && v.fat == fat && v.freeList == freeList && v.nfat == 2 && IsTable(v.fat, v.nfat) && |v.data| == R + 1 && |v.inodes| == 2
    && HasInode(v, 0) && HasInode(v, 1) && HasInode(v, 2)
    && Head(v, 0) == 1 && Size(v, 0) == size0 && Size(v, 1) == size1 && (size1 > 0 ==> Head(v, 1) == head1)
  }

  lemma TightStands()
    ensures R >= 4 && 8 * R <= WORD_LIMIT && Stands(Tight(), TightTable(), R, 1, 0, 0)
  {
    hide InodeBlockNo, InodeWord;
    RefsBounds();
    SmallRefs();
    TightSize();
    var v := Tight();
    FourFiles();
    assert InodeOk(v, 0, [1]) && InodeOk(v, 1, []) && HasInode(v, 2) by {
      assert InodeOk(v, 0, TightChains()[0]) && InodeOk(v, 1, TightChains()[1]) && InodeOk(v, 2, TightChains()[2]);
    }
  }

  /** A turn of the loop for the second entry of file k or a later one */
  lemma {:induction false} LinkStands(v: Fat, fat: seq<Word>, f: nat, s0: nat, h1: nat, s1: nat, k: nat, size: Word, last: nat, n: nat)
    requires Stands(v, fat, f, s0, h1, s1) && k < 2 && (k == 1 ==> s1 > 0) && size > 0
    requires f < |fat| && last < |fat| && n < |fat| && n < WORD_LIMIT && f < WORD_LIMIT
    requires Alloc(v) == Allocated(f, v.(fat := fat[f := NIL], freeList := n))
    ensures var s0', s1' := if k == 0 then size else s0, if k == 1 then size else s1;
      Stands(AfterOne(v, k, size, false, last), fat[f := NIL][last := f], n, s0', h1, s1')
  {
    hide Alloc, WithInode, Head, Size;
    var v1 := v.(fat := fat[f := NIL][last := f], freeList := n);
    assert Head(v1, k) == Head(v, k) && Size(v1, 0) == s0 && Size(v1, 1) == s1 && Head(v1, 0) == 1 by { SameFields(v, v1); }
    forall l: nat | l < 3 ensures HasInode(v1, l) {}
    SetInode(v1, k, Head(v, k), size, 0);
    SetInode(v1, k, Head(v, k), size, 1);
    SameFields(v, v1);
    SameFields(v, Alloc(v).v);
  }

  lemma SameFields(v: Fat, v': Fat)
    requires v'.inodes == v.inodes
    ensures forall k: nat :: HasInode(v, k) ==> HasInode(v', k) && Head(v', k) == Head(v, k) && Size(v', k) == Size(v, k)
  {}

  lemma {:induction false} NewFileStands(v: Fat, fat: seq<Word>, f: nat, s0: nat, n: nat)
    requires Stands(v, fat, f, s0, 0, 0) && f < |fat| && n < |fat| && n < WORD_LIMIT && f < WORD_LIMIT
    requires Alloc(v) == Allocated(f, v.(fat := fat[f := NIL], freeList := n))
    ensures Stands(AfterOne(v, 1, 1, true, 0), fat[f := NIL], n, s0, f, 1)
  {
    hide Alloc, WithInode, Head, Size;
    var v1 := v.(fat := fat[f := NIL], freeList := n);
    SameFields(v, v1);
    SetInode(v1, 1, f, 1, 0);
    SetInode(v1, 1, f, 1, 1);
  }

  /** File 2, which is the chain [3], is emptied. */
  lemma {:induction false} EmptiedStands(v: Fat, fat: seq<Word>, f: nat, s0: nat, h1: nat, s1: nat)
    requires Stands(v, fat, f, s0, h1, s1) && |fat| > R >= 4
    ensures InodeBlockNo(2) <= |FreeChain(v, 3, 1).inodes|
    ensures Stands(WithInode(FreeChain(v, 3, 1), 2, 0, 0), fat[3 := 0], f, s0, h1, s1)
  {
    hide WithInode, Head, Size;
    var v1 := v.(fat := v.fat[3 := 0], data := v.data[3 := NullBlock()]);
    assert FreeChain(v, 3, 1) == FreeChain(v1, v.fat[3], 0) == v1;
    SameFields(v, v1);
    SetInode(v1, 2, 0, 0, 0);
    SetInode(v1, 2, 0, 0, 1);
  }

  lemma {:induction false} FirstCall() returns (v1: Fat)
    ensures R >= 4 && 8 * R <= WORD_LIMIT && Stands(v1, TightTable()[R := NIL][1 := R][0 := NIL][R := 0], 2, 3, 0, 0)
    ensures GrowsTo(Tight(), 0, 3, false, 1, 2, [R, 0], v1)
  {
    hide Alloc, IsTable, Tight, WithInode, Head, Size, AfterOne, GrowOn;
    TightStands();
    TightSize();
    var v, t := Tight(), TightTable();
    AllocWraps(v, 0);
    LinkStands(v, t, R, 1, 0, 0, 0, 3, 1, 0);
    var va := AfterOne(v, 0, 3, false, 1);
    AllocAhead(va, 2);
    LinkStands(va, t[R := NIL][1 := R], 0, 3, 0, 0, 0, 3, R, 2);
    v1 := AfterOne(va, 0, 3, false, R);
    GrowsOne(va, 0, 3, false, R);
    GrowsMore(v, 0, 3, false, 1, 1, [0], v1);
    assert [R] + [0] == [R, 0];
  }

  lemma {:induction false} SecondCall(v: Fat, t: seq<Word>) returns (v': Fat)
    requires R >= 4 && 8 * R <= WORD_LIMIT && |t| == 2 * R && t[2] == 0 && t[R] == 0 && Stands(v, t, 2, 3, 0, 0)
    requires forall x: nat :: 2 < x < R ==> t[x] != 0
    ensures GrowsTo(v, 1, 1, true, 0, 1, [2], v') && Stands(v', t[2 := NIL], R, 3, 2, 1)
  {
    hide Alloc, IsTable, WithInode;
    AllocAhead(v, R);
    NewFileStands(v, t, 2, 3, R);
    GrowsOne(v, 1, 1, true, 0);
    v' := AfterOne(v, 1, 1, true, 0);
  }

  lemma {:induction false} ThirdCall(v: Fat, t: seq<Word>) returns (v': Fat)
    requires R >= 4 && 8 * R <= WORD_LIMIT && |t| == 2 * R && t[3] == 0 && t[R] == 0 && Stands(v, t, R, 3, 2, 1)
    requires forall x: nat :: x < 3 || R < x < |t| ==> t[x] != 0
    ensures GrowsTo(v, 1, 2, false, 2, 1, [R], v') && Stands(v', t[R := NIL][2 := R], 3, 3, 2, 2)
  {
    hide Alloc, IsTable, WithInode;
    RefsBounds();
    TightSize();
    AllocWraps(v, 3);
    LinkStands(v, t, R, 3, 2, 1, 1, 2, 2, 3);
    GrowsOne(v, 1, 2, false, 2);
    v' := AfterOne(v, 1, 2, false, 2);
  }

  /** Entry R is in any two chains that files 0 and 1 could be. */
  lemma {:induction false} InTwo(v: Fat, c0: seq<nat>, c1: seq<nat>)
    requires |v.fat| > 2 && v.fat[1] == R && v.fat[2] == R && HasInode(v, 0) && HasInode(v, 1)
    requires Size(v, 0) == 3 && Size(v, 1) == 2 && Head(v, 0) == 1 && Head(v, 1) == 2
    requires InodeOk(v, 0, c0) && InodeOk(v, 1, c1) && IsChain(v, c0) && IsChain(v, c1)
    ensures |c0| == 3 && |c1| == 2 && c0[1] == R && c1[1] == R
  {
    hide InodeBlockNo, InodeWord;
    assert Link(v, c0, 0) && Link(v, c1, 0);
  }

  lemma {:induction false} SharedIsNone(v: Fat, t: seq<Word>, cs: seq<seq<nat>>)
    requires Stands(v, t, 3, 3, 2, 2) && |t| > 2 && t[1] == R && t[2] == R
    ensures !Inv(v, cs)
  {
    hide InodeBlockNo, InodeWord, InodesIn, IsChain, IsTable;
    if Inv(v, cs) {
      FourFiles();
      assert InodeOk(v, 0, cs[0]) && InodeOk(v, 1, cs[1]);
      InTwo(v, cs[0], cs[1]);
      TwoPlaces(cs, R);
    }
  }

  lemma TwoPlaces(cs: seq<seq<nat>>, e: nat)
    requires |cs| >= 2 && |cs[0]| >= 2 && |cs[1]| >= 2 && cs[0][1] == e && cs[1][1] == e
    ensures !Disjoint(cs)
  {
    assert At(cs, 0, 1, e) && At(cs, 1, 1, e);
  }

  lemma FollowOne(v: Fat, e: nat)
    requires e < |v.fat|
    ensures Follow(v, e, 1) == v.fat[e]
  {
    assert Follow(v, v.fat[e], 0) == v.fat[e];
  }

  lemma {:induction false} TightMeetsZero()
    ensures MeetsZero(TightTable(), R, false, 2)
  {
    hide Child, Parent, FreeCount, TightTable, LeastFree, GreatestFree;
    var t := TightTable();
    TightSize();
    TightCounts();
    LeastIs(t, 0, 2 * R, 0);
    GreatestIs(t, 2 * R, R);
  }

  lemma {:induction false} TightCounts()
    ensures FreeCount(TightTable(), R, 2 * R) == 1 && FreeCount(TightTable(), 0, R) == 2
  {
    hide FreeCount, TightTable;
    var t := TightTable();
    CountFrom(t, R, 2 * R);
    CountZero(t, R + 1, 2 * R);
    CountFrom(t, 0, R);
    CountFrom(t, 1, R);
    CountFrom(t, 2, R);
    CountZero(t, 3, R);
  }

  lemma CountFrom(fat: seq<Word>, lo: nat, hi: nat)
    requires lo < hi <= |fat|
    ensures FreeCount(fat, lo, hi) == (if fat[lo] == 0 then 1 else 0) + FreeCount(fat, lo + 1, hi)
  {}

  /** The write that grows file 0 by two gets R and entry 0.  Entry R then looks free; after file 2 has been
      emptied, file 1 gets it, and it is in two files. */
  lemma {:induction false} ZeroIsShared() returns (v1: Fat, v2: Fat, v3: Fat, v4: Fat)
    ensures Inv(Tight(), TightChains()) && Grow(Tight(), 0, 3, false, 1, 2) == ZeroNext
    ensures GrowsTo(Tight(), 0, 3, false, 1, 2, [R, 0], v1) && R < |v1.fat| && v1.fat[R] == 0
    ensures GrowsTo(v1, 1, 1, true, 0, 1, [2], v2)
    ensures HasInode(FreeChain(v2, 3, 1), 2) && v3 == WithInode(FreeChain(v2, 3, 1), 2, 0, 0)
    ensures GrowsTo(v3, 1, 2, false, 2, 1, [R], v4)
    ensures HasInode(v4, 0) && Size(v4, 0) == 3 && Follow(v4, Head(v4, 0), 1) == R
    ensures HasInode(v4, 1) && Size(v4, 1) == 2 && Follow(v4, Head(v4, 1), 1) == R
    ensures forall cs :: !Inv(v4, cs)
  {
    hide Alloc, IsTable, WithInode, GrowOn, Grow, Inv, FreeChain, Tight, MeetsZero, Room, Follow, Head, Size, InodeBlockNo, Parent;
    TightInv();
    TightMeetsZero();
    TightStands();
    TightSize();
    GrowOutcome(Tight(), 0, 3, false, 1, 2);
    v1 := FirstCall();
    v2 := SecondCall(v1, v1.fat);
    EmptiedStands(v2, v2.fat, R, 3, 2, 1);
    v3 := WithInode(FreeChain(v2, 3, 1), 2, 0, 0);
    v4 := ThirdCall(v3, v3.fat);
    FollowOne(v1, 1);
    FollowOne(v4, 1);
    FollowOne(v4, 2);
    forall cs ensures !Inv(v4, cs) { SharedIsNone(v4, v4.fat, cs); }
  }
}
