/** Which free entries of the table a growing file gets, and when it gets too few of them or a wrong one. */
module FatSpace {
  import opened Blocks
  import opened Index
  import opened TreeLayout
  import opened TreeCreate
  import opened FatTable

  // ----- Free entries -----

  /** The least free entry from lo on, or hi if none comes before it */
  ghost function LeastFree(fat: seq<Word>, lo: nat, hi: nat): (e: nat)
    requires lo <= hi <= |fat|
    ensures lo <= e <= hi
    decreases hi - lo
  {
    if lo == hi || fat[lo] == 0 then lo else LeastFree(fat, lo + 1, hi)
  }

  /** The greatest free entry before hi, or 0 if there is none */
  ghost function GreatestFree(fat: seq<Word>, hi: nat): (e: nat)
    requires hi <= |fat|
    ensures forall x: nat :: e < x < hi ==> fat[x] != 0
    ensures hi > 0 ==> e < hi
    ensures forall x: nat :: x < hi && fat[x] == 0 ==> fat[e] == 0
  {
    if hi == 0 then 0 else if fat[hi - 1] == 0 then hi - 1 else GreatestFree(fat, hi - 1)
  }

  /** How many entries from lo on and before hi are free */
  ghost function FreeCount(fat: seq<Word>, lo: nat, hi: nat): nat
    requires lo <= hi <= |fat|
    decreases hi - lo
  {
    if lo == hi then 0 else (if fat[lo] == 0 then 1 else 0) + FreeCount(fat, lo + 1, hi)
  }

  lemma {:induction false} LeastAt(fat: seq<Word>, lo: nat, hi: nat)
    requires lo <= hi <= |fat|
    ensures var e := LeastFree(fat, lo, hi); (e < hi ==> fat[e] == 0) && forall x: nat :: lo <= x < e ==> fat[x] != 0
    decreases hi - lo
  {
    if lo < hi && fat[lo] != 0 { LeastAt(fat, lo + 1, hi); }
  }

  lemma {:induction false} LeastIs(fat: seq<Word>, lo: nat, hi: nat, e: nat)
    requires lo <= e <= hi <= |fat| && (e < hi ==> fat[e] == 0)
    requires forall x: nat :: lo <= x < e ==> fat[x] != 0
    ensures LeastFree(fat, lo, hi) == e
  {
    LeastAt(fat, lo, hi);
  }

  lemma GreatestIs(fat: seq<Word>, hi: nat, e: nat)
    requires e < hi <= |fat| && fat[e] == 0
    requires forall x: nat :: e < x < hi ==> fat[x] != 0
    ensures GreatestFree(fat, hi) == e
  {}

  lemma {:induction false} CountSplit(fat: seq<Word>, lo: nat, m: nat, hi: nat)
    requires lo <= m <= hi <= |fat|
    ensures FreeCount(fat, lo, hi) == FreeCount(fat, lo, m) + FreeCount(fat, m, hi)
    decreases m - lo
  {
    if lo < m { CountSplit(fat, lo + 1, m, hi); }
  }

  lemma {:induction false} CountZero(fat: seq<Word>, lo: nat, hi: nat)
    requires lo <= hi <= |fat|
    ensures FreeCount(fat, lo, hi) == 0 <==> forall x: nat :: lo <= x < hi ==> fat[x] != 0
    decreases hi - lo
  {
    if lo < hi { CountZero(fat, lo + 1, hi); }
  }

  /** The free entries of fat' are those of fat but for f. */
  ghost predicate LessOne(fat: seq<Word>, f: nat, fat': seq<Word>) {
    |fat'| == |fat| && forall x: nat {:trigger fat'[x]} :: x < |fat| ==> (fat'[x] == 0 <==> fat[x] == 0 && x != f)
  }

  lemma {:induction false} CountLess(fat: seq<Word>, f: nat, fat': seq<Word>, lo: nat, hi: nat)
    requires LessOne(fat, f, fat') && lo <= hi <= |fat| && (f < lo || hi <= f)
    ensures FreeCount(fat', lo, hi) == FreeCount(fat, lo, hi)
    decreases hi - lo
  {
    if lo < hi {
      assert fat'[lo] == 0 <==> fat[lo] == 0;
      CountLess(fat, f, fat', lo + 1, hi);
    }
  }

  // ----- The search finds the next free entry, cyclically -----

  /** What find_free_entry finds: the least free entry from f on, else the least before the block of f */
  ghost function NextFree(fat: seq<Word>, f: nat): Found
    requires R >= 1 && f < |fat| && Child(Parent(f), 0) <= |fat|
  {
    var a, b := LeastFree(fat, f, |fat|), LeastFree(fat, 0, Child(Parent(f), 0));
    if a < |fat| then Some(a) else if b < Child(Parent(f), 0) then Some(b) else None
  }

  lemma FirstInBlock(f: nat)
    ensures R >= 1 && Child(Parent(f), 0) + Slot(f) == f
    ensures f < Child(Parent(f) + 1, 0)
  {
    hide Child, Parent, Slot;
    RefsBounds();
    ChildOf(f);
    ChildIndex(Parent(f), Slot(f));
    EntryInTable(Parent(f), Slot(f));
  }

  /** The rest of one block */
  lemma {:induction false} ScanBlock(fat: seq<Word>, b: nat, i: nat, hi: nat)
    requires R >= 1 && i <= R && Child(b + 1, 0) <= hi <= |fat|
    ensures Child(b, 0) + i <= Child(b + 1, 0)
    ensures var k := FreeInBlock(fat, b, i);
      LeastFree(fat, Child(b, 0) + i, hi) == if k < R then Child(b, 0) + k else LeastFree(fat, Child(b + 1, 0), hi)
    decreases R - i
  {
    hide Child, LeastFree, Pow2;
    NextChild(b);
    if i < R {
      ChildIndex(b, i);
      EntryInTable(b, i);
      ScanBlock(fat, b, i + 1, hi);
      LeastStep(fat, Child(b, i), hi);
    }
  }

  lemma LeastStep(fat: seq<Word>, lo: nat, hi: nat)
    requires lo < hi <= |fat|
    ensures LeastFree(fat, lo, hi) == if fat[lo] == 0 then lo else LeastFree(fat, lo + 1, hi)
  {}

  /** One turn of the search */
  lemma FromNext(fat: seq<Word>, n: nat, b: nat, i: nat, left: nat)
    requires IsTable(fat, n) && b < n && i <= R
    ensures Child(b + 1, 0) <= |fat| && Child(b, 0) + R == Child(b + 1, 0)
    ensures left > 0 ==> var k := FreeInBlock(fat, b, i);
      if k < R then FreeFrom(fat, n, b, i, left) == Some(Child(b, 0) + k) && Child(b, 0) + k < |fat|
      else FreeFrom(fat, n, b, i, left) == FreeFrom(fat, n, NextBlock(b, n), 0, left - 1)
  {
    hide FreeInBlock, Child, Parent, Slot;
    NextChild(b);
    ChildMonotone(b + 1, n);
    if left > 0 {
      var k := FreeInBlock(fat, b, i);
      if k < R { ChildIndex(b, k); }
    }
  }

  /** The blocks up to the end of the table */
  lemma {:induction false} ScanToEnd(fat: seq<Word>, n: nat, b: nat, i: nat, left: nat)
    requires IsTable(fat, n) && b < n && i <= R && n - b <= left
    ensures Child(b, 0) + i <= |fat|
    ensures var a := LeastFree(fat, Child(b, 0) + i, |fat|);
      FreeFrom(fat, n, b, i, left) == if a < |fat| then Some(a) else FreeFrom(fat, n, 0, 0, left - (n - b))
    decreases n - b
  {
    hide FreeInBlock, FreeFrom, LeastFree, Child, IsTable, Pow2;
    TableEnd(fat, n);
    FromNext(fat, n, b, i, left);
    ScanBlock(fat, b, i, |fat|);
    if FreeInBlock(fat, b, i) == R && b + 1 < n {
      ScanToEnd(fat, n, b + 1, 0, left - 1);
    }
  }

  lemma TableEnd(fat: seq<Word>, n: nat)
    requires IsTable(fat, n)
    ensures R >= 1 && |fat| == Child(n, 0) && Child(0, 0) == 0
  {}

  /** left blocks, without coming to the end of the table */
  lemma {:induction false} ScanBlocks(fat: seq<Word>, n: nat, b: nat, left: nat, hi: nat)
    requires IsTable(fat, n) && b < n && b + left <= n && hi == Child(b + left, 0)
    ensures Child(b, 0) <= hi <= |fat|
    ensures var a := LeastFree(fat, Child(b, 0), hi); FreeFrom(fat, n, b, 0, left) == if a < hi then Some(a) else None
    decreases left
  {
    hide FreeInBlock, FreeFrom, LeastFree, Child, IsTable, Pow2;
    TableEnd(fat, n);
    ChildMonotone(b, b + left);
    ChildMonotone(b + left, n);
    FromNext(fat, n, b, 0, left);
    if left == 0 {
      FromNone(fat, n, b, 0);
    } else {
      ChildMonotone(b + 1, b + left);
      ScanBlock(fat, b, 0, hi);
      if FreeInBlock(fat, b, 0) == R {
        ScanRest(fat, n, b, left, hi);
      }
    }
  }

  lemma {:induction false} ScanRest(fat: seq<Word>, n: nat, b: nat, left: nat, hi: nat)
    requires IsTable(fat, n) && b < n && b + left <= n && hi == Child(b + left, 0) && left > 0 && Child(b + 1, 0) <= hi <= |fat|
    ensures var a := LeastFree(fat, Child(b + 1, 0), hi);
      FreeFrom(fat, n, NextBlock(b, n), 0, left - 1) == if a < hi then Some(a) else None
    decreases left, 0
  {
    hide FreeInBlock, FreeFrom, LeastFree, Child, IsTable, Pow2;
    if left == 1 {
      FromNone(fat, n, NextBlock(b, n), 0);
    } else {
      ScanBlocks(fat, n, b + 1, left - 1, hi);
    }
  }

  lemma FromNone(fat: seq<Word>, n: nat, b: nat, i: nat)
    requires IsTable(fat, n) && b < n && i <= R
    ensures FreeFrom(fat, n, b, i, 0) == None
  {}

  lemma {:induction false} SearchIsNext(fat: seq<Word>, n: nat, f: nat)
    requires IsTable(fat, n) && f < |fat|
    ensures Parent(f) < n && Child(Parent(f), 0) <= |fat|
    ensures FreeFrom(fat, n, Parent(f), Slot(f), n) == NextFree(fat, f)
  {
    hide FreeFrom, LeastFree, Child, Parent, Slot;
    TableEnd(fat, n);
    EntryBlock(f, n);
    FirstInBlock(f);
    ScanToEnd(fat, n, Parent(f), Slot(f), n);
    ScanBlocks(fat, n, 0, Parent(f), Child(Parent(f), 0));
    ChildIndex(0, 0);
  }

  // ----- How many entries there are to get -----

  /** The free entries from f on, and after them those before f if the search gets to them: it looks at the
      blocks before the one of the last free entry only. */
  ghost function Room(fat: seq<Word>, f: nat): nat
    requires f < |fat|
  {
    FreeCount(fat, f, |fat|) + if GoesRound(fat, f) then FreeCount(fat, 0, f) else 0
  }

  ghost predicate GoesRound(fat: seq<Word>, f: nat)
    requires f < |fat|
  {
    FreeCount(fat, 0, f) > 0 && Parent(LeastFree(fat, 0, |fat|)) < Parent(GreatestFree(fat, |fat|))
  }

  /** Entry 0 is among the first count of them, not as the first entry of a file, and not the last one. */
  ghost predicate MeetsZero(fat: seq<Word>, f: nat, empty: bool, count: nat)
    requires f < |fat|
  {
    if f == 0 then !empty && 0 < count && 1 < Room(fat, f)
    else fat[0] == 0 && Parent(GreatestFree(fat, |fat|)) > 0 && FreeCount(fat, f, |fat|) < count && FreeCount(fat, f, |fat|) + 1 < Room(fat, f)
  }

  /** What is left after one allocation, for any number of further ones */
  ghost predicate OneLess(fat: seq<Word>, f: nat, fat': seq<Word>, f': nat)
    requires f < |fat| && f' < |fat'|
  {
    && Room(fat', f') + 1 == Room(fat, f)
    && forall empty: bool, count: nat :: (f == 0 ==> empty) && count > 0 ==>
      (MeetsZero(fat', f', false, count - 1) <==> MeetsZero(fat, f, empty, count))
  }

  /** Without f, which was the first of the free entries from f on */
  lemma {:induction false} CountsAfter(fat: seq<Word>, f: nat, fat': seq<Word>)
    requires LessOne(fat, f, fat') && f < |fat| && fat[f] == 0
    ensures FreeCount(fat', f, |fat|) + 1 == FreeCount(fat, f, |fat|)
    ensures FreeCount(fat', 0, f) == FreeCount(fat, 0, f)
  {
    assert fat'[f] != 0;
    CountLess(fat, f, fat', f + 1, |fat|);
    CountLess(fat, f, fat', 0, f);
  }

  /** There is another free entry behind f. */
  lemma {:induction false} NextAhead(fat: seq<Word>, f: nat, fat': seq<Word>, f': nat)
    requires LessOne(fat, f, fat') && f < |fat| && fat[f] == 0
    requires f' == LeastFree(fat', f, |fat|) < |fat|
    ensures OneLess(fat, f, fat', f')
  {
    hide FreeCount, LeastFree, GreatestFree;
    var n := |fat|;
    LeastAt(fat, 0, n);
    LeastAt(fat', f, n);
    CountsAfter(fat, f, fat');
    CountSplit(fat', f, f', n);
    CountZero(fat', f, f');
    CountSplit(fat', 0, f, f');
    var g, m := GreatestFree(fat, n), LeastFree(fat, 0, n);
    assert fat'[f'] == 0 && fat'[f] != 0;
    GreatestIs(fat', n, g) by { assert fat[g] == 0 && g >= f'; }
    if FreeCount(fat, 0, f) > 0 {
      CountZero(fat, 0, f);
      LeastIs(fat', 0, n, m);
    }
    assert fat'[0] == 0 <==> fat[0] == 0 && f != 0;
  }

  /** There is none, and the search goes on at the beginning of the table. */
  lemma {:induction false} NextWraps(fat: seq<Word>, f: nat, fat': seq<Word>, f': nat)
    requires LessOne(fat, f, fat') && f < |fat| && fat[f] == 0 && R >= 1
    requires LeastFree(fat', f, |fat|) == |fat| && Child(Parent(f), 0) <= f
    requires f' == LeastFree(fat', 0, Child(Parent(f), 0)) < Child(Parent(f), 0)
    ensures OneLess(fat, f, fat', f')
  {
    hide FreeCount, LeastFree, GreatestFree, Child, Parent;
    var n := |fat|;
    LeastAt(fat', f, n);
    LeastAt(fat', 0, Child(Parent(f), 0));
    CountsAfter(fat, f, fat');
    assert fat'[f'] == 0 && fat[f'] == 0 && (f' > 0 ==> fat'[0] != 0 && fat[0] != 0);
    forall x: nat | f < x < n ensures fat[x] != 0 { assert fat'[x] != 0; }
    GreatestIs(fat, n, f);
    LeastIs(fat, 0, n, f') by { forall x: nat | x < f' ensures fat[x] != 0 { assert fat'[x] != 0; } }
    EntryBlock(f', Parent(f));
    CountZero(fat', f, n);
    CountZero(fat', 0, f');
    CountZero(fat', 0, f);
    CountSplit(fat', 0, f', n);
    CountSplit(fat', 0, f, n);
  }

  /** There is none that the search looks at. */
  lemma {:induction false} NextNone(fat: seq<Word>, f: nat, fat': seq<Word>)
    requires LessOne(fat, f, fat') && f < |fat| && fat[f] == 0 && R >= 1
    requires Child(Parent(f), 0) <= f && NextFree(fat', f) == None
    ensures Room(fat, f) == 1
  {
    hide FreeCount, LeastFree, GreatestFree, Child, Parent;
    var n, b := |fat|, Child(Parent(f), 0);
    LeastAt(fat, 0, n);
    LeastAt(fat', f, n);
    LeastAt(fat', 0, b);
    CountsAfter(fat, f, fat');
    CountZero(fat', f, n);
    forall x: nat | f < x < n ensures fat[x] != 0 { assert fat'[x] != 0; }
    GreatestIs(fat, n, f);
    if FreeCount(fat, 0, f) > 0 {
      var m := LeastFree(fat, 0, n);
      CountZero(fat, 0, f);
      assert fat'[m] == 0 || m == f;
      ParentMonotone(b, m);
    }
  }

  /** One allocation: fat' is any table with the same free entries as the one it leaves. */
  lemma {:induction false} OneAllocation(v: Fat, fat': seq<Word>)
    requires IsTable(v.fat, v.nfat) && v.freeList < |v.fat| && v.fat[v.freeList] == 0 && LessOne(v.fat, v.freeList, fat')
    ensures Alloc(v).Full? ==> Room(v.fat, v.freeList) == 1
    ensures Alloc(v).Allocated? ==> fat'[Alloc(v).v.freeList] == 0 && OneLess(v.fat, v.freeList, fat', Alloc(v).v.freeList)
  {
    hide FreeFrom, Room, OneLess, Child, Parent, Slot, LeastFree, GreatestFree, IsTable;
    var f, fat1 := v.freeList, v.fat[v.freeList := NIL];
    TableKept(v, f, NIL);
    SearchIsNext(fat1, v.nfat, f);
    FirstInBlock(f);
    SameNext(fat1, fat', f);
    match NextFree(fat', f)
    case None => NextNone(v.fat, f, fat');
    case Some(n) => if LeastFree(fat', f, |fat'|) < |fat'| { NextAhead(v.fat, f, fat', n); } else { NextWraps(v.fat, f, fat', n); }
  }

  lemma TableKept(v: Fat, n: nat, w: Word)
    requires IsTable(v.fat, v.nfat) && n < |v.fat|
    ensures IsTable(v.fat[n := w], v.nfat)
  {}

  lemma {:induction false} SameNext(fat: seq<Word>, fat': seq<Word>, f: nat)
    requires R >= 1 && f < |fat| && Child(Parent(f), 0) <= |fat| && |fat'| == |fat|
    requires forall x: nat {:trigger fat[x]} {:trigger fat'[x]} :: x < |fat| ==> (fat[x] == 0 <==> fat'[x] == 0)
    ensures NextFree(fat, f) == NextFree(fat', f)
  {
    hide LeastFree;
    LeastAt(fat, f, |fat|);
    LeastAt(fat, 0, Child(Parent(f), 0));
    LeastIs(fat', f, |fat|, LeastFree(fat, f, |fat|));
    LeastIs(fat', 0, Child(Parent(f), 0), LeastFree(fat, 0, Child(Parent(f), 0)));
  }

  // ----- The outcome of growing a file -----

  /** A growing file is refused an entry exactly if there are not enough, and gets entry 0 as a successor
      exactly if that is among those it needs. */
  lemma {:induction false} GrowOutcome(v: Fat, k: nat, size: Word, empty: bool, last: nat, count: nat)
    requires IsTable(v.fat, v.nfat) && v.freeList < |v.fat| && v.fat[v.freeList] == 0 && InodeBlockNo(k) <= |v.inodes|
    requires !empty ==> last < |v.fat| && v.fat[last] != 0
    ensures Grow(v, k, size, empty, last, count) == ZeroNext <==> MeetsZero(v.fat, v.freeList, empty, count)
    ensures Grow(v, k, size, empty, last, count) == NoSpace <==>
      !MeetsZero(v.fat, v.freeList, empty, count) && 0 < count && count >= Room(v.fat, v.freeList)
    decreases count
  {
    hide Room, MeetsZero, WithInode, IsTable, Alloc, LessOne;
    var f, fat := v.freeList, v.fat;
    RoomLeft(fat, f, empty);
    if count > 0 {
      OneAllocation(v, fat[f := NIL]) by { MarkedIsLess(fat, f); }
      if Alloc(v).Full? {
        LastOne(fat, f, empty, count);
      } else if !empty && f == 0 {
        RoomLeft(fat[f := NIL], Alloc(v).v.freeList, false);
        ZeroFirst(fat, f, count);
      } else {
        var v2 := AfterOne(v, k, size, empty, last);
        AfterIsLess(v, k, size, empty, last);
        OneAllocation(v, v2.fat);
        RoomLeft(v2.fat, v2.freeList, false);
        GrowOutcome(v2, k, size, false, f, count - 1);
        assert Room(v2.fat, v2.freeList) + 1 == Room(fat, f);
        assert MeetsZero(v2.fat, v2.freeList, false, count - 1) <==> MeetsZero(fat, f, empty, count);
      }
    }
  }

  lemma MarkedIsLess(fat: seq<Word>, f: nat)
    requires f < |fat|
    ensures LessOne(fat, f, fat[f := NIL])
  {}

  lemma RoomLeft(fat: seq<Word>, f: nat, empty: bool)
    requires f < |fat| && fat[f] == 0
    ensures Room(fat, f) >= 1 && !MeetsZero(fat, f, empty, 0)
  {}

  lemma LastOne(fat: seq<Word>, f: nat, empty: bool, count: nat)
    requires f < |fat| && fat[f] == 0 && Room(fat, f) == 1 && count > 0
    ensures !MeetsZero(fat, f, empty, count)
  {}

  lemma ZeroFirst(fat: seq<Word>, f: nat, count: nat)
    requires f == 0 < |fat| && Room(fat, f) >= 2 && count > 0
    ensures MeetsZero(fat, f, false, count)
  {}

  /** The table after one turn of the loop */
  lemma {:induction false} AfterIsLess(v: Fat, k: nat, size: Word, empty: bool, last: nat)
    requires IsTable(v.fat, v.nfat) && v.freeList < |v.fat| && v.fat[v.freeList] == 0 && InodeBlockNo(k) <= |v.inodes|
    requires (!empty ==> last < |v.fat| && v.fat[last] != 0 && v.freeList != 0) && Alloc(v).Allocated?
    ensures var v2 := AfterOne(v, k, size, empty, last);
      && LessOne(v.fat, v.freeList, v2.fat) && v2.freeList == Alloc(v).v.freeList < |v2.fat| == |v.fat|
      && v2.fat[v.freeList] != 0
      && IsTable(v2.fat, v2.nfat) && InodeBlockNo(k) <= |v2.inodes|
  {
    hide Alloc;
  }

  // ----- What the source does with entry 0 -----

  /** The loop of fatdisk_write as it is: entry 0 is linked like any other. */
  ghost function GrowOn(v: Fat, k: nat, size: Word, empty: bool, last: nat, count: nat): Growth
    requires IsTable(v.fat, v.nfat) && v.freeList < |v.fat| && (!empty ==> last < |v.fat|) && InodeBlockNo(k) <= |v.inodes|
    decreases count
  {
    if count == 0 then Grown(v, [])
    else if Alloc(v).Full? then NoSpace
    else
      var e, v2 := Alloc(v).e, AfterOne(v, k, size, empty, last);
      match GrowOn(v2, k, size, false, e, count - 1)
      case Grown(v3, added) => Grown(v3, [e as nat] + added)
      case other => other
  }

  /** That is the growth specified before, unless entry 0 becomes a successor. */
  lemma {:induction false} GrowOnIsGrow(v: Fat, k: nat, size: Word, empty: bool, last: nat, count: nat)
    requires IsTable(v.fat, v.nfat) && v.freeList < |v.fat| && (!empty ==> last < |v.fat|) && InodeBlockNo(k) <= |v.inodes|
    requires Grow(v, k, size, empty, last, count) != ZeroNext
    ensures GrowOn(v, k, size, empty, last, count) == Grow(v, k, size, empty, last, count)
    decreases count
  {
    hide Alloc;
    if count > 0 && Alloc(v).Allocated? {
      GrowOnIsGrow(AfterOne(v, k, size, empty, last), k, size, false, Alloc(v).e, count - 1);
    }
  }

  /** The write of an offset that makes file k longer by count blocks appends the entries added. */
  ghost predicate GrowsTo(v: Fat, k: nat, size: Word, empty: bool, last: nat, count: nat, added: seq<nat>, v': Fat) {
    && IsTable(v.fat, v.nfat) && v.freeList < |v.fat| && (!empty ==> last < |v.fat|) && HasInode(v, k)
    && GrowOn(v, k, size, empty, last, count) == Grown(v', added)
  }

  lemma {:induction false} GrowsOne(v: Fat, k: nat, size: Word, empty: bool, last: nat)
    requires IsTable(v.fat, v.nfat) && v.freeList < |v.fat| && (!empty ==> last < |v.fat|) && HasInode(v, k)
    requires Alloc(v).Allocated?
    ensures GrowsTo(v, k, size, empty, last, 1, [Alloc(v).e as nat], AfterOne(v, k, size, empty, last))
  {
    hide Alloc;
    var v2 := AfterOne(v, k, size, empty, last);
    assert GrowOn(v2, k, size, false, Alloc(v).e, 0) == Grown(v2, []);
  }

  lemma {:induction false} GrowsMore(v: Fat, k: nat, size: Word, empty: bool, last: nat, count: nat, added: seq<nat>, v': Fat)
    requires IsTable(v.fat, v.nfat) && v.freeList < |v.fat| && (!empty ==> last < |v.fat|) && HasInode(v, k)
    requires Alloc(v).Allocated?
    requires GrowsTo(AfterOne(v, k, size, empty, last), k, size, false, Alloc(v).e, count, added, v')
    ensures GrowsTo(v, k, size, empty, last, count + 1, [Alloc(v).e as nat] + added, v')
  {
    hide Alloc, AfterOne;
  }

  /** Where entry 0 becomes a successor, the entry before it is free again, though it is in the file. */
  lemma {:induction false} ZeroFrees(v: Fat, k: nat, size: Word, empty: bool, last: nat, count: nat)
      returns (n: nat, added: seq<nat>, v': Fat)
    requires IsTable(v.fat, v.nfat) && v.freeList < |v.fat| && (!empty ==> last < |v.fat|) && HasInode(v, k)
    requires Grow(v, k, size, empty, last, count) == ZeroNext
    ensures 1 <= n <= count && |added| == n && added[n - 1] == 0
    ensures GrowsTo(v, k, size, empty, last, n, added, v')
    ensures (empty ==> n > 1) && var p := if n == 1 then last else added[n - 2]; p < |v'.fat| && v'.fat[p] == 0
    decreases count
  {
    hide Alloc;
    var e, v2 := Alloc(v).e, AfterOne(v, k, size, empty, last);
    if !empty && e == 0 {
      n, added, v' := 1, [0], v2;
      GrowsOne(v, k, size, empty, last);
    } else {
      var n2, added2;
      n2, added2, v' := ZeroFrees(v2, k, size, false, e, count - 1);
      n, added := n2 + 1, [e as nat] + added2;
      GrowsMore(v, k, size, empty, last, n2, added2, v');
    }
  }

  // ----- The largest offset -----

  /** The last block of the table is block. */
  ghost function Overwritten(v: Fat, block: Block): Fat
    requires IsTable(v.fat, v.nfat) && v.nfat >= 1
  {
    ChildMonotone(v.nfat - 1, v.nfat);
    v.(fat := v.fat[..Child(v.nfat - 1, 0)] + block)
  }

  lemma {:induction false} OverwrittenAt(v: Fat, block: Block)
    requires IsTable(v.fat, v.nfat) && v.nfat >= 1
    ensures IsTable(Overwritten(v, block).fat, v.nfat)
    ensures forall n: nat :: n < |v.fat| ==> Parent(n) < v.nfat
    ensures forall n: nat {:trigger Overwritten(v, block).fat[n]} :: n < |v.fat| ==>
      Overwritten(v, block).fat[n] == if Parent(n) == v.nfat - 1 then block[Slot(n)] else v.fat[n]
  {
    hide Child, Parent, Slot;
    var v', m := Overwritten(v, block), Child(v.nfat - 1, 0);
    NextChild(v.nfat - 1);
    ChildMonotone(v.nfat - 1, v.nfat);
    forall n: nat | n < |v.fat|
      ensures Parent(n) < v.nfat && v'.fat[n] == if Parent(n) == v.nfat - 1 then block[Slot(n)] else v.fat[n]
    {
      EntryBlock(n, v.nfat);
      FirstInBlock(n);
      if Parent(n) < v.nfat - 1 { ChildMonotone(Parent(n) + 1, v.nfat - 1); }
    }
  }

  /** The files are still there exactly if the block is what was there, but for entries without a data block,
      which only must not be 0. */
  lemma {:induction false} OverwrittenInv(v: Fat, cs: seq<seq<nat>>, block: Block)
    requires Inv(v, cs)
    ensures v.nfat >= 1 && (Inv(Overwritten(v, block), cs) <==> KeepsAll(v, block))
  {
    hide Parent, Slot, Child, Inv, Overwritten, IsTable, KeepsAll;
    HasTable(v, cs);
    OverwrittenFrame(v, block);
    AgreeIs(v, cs, block);
    if Inv(Overwritten(v, block), cs) { EntriesAgree(v, Overwritten(v, block), cs); }
    if KeepsAll(v, block) { AgreeKeeps(v, Overwritten(v, block), cs); }
  }

  ghost predicate KeepsAll(v: Fat, block: Block) {
    forall e: nat :: e < |v.fat| && Parent(e) + 1 == v.nfat ==> Keeps(v, e, block[Slot(e)])
  }

  lemma {:induction false} AgreeIs(v: Fat, cs: seq<seq<nat>>, block: Block)
    requires Inv(v, cs) && IsTable(v.fat, v.nfat) && v.nfat >= 1
    ensures Agree(v, Overwritten(v, block)) <==> KeepsAll(v, block)
  {
    hide Parent, Slot, Child, Inv, Overwritten, IsTable;
    OverwrittenAt(v, block);
    OverwrittenFrame(v, block);
    UsedBehind(v, cs);
    var v' := Overwritten(v, block);
    if Agree(v, v') {
      forall e: nat | e < |v.fat| && Parent(e) + 1 == v.nfat ensures Keeps(v, e, block[Slot(e)]) {
        assert Keeps(v, e, v'.fat[e]);
      }
    }
  }

  /** Entry e may be w, as far as the files go. */
  ghost predicate Keeps(v: Fat, e: nat, w: Word)
    requires e < |v.fat|
  {
    if e < |v.data| then w == v.fat[e] else w != 0
  }

  /** The tables are the same as far as the data blocks go, and have no free entries beyond. */
  ghost predicate Agree(v: Fat, v': Fat) {
    |v'.fat| == |v.fat| && forall e: nat {:trigger v'.fat[e]} :: e < |v.fat| ==> Keeps(v, e, v'.fat[e])
  }

  lemma OverwrittenFrame(v: Fat, block: Block)
    requires IsTable(v.fat, v.nfat) && v.nfat >= 1
    ensures Overwritten(v, block) == v.(fat := Overwritten(v, block).fat) && |Overwritten(v, block).fat| == |v.fat|
  {
    NextChild(v.nfat - 1);
  }

  lemma UsedBehind(v: Fat, cs: seq<seq<nat>>)
    requires Inv(v, cs)
    ensures forall e: nat :: |v.data| <= e < |v.fat| ==> v.fat[e] != 0
  {}

  lemma {:induction false} EntriesAgree(v: Fat, v': Fat, cs: seq<seq<nat>>)
    requires Inv(v, cs) && Inv(v', cs) && v' == v.(fat := v'.fat) && |v'.fat| == |v.fat|
    ensures Agree(v, v')
  {
    hide InodeOk, IsTable, Disjoint;
    forall e: nat | e < |v.fat| ensures Keeps(v, e, v'.fat[e]) {
      if e < |v.data| && (v.fat[e] != 0 || v'.fat[e] != 0) {
        var k: nat, i: nat :| At(cs, k, i, e);
        assert Link(v, cs[k], i) && Link(v', cs[k], i);
      }
    }
  }

  lemma {:induction false} AgreeKeeps(v: Fat, v': Fat, cs: seq<seq<nat>>)
    requires Inv(v, cs) && Agree(v, v') && v' == v.(fat := v'.fat)
    ensures Inv(v', cs)
  {
    hide Disjoint;
    forall k | 0 <= k < |cs| ensures IsChain(v', cs[k]) { ChainFrame(v, v', cs[k]); }
    forall e: nat {:trigger v'.fat[e]} | e < |v'.fat| && e < |v'.data| && v'.fat[e] != 0 ensures !Unused(cs, e) {
      assert v.fat[e] != 0;
    }
    forall k: nat | k < |cs| ensures InodeOk(v', k, cs[k]) { assert InodeOk(v, k, cs[k]); }
  }

  lemma HasTable(v: Fat, cs: seq<seq<nat>>)
    requires Inv(v, cs)
    ensures IsTable(v.fat, v.nfat) && v.nfat >= 1 && v.freeList < |v.fat|
  {
    EntryBlock(v.freeList, v.nfat);
  }
}
