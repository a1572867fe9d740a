/** A file system with a file allocation table: the table as values, and what the operations do to it. */
module FatTable {
  import opened Blocks
  import opened Index
  import opened TreeLayout
  import opened TreeFS
  import opened TreeCreate

  /** The mark of the last entry of a file: -1 as an unsigned number */
  const NIL: Word := 0xFFFF_FFFF

  /** The disk in its parts: fat_free_list and n_fatblocks of the superblock, the inode blocks, the entries of
      the table, and the data blocks; entry n belongs to data block n. */
  datatype Fat = Fat(freeList: Word, nfat: Word, inodes: seq<Block>, fat: seq<Word>, data: seq<Block>)

  // ----- Files -----

  function NFiles(v: Fat): nat {
    InodesIn(|v.inodes|)
  }

  ghost predicate HasInode(v: Fat, k: nat) {
    InodeBlockNo(k) <= |v.inodes|
  }

  function Head(v: Fat, k: nat): Word
    requires InodeBlockNo(k) <= |v.inodes|
  {
    v.inodes[InodeBlockNo(k) - 1][InodeWord(k)]
  }

  function Size(v: Fat, k: nat): Word
    requires InodeBlockNo(k) <= |v.inodes|
  {
    v.inodes[InodeBlockNo(k) - 1][InodeWord(k) + 1]
  }

  /** c is a chain of entries that ends with NIL.  Entry 0 may only be the first: as a successor it would
      make its predecessor look free. */
  ghost predicate IsChain(v: Fat, c: seq<nat>) {
    && (forall i :: 0 <= i < |c| ==> c[i] < |v.fat| && c[i] < |v.data|)
    && (forall i {:trigger Link(v, c, i)} :: 0 <= i < |c| ==> Link(v, c, i))
  }

  ghost predicate Link(v: Fat, c: seq<nat>, i: nat)
    requires i < |c|
  {
    && c[i] < |v.fat|
    && if i + 1 < |c| then c[i + 1] != 0 && v.fat[c[i]] == c[i + 1] else v.fat[c[i]] == NIL
  }

  /** The entry at position i of file k */
  ghost predicate At(cs: seq<seq<nat>>, k: nat, i: nat, e: nat) {
    k < |cs| && i < |cs[k]| && cs[k][i] == e
  }

  /** No entry is in two places of chains. */
  ghost predicate Disjoint(cs: seq<seq<nat>>) {
    forall k: nat, i: nat, l: nat, j: nat, e: nat :: At(cs, k, i, e) && At(cs, l, j, e) ==> k == l && i == j
  }

  ghost predicate FreeOk(v: Fat) {
    && v.freeList < |v.fat| && v.fat[v.freeList] == 0
    && (forall e :: 0 <= e < |v.fat| && v.fat[e] == 0 ==> e < |v.data| && v.data[e] == NullBlock())
  }

  /** All but the inodes: the chains of the files are in the table and apart, the free list names a free
      entry, and the blocks of free entries are there and are zero. */
  ghost predicate Core(v: Fat, cs: seq<seq<nat>>) {
    && IsTable(v.fat, v.nfat)
    && |cs| == NFiles(v)
    && (forall k :: 0 <= k < |cs| ==> IsChain(v, cs[k]))
    && Disjoint(cs) && FreeOk(v)
  }

  ghost predicate InodeOk(v: Fat, k: nat, c: seq<nat>) {
    HasInode(v, k) && Size(v, k) == |c| && (c != [] ==> Head(v, k) == c[0])
  }

  /** Entry e is in no chain. */
  ghost predicate Unused(cs: seq<seq<nat>>, e: nat) {
    forall k: nat, i: nat :: !At(cs, k, i, e)
  }

  /** Every entry that has a block is free or in a chain: none is lost. */
  ghost predicate NoneLost(v: Fat, cs: seq<seq<nat>>) {
    forall e: nat {:trigger v.fat[e]} :: e < |v.fat| && e < |v.data| && v.fat[e] != 0 ==> !Unused(cs, e)
  }

  ghost predicate Inv(v: Fat, cs: seq<seq<nat>>) {
    Core(v, cs) && NoneLost(v, cs) && forall k: nat :: k < |cs| ==> InodeOk(v, k, cs[k])
  }

  ghost function File(v: Fat, c: seq<nat>): (f: seq<Block>)
    ensures |f| == |c|
  {
    seq(|c|, i requires 0 <= i < |c| => if c[i] < |v.data| then v.data[c[i]] else NullBlock())
  }

  ghost function Files(v: Fat, cs: seq<seq<nat>>): (fs: seq<seq<Block>>)
    ensures |fs| == |cs|
  {
    seq(|cs|, k requires 0 <= k < |cs| => File(v, cs[k]))
  }

  // ----- The search for a free entry -----

  /** The first unused entry of fat block b from position i on, or R */
  ghost function FreeInBlock(fat: seq<Word>, b: nat, i: nat): (k: nat)
    requires i <= R && Child(b + 1, 0) <= |fat| && R >= 1
    ensures i <= k <= R
    ensures k < R ==> Child(b, k) < |fat| && fat[Child(b, k)] == 0
    ensures forall j :: i <= j < k ==> EntryUsed(fat, b, j)
    decreases R - i
  {
    if i == R then i
    else
      EntryInTable(b, i);
      if fat[Child(b, i)] == 0 then i else FreeInBlock(fat, b, i + 1)
  }

  ghost predicate EntryUsed(fat: seq<Word>, b: nat, j: nat)
    requires j < R
  {
    Child(b, j) < |fat| && fat[Child(b, j)] != 0
  }

  lemma EntryInTable(b: nat, i: nat)
    requires i < R
    ensures Child(b, i) < Child(b + 1, 0)
  {
    RefsBounds();
    ChildIndex(b, i);
    ChildIndex(b + 1, 0);
    ChildIndex(b, 0);
    NextChild(b);
  }

  lemma NextChild(b: nat)
    ensures R >= 1 && Child(b + 1, 0) == Child(b, 0) + R
  {
    RefsBounds();
  }

  function NextBlock(b: nat, n: nat): nat {
    if b + 1 >= n then 0 else b + 1
  }

  /** The table has n blocks. */
  ghost predicate IsTable(fat: seq<Word>, n: nat) {
    R >= 1 && |fat| == Child(n, 0) && |fat| < WORD_LIMIT
  }

  datatype Found = None | Some(n: nat)

  /** The loop of find_free_entry: left blocks from block b on, cyclically, the first from position i on */
  ghost function FreeFrom(fat: seq<Word>, n: nat, b: nat, i: nat, left: nat): (r: Found)
    requires IsTable(fat, n) && b < n && i <= R
    ensures r.Some? ==> r.n < |fat| && fat[r.n] == 0
    decreases left
  {
    if left == 0 then None
    else
      ChildMonotone(b + 1, n);
      var k := FreeInBlock(fat, b, i);
      if k < R then Some(Child(b, k)) else FreeFrom(fat, n, NextBlock(b, n), 0, left - 1)
  }

  /** How many blocks after b block c comes, cyclically */
  ghost function Distance(b: nat, c: nat, n: nat): int {
    if c >= b then c - b else c + n - b
  }

  lemma {:induction false} NothingInBlock(fat: seq<Word>, n: nat, b: nat, i: nat, left: nat, e: nat)
    requires IsTable(fat, n) && b < n && i <= R && 0 < left && FreeFrom(fat, n, b, i, left) == None && e < |fat|
    ensures Parent(e) == b && Slot(e) >= i ==> fat[e] != 0
    ensures FreeFrom(fat, n, NextBlock(b, n), 0, left - 1) == None
  {
    hide Parent, Slot, Child;
    ChildMonotone(b + 1, n);
    if Parent(e) == b && Slot(e) >= i {
      ChildOf(e);
      assert EntryUsed(fat, b, Slot(e));
    }
  }

  lemma {:induction false} NothingFound(fat: seq<Word>, n: nat, b: nat, i: nat, left: nat, e: nat)
    requires IsTable(fat, n) && b < n && i <= R && left <= n && FreeFrom(fat, n, b, i, left) == None
    requires e < |fat| && Parent(e) < n && Distance(b, Parent(e), n) < left && (Parent(e) == b ==> Slot(e) >= i)
    ensures fat[e] != 0
    decreases left
  {
    hide Parent, Slot, Child, IsTable, FreeInBlock, EntryUsed, Pow2;
    NothingInBlock(fat, n, b, i, left, e);
    if Parent(e) != b {
      NothingFound(fat, n, NextBlock(b, n), 0, left - 1, e);
    }
  }

  lemma {:induction false} EntryBlock(e: nat, n: nat)
    requires R >= 1 && e < Child(n, 0)
    ensures Parent(e) < n
  {
    RefsBounds();
    if Parent(e) >= n {
      ChildOf(e);
      ChildIndex(Parent(e), Slot(e));
      if Parent(e) > n { ChildMonotone(n + 1, Parent(e)); }
      NextChild(n);
    }
  }

  /** Entry e comes before position i in block b, where the search never looks. */
  ghost predicate Missed(e: nat, b: nat, i: nat) {
    Parent(e) == b && Slot(e) < i
  }

  /** find_free_entry gives up exactly if the only free entries are those before the start in its block. */
  lemma {:induction false} FindsUnlessMissed(fat: seq<Word>, n: nat, b: nat, i: nat)
    requires IsTable(fat, n) && b < n && i <= R
    ensures FreeFrom(fat, n, b, i, n) == None <==> forall e: nat :: e < |fat| && fat[e] == 0 ==> Missed(e, b, i)
  {
    if FreeFrom(fat, n, b, i, n) == None {
      forall e: nat | e < |fat| && fat[e] == 0 ensures Missed(e, b, i) {
        EntryBlock(e, n);
        if !Missed(e, b, i) { NothingFound(fat, n, b, i, n, e); }
      }
    } else {
      FoundIsAhead(fat, n, b, i, n, b, i);
    }
  }

  lemma {:induction false} FoundIsAhead(fat: seq<Word>, n: nat, b: nat, i: nat, left: nat, b0: nat, i0: nat)
    requires IsTable(fat, n) && b < n && b0 < n && i <= R && FreeFrom(fat, n, b, i, left).Some?
    requires (b == b0 && i == i0) || (i == 0 && left <= n - Distance(b0, b, n) && b != b0)
    requires b == b0 ==> left <= n
    ensures !Missed(FreeFrom(fat, n, b, i, left).n, b0, i0)
    decreases left
  {
    hide Child, Parent, Slot;
    ChildMonotone(b + 1, n);
    var k := FreeInBlock(fat, b, i);
    if k == R && left > 1 {
      FoundIsAhead(fat, n, NextBlock(b, n), 0, left - 1, b0, i0);
    }
  }

  // ----- Allocation -----

  datatype Allocation = Full | Allocated(e: Word, v: Fat)

  /** fatdisk_alloc: the entry that the free list names, marked as a last one; the search for the next
      starts behind it. */
  ghost function Alloc(v: Fat): (a: Allocation)
    requires IsTable(v.fat, v.nfat) && v.freeList < |v.fat|
    ensures a.Allocated? ==> a.e == v.freeList && a.v.fat == v.fat[a.e := NIL] && IsTable(a.v.fat, a.v.nfat)
    ensures a.Allocated? ==> a.v.freeList < |a.v.fat| && a.v.fat[a.v.freeList] == 0
    ensures a.Allocated? ==> a.v.inodes == v.inodes && a.v.data == v.data && a.v.nfat == v.nfat
  {
    RefsBounds();
    var e, fat := v.freeList, v.fat[v.freeList := NIL];
    EntryBlock(e, v.nfat);
    match FreeFrom(fat, v.nfat, Parent(e), Slot(e), v.nfat)
    case None => Full
    case Some(n) => Allocated(e, v.(fat := fat, freeList := n))
  }

  /** Exactly if the only other free entries are before the entry in its block of the table, the allocation
      panics though the disk is not full. */
  lemma {:induction false} FullMeans(v: Fat)
    requires IsTable(v.fat, v.nfat) && v.freeList < |v.fat|
    ensures Alloc(v).Full? <==>
      forall e: nat :: e < |v.fat| && v.fat[e] == 0 && e != v.freeList ==> Missed(e, Parent(v.freeList), Slot(v.freeList))
  {
    var e := v.freeList;
    EntryBlock(e, v.nfat);
    FindsUnlessMissed(v.fat[e := NIL], v.nfat, Parent(e), Slot(e));
  }

  // ----- Growing a file -----

  /** ZeroNext: entry 0 would become the successor of another one, which then looks free. */
  datatype Growth = NoSpace | ZeroNext | Grown(v: Fat, added: seq<nat>)

  /** The inode of file k with head and size */
  function WithInode(v: Fat, k: nat, head: Word, size: Word): Fat
    requires InodeBlockNo(k) <= |v.inodes|
  {
    v.(inodes := v.inodes[InodeBlockNo(k) - 1 := v.inodes[InodeBlockNo(k) - 1][InodeWord(k) := head][InodeWord(k) + 1 := size]])
  }

  /** The loop of fatdisk_write: count entries are appended to file k, whose last entry is last if it has one. */
  ghost function Grow(v: Fat, k: nat, size: Word, empty: bool, last: nat, count: nat): (g: Growth)
    requires IsTable(v.fat, v.nfat) && v.freeList < |v.fat| && (!empty ==> last < |v.fat|) && InodeBlockNo(k) <= |v.inodes|
    decreases count
  {
    if count == 0 then Grown(v, [])
    else
      match Alloc(v)
      case Full => NoSpace
      case Allocated(e, v1) =>
        if !empty && e == 0 then ZeroNext
        else
          var v2 := if empty then WithInode(v1, k, e, size)
                    else WithInode(v1.(fat := v1.fat[last := e]), k, Head(v1, k), size);
          match Grow(v2, k, size, false, e, count - 1)
          case Grown(v3, added) => Grown(v3, [e as nat] + added)
          case other => other
  }

  /** Chain c is as it was if its entries are. */
  lemma {:induction false} ChainFrame(v: Fat, v': Fat, c: seq<nat>)
    requires IsChain(v, c) && |v'.fat| == |v.fat| && |v'.data| == |v.data|
    requires forall i :: 0 <= i < |c| ==> c[i] < |v.fat| && v'.fat[c[i]] == v.fat[c[i]]
    ensures IsChain(v', c)
  {
    forall i | 0 <= i < |c| ensures Link(v', c, i) { assert Link(v, c, i); }
  }

  lemma {:induction false} UsedNotFree(v: Fat, c: seq<nat>, i: nat)
    requires IsChain(v, c) && i < |c|
    ensures c[i] < |v.fat| && v.fat[c[i]] != 0
  {
    assert Link(v, c, i);
  }

  /** An entry has been taken off the free ones, and is in no chain yet. */
  ghost predicate Taken(v: Fat, cs: seq<seq<nat>>, e: nat) {
    Core(v, cs) && e < |v.fat| && e < |v.data| && v.fat[e] == NIL && v.data[e] == NullBlock() && Unused(cs, e)
  }

  lemma {:induction false} AllocKeeps(v: Fat, cs: seq<seq<nat>>)
    requires Core(v, cs) && Alloc(v).Allocated?
    ensures Taken(Alloc(v).v, cs, Alloc(v).e)
  {
    var e, v' := v.freeList, Alloc(v).v;
    forall k: nat, i: nat | At(cs, k, i, e) ensures false {
      UsedNotFree(v, cs[k], i);
    }
    forall k | 0 <= k < |cs| ensures IsChain(v', cs[k]) {
      forall i | 0 <= i < |cs[k]| ensures cs[k][i] != e { assert At(cs, k, i, cs[k][i]); }
      ChainFrame(v, v', cs[k]);
    }
  }

  /** Entry e is appended to chain k; a former last entry gets it as its successor. */
  lemma {:induction false} AppendKeeps(v: Fat, cs: seq<seq<nat>>, k: nat, e: nat, v': Fat)
    requires Taken(v, cs, e) && k < |cs| && e < WORD_LIMIT && (cs[k] != [] ==> e != 0)
    requires v' == if cs[k] == [] then v else v.(fat := v.fat[cs[k][|cs[k]| - 1] := e])
    ensures Core(v', cs[k := cs[k] + [e]])
  {
    var c, cs' := cs[k] + [e], cs[k := cs[k] + [e]];
    AppendChain(v, cs, k, e, v');
    forall l | 0 <= l < |cs'| && l != k ensures IsChain(v', cs'[l]) {
      forall i | 0 <= i < |cs[l]| ensures cs[l][i] < |v.fat| && v'.fat[cs[l][i]] == v.fat[cs[l][i]] {
        assert At(cs, l, i, cs[l][i]);
        if cs[k] != [] { assert At(cs, k, |cs[k]| - 1, cs[k][|cs[k]| - 1]); }
      }
      ChainFrame(v, v', cs[l]);
    }
    forall l: nat, i: nat, m: nat, j: nat, x | At(cs', l, i, x) && At(cs', m, j, x) ensures l == m && i == j {
      assert l != k || i < |cs[k]| ==> At(cs, l, i, x);
      assert m != k || j < |cs[k]| ==> At(cs, m, j, x);
    }
    if cs[k] != [] { UsedNotFree(v, cs[k], |cs[k]| - 1); }
  }

  lemma {:induction false} AppendChain(v: Fat, cs: seq<seq<nat>>, k: nat, e: nat, v': Fat)
    requires Taken(v, cs, e) && k < |cs| && e < WORD_LIMIT && (cs[k] != [] ==> e != 0)
    requires v' == if cs[k] == [] then v else v.(fat := v.fat[cs[k][|cs[k]| - 1] := e])
    ensures IsChain(v', cs[k] + [e])
  {
    var c0, c := cs[k], cs[k] + [e];
    forall i | 0 <= i < |c| ensures c[i] < |v.fat| && c[i] < |v.data| && Link(v', c, i) {
      if i < |c0| {
        assert Link(v, c0, i) && At(cs, k, i, c0[i]) && At(cs, k, |c0| - 1, c0[|c0| - 1]);
      } else if c0 != [] {
        assert At(cs, k, |c0| - 1, c0[|c0| - 1]);
      }
    }
  }

  /** What growing a file by count blocks has done */
  ghost predicate GrownBy(v: Fat, cs: seq<seq<nat>>, k: nat, size: Word, v': Fat, added: seq<nat>, count: nat)
    requires k < |cs| && HasInode(v, k)
  {
    var c := cs[k] + added;
    && |added| == count && Core(v', cs[k := c]) && v'.data == v.data
    && (forall i :: 0 <= i < count ==> added[i] < |v.data| && v.data[added[i]] == NullBlock())
    && (NoneLost(v, cs) ==> NoneLost(v', cs[k := c]))
    && (count == 0 ==> v' == v)
    && (count > 0 ==> c[0] < WORD_LIMIT && v'.inodes == WithInode(v, k, if cs[k] == [] then c[0] else Head(v, k), size).inodes)
  }

  lemma {:induction false} GrowKeeps(v: Fat, cs: seq<seq<nat>>, k: nat, size: Word, empty: bool, last: nat, count: nat)
    requires Core(v, cs) && k < |cs| && HasInode(v, k)
    requires empty == (cs[k] == []) && (!empty ==> last == cs[k][|cs[k]| - 1])
    requires IsTable(v.fat, v.nfat) && v.freeList < |v.fat| && (!empty ==> last < |v.fat|)
    requires cs[k] != [] ==> cs[k][0] < WORD_LIMIT
    requires Grow(v, k, size, empty, last, count).Grown?
    ensures var g := Grow(v, k, size, empty, last, count); GrownBy(v, cs, k, size, g.v, g.added, count)
    decreases count
  {
    hide Core, Alloc, WithInode, NoneLost;
    if count == 0 {
      assert cs[k] + [] == cs[k] && cs[k := cs[k]] == cs;
    } else {
      var e := Alloc(v).e;
      var v2 := AfterOne(v, k, size, empty, last);
      var cs2 := cs[k := cs[k] + [e as nat]];
      GrowOne(v, cs, k, size, empty, last);
      if NoneLost(v, cs) { GrowLosesNone(v, cs, k, size, empty, last); }
      GrowKeeps(v2, cs2, k, size, false, e, count - 1);
      var g := Grow(v2, k, size, false, e, count - 1);
      GrowJoin(v, cs, k, size, e, v2, g.v, g.added, count);
    }
  }

  /** One turn of the loop */
  ghost function AfterOne(v: Fat, k: nat, size: Word, empty: bool, last: nat): Fat
    requires IsTable(v.fat, v.nfat) && v.freeList < |v.fat| && (!empty ==> last < |v.fat|) && InodeBlockNo(k) <= |v.inodes|
    requires Alloc(v).Allocated?
  {
    var e, v1 := Alloc(v).e, Alloc(v).v;
    if empty then WithInode(v1, k, e, size) else WithInode(v1.(fat := v1.fat[last := e]), k, Head(v1, k), size)
  }

  lemma {:induction false} GrowOne(v: Fat, cs: seq<seq<nat>>, k: nat, size: Word, empty: bool, last: nat)
    requires Core(v, cs) && k < |cs| && HasInode(v, k)
    requires empty == (cs[k] == []) && (!empty ==> last == cs[k][|cs[k]| - 1])
    requires v.freeList < |v.fat| && (!empty ==> last < |v.fat|) && IsTable(v.fat, v.nfat)
    requires Alloc(v).Allocated? && (!empty ==> Alloc(v).e != 0)
    ensures var e, v2 := Alloc(v).e, AfterOne(v, k, size, empty, last);
      && Core(v2, cs[k := cs[k] + [e as nat]]) && IsTable(v2.fat, v2.nfat) && v2.freeList < |v2.fat| && e < |v2.fat|
      && e < |v.data| && v.data[e] == NullBlock() && v2.data == v.data && HasInode(v2, k)
      && v2.inodes == WithInode(v, k, if empty then e else Head(v, k), size).inodes
      && Head(v2, k) == if empty then e else Head(v, k)
  {
    hide WithInode, Alloc;
    AllocKeeps(v, cs);
    AllocFrame(v);
    var e, v1 := Alloc(v).e, Alloc(v).v;
    var v1' := if empty then v1 else v1.(fat := v1.fat[last := e]);
    AppendKeeps(v1, cs, k, e, v1');
    var h := if empty then e else Head(v1, k);
    WithInodeFrame(v1', k, h, size);
    WithInodeFrame(v, k, h, size);
    InodesApartCore(v1', WithInode(v1', k, h, size), cs[k := cs[k] + [e as nat]]);
    TwiceInode(v1', k, h, size);
    SameInodes(v, v1', k, h, size);
  }

  lemma {:induction false} GrowLosesNone(v: Fat, cs: seq<seq<nat>>, k: nat, size: Word, empty: bool, last: nat)
    requires Core(v, cs) && k < |cs| && HasInode(v, k)
    requires empty == (cs[k] == []) && (!empty ==> last == cs[k][|cs[k]| - 1])
    requires v.freeList < |v.fat| && (!empty ==> last < |v.fat|) && IsTable(v.fat, v.nfat)
    requires Alloc(v).Allocated? && (!empty ==> Alloc(v).e != 0) && NoneLost(v, cs)
    ensures NoneLost(AfterOne(v, k, size, empty, last), cs[k := cs[k] + [Alloc(v).e as nat]])
  {
    hide WithInode, Alloc, IsTable, FreeOk, Disjoint;
    var e, v2 := Alloc(v).e, AfterOne(v, k, size, empty, last);
    var cs2 := cs[k := cs[k] + [e as nat]];
    var v1' := if empty then Alloc(v).v else Alloc(v).v.(fat := Alloc(v).v.fat[last := e]);
    WithInodeFrame(v1', k, if empty then e else Head(v1', k), size);
    if !empty { UsedNotFree(v, cs[k], |cs[k]| - 1); }
    assert At(cs2, k, |cs[k]|, e);
    forall x: nat {:trigger v2.fat[x]} | x < |v2.fat| && x < |v2.data| && v2.fat[x] != 0 ensures !Unused(cs2, x) {
      if x != e {
        assert v.fat[x] != 0;
        var l: nat, i: nat :| At(cs, l, i, x);
        assert At(cs2, l, i, x);
      } else { assert At(cs2, k, |cs[k]|, x); }
    }
  }

  lemma AllocFrame(v: Fat)
    requires IsTable(v.fat, v.nfat) && v.freeList < |v.fat| && Alloc(v).Allocated?
    ensures Alloc(v).v.inodes == v.inodes && Alloc(v).v.data == v.data
  {}

  lemma SameInodes(v: Fat, v': Fat, k: nat, head: Word, size: Word)
    requires HasInode(v, k) && v'.inodes == v.inodes
    ensures WithInode(v', k, head, size).inodes == WithInode(v, k, head, size).inodes
  {}

  lemma WithInodeFrame(v: Fat, k: nat, head: Word, size: Word)
    requires HasInode(v, k)
    ensures var v' := WithInode(v, k, head, size); v' == v.(inodes := v'.inodes) && |v'.inodes| == |v.inodes|
  {}

  /** One turn, and count - 1 more */
  lemma {:induction false} GrowJoin(v: Fat, cs: seq<seq<nat>>, k: nat, size: Word, e: Word, v2: Fat, v': Fat, added: seq<nat>, count: nat)
    requires k < |cs| && HasInode(v, k) && HasInode(v2, k) && count > 0
    requires e < |v.data| && v.data[e] == NullBlock() && v2.data == v.data
    requires v2.inodes == WithInode(v, k, if cs[k] == [] then e else Head(v, k), size).inodes
    requires Head(v2, k) == if cs[k] == [] then e else Head(v, k)
    requires GrownBy(v2, cs[k := cs[k] + [e as nat]], k, size, v', added, count - 1)
    requires cs[k] != [] ==> cs[k][0] < WORD_LIMIT
    requires NoneLost(v, cs) ==> NoneLost(v2, cs[k := cs[k] + [e as nat]])
    ensures GrownBy(v, cs, k, size, v', [e as nat] + added, count)
  {
    hide Core, WithInode, NoneLost;
    var cs2, all := cs[k := cs[k] + [e as nat]], [e as nat] + added;
    assert cs[k] + all == cs[k] + [e as nat] + added;
    assert cs2[k := cs2[k] + added] == cs[k := cs[k] + all];
    var h := if cs[k] == [] then e else Head(v, k);
    SameInodes(WithInode(v, k, h, size), v2, k, h, size) by { WithInodeFrame(v, k, h, size); }
    TwiceInode(v, k, h, size);
  }

  /** The inodes do not matter to the table. */
  lemma InodesApartCore(v: Fat, v': Fat, cs: seq<seq<nat>>)
    requires Core(v, cs) && v' == v.(inodes := v'.inodes) && |v'.inodes| == |v.inodes|
    ensures Core(v', cs)
  {
    forall k | 0 <= k < |cs| ensures IsChain(v', cs[k]) { ChainFrame(v, v', cs[k]); }
  }

  lemma TwiceInode(v: Fat, k: nat, head: Word, size: Word)
    requires HasInode(v, k)
    ensures var v' := WithInode(v, k, head, size);
      Head(v', k) == head && Size(v', k) == size && WithInode(v', k, head, size) == v'
  {
    var b := WithInode(v, k, head, size).inodes[InodeBlockNo(k) - 1];
    assert b[InodeWord(k) := head][InodeWord(k) + 1 := size] == b;
  }

  // ----- Following a chain -----

  /** The entry i steps after start: fatdisk_traverse */
  ghost function Follow(v: Fat, start: nat, i: nat): nat
    decreases i
  {
    if i == 0 then start else if start < |v.fat| then Follow(v, v.fat[start], i - 1) else start
  }

  lemma {:induction false} FollowChain(v: Fat, c: seq<nat>, j: nat, i: nat)
    requires IsChain(v, c) && j + i < |c|
    ensures Follow(v, c[j], i) == c[j + i]
    decreases i
  {
    if i > 0 {
      assert Link(v, c, j);
      FollowChain(v, c, j + 1, i - 1);
    }
  }

  // ----- Writing -----

  ghost predicate Wrote(v: Fat, cs: seq<seq<nat>>, k: nat, o: nat, block: Block, v': Fat, cs': seq<seq<nat>>)
    requires k < |cs|
  {
    Inv(v', cs') && |cs'| == |cs| && Files(v', cs') == Files(v, cs)[k := WriteAt(Files(v, cs)[k], o, block)]
  }

  lemma {:induction false} WriteKeeps(v: Fat, cs: seq<seq<nat>>, k: nat, o: Word, block: Block, v1: Fat, added: seq<nat>, count: nat)
    requires Inv(v, cs) && k < |cs| && HasInode(v, k) && o + 1 < WORD_LIMIT
    requires count == (if o >= |cs[k]| then o + 1 - |cs[k]| else 0) && GrownBy(v, cs, k, o + 1, v1, added, count)
    ensures var c := cs[k] + added;
      && o < |c| && c[o] < |v1.data| && |c| == (if o >= |cs[k]| then o + 1 else |cs[k]|)
      && Wrote(v, cs, k, o, block, v1.(data := v1.data[c[o] := block]), cs[k := c])
  {
    hide FreeOk, NoneLost;
    var c, cs' := cs[k] + added, cs[k := cs[k] + added];
    assert cs'[k] == c && IsChain(v1, c);
    var v2 := v1.(data := v1.data[c[o] := block]);
    SameLost(v1, v2, cs');
    WriteCore(v1, cs', k, o, block);
    InodesAfter(v, cs, k, o, v1, added, count, cs');
    forall l: nat | l < |cs'| ensures InodeOk(v2, l, cs'[l]) {
      assert InodeOk(v1, l, cs'[l]);
    }
    assert InodeOk(v, k, cs[k]);
    FilesAfter(v, cs, k, o, block, v1, added, count);
  }

  lemma SameLost(v: Fat, v': Fat, cs: seq<seq<nat>>)
    requires v'.fat == v.fat && |v'.data| == |v.data|
    ensures NoneLost(v', cs) <==> NoneLost(v, cs)
  {}

  lemma {:induction false} WriteCore(v: Fat, cs: seq<seq<nat>>, k: nat, o: nat, block: Block)
    requires Core(v, cs) && k < |cs| && o < |cs[k]| && cs[k][o] < |v.data|
    ensures Core(v.(data := v.data[cs[k][o] := block]), cs)
  {
    var v' := v.(data := v.data[cs[k][o] := block]);
    UsedNotFree(v, cs[k], o);
    forall l | 0 <= l < |cs| ensures IsChain(v', cs[l]) { ChainFrame(v, v', cs[l]); }
  }

  lemma {:induction false} InodesAfter(v: Fat, cs: seq<seq<nat>>, k: nat, o: Word, v1: Fat, added: seq<nat>, count: nat, cs': seq<seq<nat>>)
    requires Inv(v, cs) && k < |cs| && HasInode(v, k) && o + 1 < WORD_LIMIT
    requires count == (if o >= |cs[k]| then o + 1 - |cs[k]| else 0) && GrownBy(v, cs, k, o + 1, v1, added, count)
    requires cs' == cs[k := cs[k] + added]
    ensures forall l: nat :: l < |cs'| ==> InodeOk(v1, l, cs'[l])
  {
    hide Core;
    forall l: nat | l < |cs'| ensures InodeOk(v1, l, cs'[l]) {
      assert InodeOk(v, l, cs[l]) && InodeOk(v, k, cs[k]);
      if l != k { InodesApart(l, k); InodesApart(k, l); }
      if count > 0 { TwiceInode(v, k, if cs[k] == [] then (cs[k] + added)[0] else Head(v, k), o + 1); }
    }
  }

  lemma {:induction false} FilesAfter(v: Fat, cs: seq<seq<nat>>, k: nat, o: Word, block: Block, v1: Fat, added: seq<nat>, count: nat)
    requires Core(v, cs) && k < |cs| && HasInode(v, k) && o + 1 < WORD_LIMIT
    requires count == (if o >= |cs[k]| then o + 1 - |cs[k]| else 0) && GrownBy(v, cs, k, o + 1, v1, added, count)
    ensures var c := cs[k] + added;
      && o < |c| && c[o] < |v1.data|
      && Files(v1.(data := v1.data[c[o] := block]), cs[k := c]) == Files(v, cs)[k := WriteAt(Files(v, cs)[k], o, block)]
  {
    hide FreeOk, Link;
    var c, cs' := cs[k] + added, cs[k := cs[k] + added];
    assert cs'[k] == c && IsChain(v1, c);
    var v2 := v1.(data := v1.data[c[o] := block]);
    assert At(cs', k, o, c[o]);
    forall l | 0 <= l < |cs| ensures Files(v2, cs')[l] == Files(v, cs)[k := WriteAt(Files(v, cs)[k], o, block)][l] {
      if l == k {
        forall i | 0 <= i < |c| && i != o ensures c[i] != c[o] { assert At(cs', k, i, c[i]); }
        assert File(v2, c) == WriteAt(File(v, cs[k]), o, block) by { hide Core, Disjoint; }
      } else {
        assert cs'[l] == cs[l];
        forall i | 0 <= i < |cs[l]| ensures cs[l][i] != c[o] { assert At(cs', l, i, cs[l][i]); }
        assert File(v2, cs[l]) == File(v, cs[l]);
      }
    }
  }

  /** The chain after growing, and that the inode names its first entry */
  lemma {:induction false} GrownChain(v: Fat, cs: seq<seq<nat>>, k: nat, size: Word, v1: Fat, added: seq<nat>, count: nat)
    requires k < |cs| && HasInode(v, k) && GrownBy(v, cs, k, size, v1, added, count)
    requires InodeOk(v, k, cs[k]) && (count > 0 || cs[k] != [])
    ensures IsChain(v1, cs[k] + added) && HasInode(v1, k) && Head(v1, k) == (cs[k] + added)[0]
  {
    hide Disjoint, FreeOk, IsTable;
    assert cs[k := cs[k] + added][k] == cs[k] + added;
    if count > 0 { TwiceInode(v, k, if cs[k] == [] then (cs[k] + added)[0] else Head(v, k), size); }
  }

  // ----- Emptying -----

  /** The loop of fatdisk_free_file: n entries from e on */
  ghost function FreeChain(v: Fat, e: nat, n: nat): Fat
    decreases n
  {
    if n == 0 || e >= |v.fat| || e >= |v.data| then v
    else FreeChain(v.(fat := v.fat[e := 0], data := v.data[e := NullBlock()]), v.fat[e], n - 1)
  }

  lemma {:induction false} FreeChainKeeps(v: Fat, cs: seq<seq<nat>>, k: nat)
    requires Core(v, cs) && k < |cs| && cs[k] != []
    ensures var v' := FreeChain(v, cs[k][0], |cs[k]|);
      && Core(v', cs[k := []]) && v'.inodes == v.inodes
      && (NoneLost(v, cs) ==> NoneLost(v', cs[k := []]))
      && (forall l :: 0 <= l < |cs| && l != k ==> File(v', cs[l]) == File(v, cs[l]))
      && (forall i :: 0 <= i < |cs[k]| ==> cs[k][i] < |v'.fat| && v'.fat[cs[k][i]] == 0)
    decreases |cs[k]|
  {
    hide Disjoint, FreeOk, NoneLost, IsTable;
    var c := cs[k];
    var v1 := v.(fat := v.fat[c[0] := 0], data := v.data[c[0] := NullBlock()]);
    var cs1 := cs[k := c[1..]];
    FreeFirst(v, cs, k);
    if NoneLost(v, cs) { FreeLosesNone(v, cs, k); }
    assert Link(v, c, 0);
    if |c| > 1 {
      FreeChainKeeps(v1, cs1, k);
      assert cs1[k := []] == cs[k := []];
      var v' := FreeChain(v1, c[1], |c| - 1);
      FreedStays(v1, c[1], |c| - 1, c[0]);
      forall i | 0 <= i < |c| ensures c[i] < |v'.fat| && v'.fat[c[i]] == 0 {
        if i > 0 { assert c[i] == cs1[k][i - 1]; }
      }
      forall l | 0 <= l < |cs| && l != k ensures File(v', cs[l]) == File(v, cs[l]) { assert cs1[l] == cs[l]; }
    } else {
      assert c[1..] == [];
    }
  }

  lemma {:induction false} FreedStays(v: Fat, e: nat, n: nat, x: nat)
    requires x < |v.fat| && v.fat[x] == 0
    ensures |FreeChain(v, e, n).fat| == |v.fat| && FreeChain(v, e, n).fat[x] == 0
    decreases n
  {
    if !(n == 0 || e >= |v.fat| || e >= |v.data|) {
      FreedStays(v.(fat := v.fat[e := 0], data := v.data[e := NullBlock()]), v.fat[e], n - 1, x);
    }
  }

  /** The first entry of a chain is freed. */
  lemma {:induction false} FreeFirst(v: Fat, cs: seq<seq<nat>>, k: nat)
    requires Core(v, cs) && k < |cs| && cs[k] != []
    ensures cs[k][0] < |v.fat| && cs[k][0] < |v.data|
    ensures var e := cs[k][0];
      var v1 := v.(fat := v.fat[e := 0], data := v.data[e := NullBlock()]);
      && Core(v1, cs[k := cs[k][1..]])
      && forall l :: 0 <= l < |cs| && l != k ==> File(v1, cs[l]) == File(v, cs[l])
  {
    var c, e, cs1 := cs[k], cs[k][0], cs[k := cs[k][1..]];
    assert IsChain(v, c);
    var v1 := v.(fat := v.fat[e := 0], data := v.data[e := NullBlock()]);
    assert At(cs, k, 0, e);
    forall l: nat, i: nat, x | At(cs1, l, i, x) ensures At(cs, l, if l == k then i + 1 else i, x) {}
    forall l: nat, i: nat, m: nat, j: nat, x | At(cs1, l, i, x) && At(cs1, m, j, x) ensures l == m && i == j {
      assert At(cs, l, if l == k then i + 1 else i, x) && At(cs, m, if m == k then j + 1 else j, x);
    }
    forall l | 0 <= l < |cs1| ensures IsChain(v1, cs1[l]) {
      RestChain(v, cs, k, l, v1);
    }
    forall l | 0 <= l < |cs| && l != k ensures File(v1, cs[l]) == File(v, cs[l]) {
      forall i | 0 <= i < |cs[l]| ensures cs[l][i] != e { assert At(cs, l, i, cs[l][i]); }
    }
  }

  lemma {:induction false} FreeLosesNone(v: Fat, cs: seq<seq<nat>>, k: nat)
    requires k < |cs| && cs[k] != [] && NoneLost(v, cs) && cs[k][0] < |v.fat| && cs[k][0] < |v.data|
    ensures NoneLost(v.(fat := v.fat[cs[k][0] := 0], data := v.data[cs[k][0] := NullBlock()]), cs[k := cs[k][1..]])
  {
    var e, cs1 := cs[k][0], cs[k := cs[k][1..]];
    forall x: nat | x < |v.fat| && x < |v.data| && x != e && v.fat[x] != 0 ensures !Unused(cs1, x) {
      var l: nat, i: nat :| At(cs, l, i, x);
      assert At(cs1, l, if l == k then i - 1 else i, x);
    }
  }

  lemma {:induction false} RestChain(v: Fat, cs: seq<seq<nat>>, k: nat, l: nat, v1: Fat)
    requires Core(v, cs) && k < |cs| && l < |cs| && cs[k] != [] && cs[k][0] < |v.fat| && cs[k][0] < |v.data|
    requires v1 == v.(fat := v.fat[cs[k][0] := 0], data := v.data[cs[k][0] := NullBlock()])
    ensures IsChain(v1, cs[k := cs[k][1..]][l])
  {
    var c := if l == k then cs[k][1..] else cs[l];
    assert IsChain(v, cs[l]) && At(cs, k, 0, cs[k][0]);
    forall i | 0 <= i < |c| ensures c[i] < |v.fat| && c[i] < |v.data| && Link(v1, c, i) {
      var j := if l == k then i + 1 else i;
      assert At(cs, l, j, c[i]) && Link(v, cs[l], j);
    }
  }

  /** File k is empty: its entries are free, and the other files are as they were. */
  lemma {:induction false} EmptyKeeps(v: Fat, cs: seq<seq<nat>>, k: nat)
    requires Inv(v, cs) && k < |cs| && cs[k] != [] && HasInode(v, k)
    ensures var v1 := FreeChain(v, cs[k][0], |cs[k]|);
      && HasInode(v1, k)
      && var v' := WithInode(v1, k, 0, 0);
      && Inv(v', cs[k := []]) && Files(v', cs[k := []]) == Files(v, cs)[k := []]
      && forall i :: 0 <= i < |cs[k]| ==> cs[k][i] < |v'.fat| && v'.fat[cs[k][i]] == 0
  {
    hide FreeOk, Disjoint, IsTable, FreeChain, NoneLost;
    FreeChainKeeps(v, cs, k);
    var v1, cs' := FreeChain(v, cs[k][0], |cs[k]|), cs[k := []];
    var v' := WithInode(v1, k, 0, 0);
    WithInodeFrame(v1, k, 0, 0);
    InodesApartCore(v1, v', cs');
    SameLost(v1, v', cs');
    EmptyInodes(v, cs, k, v1, cs');
    forall l | 0 <= l < |cs| ensures Files(v', cs')[l] == Files(v, cs)[k := []][l] {
      if l != k { assert File(v', cs[l]) == File(v1, cs[l]); }
    }
  }

  lemma {:induction false} EmptyInodes(v: Fat, cs: seq<seq<nat>>, k: nat, v1: Fat, cs': seq<seq<nat>>)
    requires Inv(v, cs) && k < |cs| && HasInode(v, k) && v1.inodes == v.inodes && cs' == cs[k := []]
    ensures forall l: nat :: l < |cs'| ==> InodeOk(WithInode(v1, k, 0, 0), l, cs'[l])
  {
    hide Core;
    forall l: nat | l < |cs'| ensures InodeOk(WithInode(v1, k, 0, 0), l, cs'[l]) {
      assert InodeOk(v, l, cs[l]);
      if l != k { InodesApart(l, k); InodesApart(k, l); } else { TwiceInode(v1, k, 0, 0); }
    }
  }
}
