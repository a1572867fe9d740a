/** Files on a block store, chained through a file allocation table. */
module FatDisks {
  import opened Blocks
  import opened Index
  import opened Clock
  import opened TreeLayout
  import TreeFS
  import opened TreeCreate
  import TreeCheck
  import opened FatTable
  import opened FatSpace
  import opened FatRuns
  import opened FatCreate

  // ----- Where the parts are on the disk -----

  /** The disk d holds v. */
  ghost predicate Shows(d: seq<Block>, v: Fat) {
    && R >= 4 && |d| == 1 + |v.inodes| + v.nfat + |v.data| < WORD_LIMIT
    && d[0][0] == |v.inodes| && d[0][1] == v.nfat && d[0][2] == v.freeList
    && IsTable(v.fat, v.nfat)
    && (forall i :: 0 <= i < |v.inodes| ==> d[1 + i] == v.inodes[i])
    && (forall n: nat {:trigger v.fat[n]} :: n < |v.fat| ==> EntryAt(d, |v.inodes|, n) == v.fat[n])
    && (forall i :: 0 <= i < |v.data| ==> d[1 + |v.inodes| + v.nfat + i] == v.data[i])
  }

  /** Entry n as it is on the disk, or 0 if its block is not there */
  ghost function EntryAt(d: seq<Block>, nib: nat, n: nat): Word {
    if nib + Parent(n) + 1 < |d| then d[nib + Parent(n) + 1][Slot(n)] else 0
  }

  lemma {:induction false} EntryShown(d: seq<Block>, v: Fat, n: nat)
    requires Shows(d, v) && n < |v.fat|
    ensures |v.inodes| + Parent(n) + 1 < 1 + |v.inodes| + v.nfat <= |d|
    ensures d[|v.inodes| + Parent(n) + 1][Slot(n)] == v.fat[n]
  {
    EntryBlock(n, v.nfat);
    assert EntryAt(d, |v.inodes|, n) == v.fat[n];
  }

  lemma {:induction false} EntryWritten(d: seq<Block>, v: Fat, n: nat, w: Word)
    requires Shows(d, v) && n < |v.fat|
    ensures |v.inodes| + Parent(n) + 1 < |d|
    ensures var b := |v.inodes| + Parent(n) + 1;
      Shows(d[b := d[b][Slot(n) := w]], v.(fat := v.fat[n := w]))
  {
    hide IsTable, Parent, Slot;
    EntryShown(d, v, n);
    var b := |v.inodes| + Parent(n) + 1;
    var d', v' := d[b := d[b][Slot(n) := w]], v.(fat := v.fat[n := w]);
    TableKept(v, n, w);
    forall m: nat {:trigger v'.fat[m]} | m < |v'.fat| ensures EntryAt(d', |v.inodes|, m) == v'.fat[m] {
      EntryShown(d, v, m);
      if m != n && Parent(m) == Parent(n) { SlotsApart(m, n); }
    }
  }

  lemma {:induction false} DataWritten(d: seq<Block>, v: Fat, n: nat, block: Block)
    requires Shows(d, v) && n < |v.data|
    ensures Shows(d[|v.inodes| + 1 + v.nfat + n := block], v.(data := v.data[n := block]))
  {
    hide IsTable, Parent, Slot;
    var d' := d[|v.inodes| + 1 + v.nfat + n := block];
    forall m: nat {:trigger v.fat[m]} | m < |v.fat| ensures EntryAt(d', |v.inodes|, m) == v.fat[m] {
      EntryShown(d, v, m);
    }
  }

  lemma {:induction false} InodeWritten(d: seq<Block>, v: Fat, k: nat, head: Word, size: Word)
    requires Shows(d, v) && HasInode(v, k)
    ensures var b := InodeBlockNo(k);
      Shows(d[b := d[b][InodeWord(k) := head][InodeWord(k) + 1 := size]], WithInode(v, k, head, size))
  {
    hide IsTable, Parent, Slot;
    var b := InodeBlockNo(k);
    var d' := d[b := d[b][InodeWord(k) := head][InodeWord(k) + 1 := size]];
    forall m: nat {:trigger v.fat[m]} | m < |v.fat| ensures EntryAt(d', |v.inodes|, m) == v.fat[m] {
      EntryShown(d, v, m);
    }
  }

  lemma {:induction false} FreeListWritten(d: seq<Block>, v: Fat, n: Word)
    requires Shows(d, v)
    ensures Shows(d[0 := d[0][2 := n]], v.(freeList := n))
  {
    hide IsTable, Parent, Slot;
    var d' := d[0 := d[0][2 := n]];
    forall m: nat {:trigger v.fat[m]} | m < |v.fat| ensures EntryAt(d', |v.inodes|, m) == v.fat[m] {
      EntryShown(d, v, m);
    }
  }

  lemma {:induction false} InodeShown(d: seq<Block>, v: Fat, k: nat)
    requires Shows(d, v)
    ensures k < NFiles(v) ==> HasInode(v, k)
    ensures HasInode(v, k) ==> InodeBlockNo(k) < |d| && d[InodeBlockNo(k)] == v.inodes[InodeBlockNo(k) - 1]
  {
    hide IsTable, EntryAt;
    if k < NFiles(v) { InodeBlockInRange(|v.inodes|, k); }
    if HasInode(v, k) { assert d[1 + (InodeBlockNo(k) - 1)] == v.inodes[InodeBlockNo(k) - 1]; }
  }

  // ----- The operations -----

  /** DiskFull: the source panics.  Wraps: the largest 32-bit offset, for which the data goes over the last block
      of the table.  EntryZero: entry 0 would become a successor. */
  datatype WriteResult = Done | BadInode | DiskFull | Wraps | EntryZero

  /** TooWide: a disk of 2^32 - 1 blocks, at whose end the count of blocks may wrap */
  datatype CreateResult = TooSmall | TooWide | Kept | Made

  class FatDisk {
    const below: ClockDisk
    ghost var v: Fat
    ghost var chains: seq<seq<nat>>

    constructor (below: ClockDisk, ghost v: Fat, ghost chains: seq<seq<nat>>)
      requires below.Valid() && below.below.reliable && Shows(below.Store(), v) && Inv(v, chains)
      ensures Valid() && this.below == below && this.v == v && this.chains == chains
    {
      this.below, this.v, this.chains := below, v, chains;
    }

    ghost predicate Ready()
      reads this, below.Repr()
    {
      below.Valid() && below.below.reliable && Shows(below.Store(), v)
    }

    ghost predicate Valid()
      reads this, below.Repr()
    {
      Ready() && Inv(v, chains)
    }

    // ----- Positions, with the superblock read each time -----

    method ReadSuper() returns (super: Block)
      requires Ready()
      modifies below.Repr()
      ensures Ready() && below.Store() == old(below.Store()) && super == below.Store()[0]
      ensures R >= 4 && super[0] == |v.inodes| && super[1] == v.nfat && super[2] == v.freeList
    {
      hide IsTable, EntryAt;
      var ok;
      ok, super := below.Read(0);
    }

    /** find_fat_blockno */
    method FatBlockNo(n: nat) returns (b: nat)
      requires Ready()
      modifies below.Repr()
      ensures Ready() && below.Store() == old(below.Store()) && b == |v.inodes| + Parent(n) + 1
    {
      hide IsTable;
      var ok, super := below.Read(0);
      RefsBounds();
      ParentIsQuotient(n);
      b := super[0] + n / R + 1;
    }

    /** fatentry_to_datablock */
    method DataBlockNo(n: nat) returns (b: nat)
      requires Ready()
      modifies below.Repr()
      ensures Ready() && below.Store() == old(below.Store())
      ensures b == (|v.inodes| + 1 + v.nfat + n) % WORD_LIMIT
      ensures n < |v.data| ==> b == |v.inodes| + 1 + v.nfat + n
    {
      hide IsTable, EntryAt;
      var ok, super := below.Read(0);
      b := (super[0] + 1 + super[1] + n) % WORD_LIMIT;
    }

    /** The entry n of the table */
    method ReadEntry(n: nat) returns (w: Word)
      requires Ready() && n < |v.fat|
      modifies below.Repr()
      ensures Ready() && below.Store() == old(below.Store()) && w == v.fat[n]
    {
      hide IsTable;
      var b := FatBlockNo(n);
      EntryShown(below.Store(), v, n);
      var ok, block := below.Read(b);
      w := block[Slot(n)];
    }

    /** Entry n set to w */
    method WriteEntry(n: nat, w: Word)
      requires Ready() && n < |v.fat|
      modifies this`v, below.Repr()
      ensures Ready() && v == old(v).(fat := old(v).fat[n := w]) && below.Store()[0] == old(below.Store())[0]
    {
      hide IsTable, EntryAt, Shows, Coherent, Parent, Slot, Hits, Misses;
      var b := FatBlockNo(n);
      EntryShown(below.Store(), v, n);
      var ok, block := below.Read(b);
      EntryWritten(below.Store(), v, n, w);
      ok := below.Write(b, block[Slot(n) := w]);
      v := v.(fat := v.fat[n := w]);
    }

    method WriteData(n: nat, block: Block)
      requires Ready() && n < |v.data|
      modifies this`v, below.Repr()
      ensures Ready() && v == old(v).(data := old(v).data[n := block])
    {
      hide IsTable, EntryAt, Shows, Coherent, Parent, Slot, Hits, Misses;
      var b := DataBlockNo(n);
      DataShown(below.Store(), v, n);
      DataWritten(below.Store(), v, n, block);
      var ok := below.Write(b, block);
      v := v.(data := v.data[n := block]);
    }

    // ----- Allocation -----

    /** find_free_entry, from block bno, which is the one with the entry that the free list names */
    method FindFree(bno0: nat) returns (r: Found)
      requires Ready() && v.freeList < |v.fat| && bno0 == |v.inodes| + Parent(v.freeList) + 1
      modifies below.Repr()
      ensures Ready() && below.Store() == old(below.Store())
      ensures Parent(v.freeList) < v.nfat && r == FreeFrom(v.fat, v.nfat, Parent(v.freeList), Slot(v.freeList), v.nfat)
    {
      hide IsTable, FreeFrom, FreeInBlock, Shows, Parent, Slot, Child, Coherent, Hits, Misses;
      EntryBlock(v.freeList, v.nfat) by { TableShown(below.Store(), v); TableSize(v); }
      assert IsTable(v.fat, v.nfat) by { TableShown(below.Store(), v); }
      var super := ReadSuper();
      var nib: nat, nfat: nat := super[0], super[1];
      var n: nat, bno: nat, i: nat := nfat, bno0, Slot(super[2]);
      ghost var b: nat := Parent(v.freeList);
      while n > 0
        invariant n <= nfat && i <= R && b < nfat && bno == |v.inodes| + b + 1
        invariant Ready() && below.Store() == old(below.Store())
        invariant FreeFrom(v.fat, v.nfat, b, i, n) == FreeFrom(v.fat, v.nfat, Parent(v.freeList), Slot(v.freeList), v.nfat)
      {
        SearchStep(v, b, i, n);
        i := SearchBlock(bno, i, b);
        if i < R {
          EntryNumber(b, i);
          r := Some((bno - 1 - nib) * R + i);
          return;
        }
        n := n - 1;
        bno := bno + 1;
        i := 0;
        if bno >= 1 + nib + nfat {
          bno := 1 + nib;
        }
        b := NextBlock(b, v.nfat);
      }
      SearchStep(v, b, i, n);
      r := None;
    }

    /** The inner loop of find_free_entry */
    method SearchBlock(bno: nat, i0: nat, ghost b: nat) returns (i: nat)
      requires Ready() && b < v.nfat && bno == |v.inodes| + b + 1 && i0 <= R
      modifies below.Repr()
      ensures Ready() && below.Store() == old(below.Store())
      ensures Child(b + 1, 0) <= |v.fat| && R >= 1 && i == FreeInBlock(v.fat, b, i0)
    {
      hide IsTable, FreeInBlock, EntryAt, Child;
      InBlockStep(below.Store(), v, b, i0);
      var ok, block := below.Read(bno);
      i := i0;
      while i < R && block[i] != 0
        invariant i0 <= i <= R && FreeInBlock(v.fat, b, i) == FreeInBlock(v.fat, b, i0)
        invariant Ready() && below.Store() == old(below.Store())
      {
        InBlockStep(below.Store(), v, b, i);
        i := i + 1;
      }
      InBlockStep(below.Store(), v, b, i);
    }

    /** fatdisk_alloc */
    method Allocate() returns (ok: bool, e: Word)
      requires Ready() && v.freeList < |v.fat|
      modifies this`v, below.Repr()
      ensures Ready()
      ensures IsTable(old(v).fat, old(v).nfat) && old(v).freeList < |old(v).fat|
      ensures ok <==> Alloc(old(v)).Allocated?
      ensures ok ==> Alloc(old(v)) == Allocated(e, v)
    {
      hide IsTable, FreeFrom, Child, EntryAt;
      ghost var v0 := v;
      assert IsTable(v.fat, v.nfat);
      var super;
      ok, super := below.Read(0);
      e := super[2];
      WriteEntry(e, NIL);
      var fb := FatBlockNo(e);
      var r := FindFree(fb);
      if r == None {
        return false, e;
      }
      assert r.n < WORD_LIMIT by { TableSmall(v); }
      WriteFreeList(super, r.n);
      ok := true;
    }

    /** The superblock is written back with the next free entry. */
    method WriteFreeList(super: Block, n: Word)
      requires Ready() && super[0] == |v.inodes| && super[1] == v.nfat && super == below.Store()[0]
      modifies this`v, below.Repr()
      ensures Ready() && v == old(v).(freeList := n)
    {
      hide IsTable, EntryAt;
      FreeListWritten(below.Store(), v, n);
      var ok := below.Write(0, super[2 := n]);
      v := v.(freeList := n);
    }

    // ----- Following a chain -----

    /** The loop of fatdisk_traverse and of fatdisk_read */
    method Traverse(start: nat, steps: nat, ghost c: seq<nat>, ghost j: nat) returns (e: nat)
      requires Ready() && IsChain(v, c) && j + steps < |c| && start == c[j]
      modifies below.Repr()
      ensures Ready() && below.Store() == old(below.Store())
      ensures e == c[j + steps] && e < |v.fat|
    {
      hide IsTable, Shows;
      e := start;
      ghost var i := j;
      var offset := steps;
      while offset > 0
        invariant 0 <= offset && i + offset == j + steps && i < |c| && e == c[i]
        invariant Ready() && below.Store() == old(below.Store())
        decreases offset
      {
        assert Link(v, c, i);
        e := ReadEntry(e);
        offset, i := offset - 1, i + 1;
      }
      assert Link(v, c, i);
    }

    /** fatdisk_get_snapshot: the inode block of the file */
    method GetSnapshot(ino: nat) returns (ok: bool, ib: Block)
      requires Valid()
      modifies below.Repr()
      ensures Valid() && below.Store() == old(below.Store())
      ensures ok <==> ino < |chains|
      ensures ok ==> HasInode(v, ino) && ib == v.inodes[InodeBlockNo(ino) - 1] && InodeOk(v, ino, chains[ino]) && IsChain(v, chains[ino])
    {
      hide Core, Shows, IsChain;
      var super := ReadSuper();
      CoreSize(v, chains);
      ib := NullBlock();
      if ino >= InodesIn(super[0]) {
        return false, ib;
      }
      InodeShown(below.Store(), v, ino);
      ok, ib := below.Read(InodeBlockNo(ino));
      assert InodeOk(v, ino, chains[ino]);
      CoreChain(v, chains, ino);
    }

    // ----- fatdisk_write -----

    /** The loop of fatdisk_write that appends count blocks to file ino; ib is its inode block. */
    method Append(ino: nat, ib0: Block, size: Word, last0: nat, count: nat, ghost empty0: bool)
        returns (r: WriteResult, ghost added: seq<nat>)
      requires Ready() && HasInode(v, ino) && ib0 == v.inodes[InodeBlockNo(ino) - 1] && v.freeList < |v.fat|
      requires (!empty0 ==> last0 < |v.fat|) && (ib0[InodeWord(ino) + 1] == 0 <==> empty0) && ib0[InodeWord(ino) + 1] <= size != 0
      modifies this`v, below.Repr()
      ensures Ready() && (r == Done || r == DiskFull || r == EntryZero)
      ensures IsTable(old(v).fat, old(v).nfat)
      ensures match Grow(old(v), ino, size, empty0, last0, count)
              case NoSpace => r == DiskFull
              case ZeroNext => r == EntryZero
              case Grown(v', a) => r == Done && v == v' && added == a
    {
      hide IsTable, Alloc, Shows, WithInode, Grow;
      assert IsTable(v.fat, v.nfat) by { TableShown(below.Store(), v); }
      ghost var v0 := v;
      added := [];
      var n: nat, ib, last: nat := count, ib0, last0;
      ghost var empty := empty0;
      while n > 0
        invariant 0 <= n && Ready() && HasInode(v, ino) && ib == v.inodes[InodeBlockNo(ino) - 1]
        invariant v.freeList < |v.fat| && IsTable(v.fat, v.nfat) && (!empty ==> last < |v.fat|)
        invariant (ib[InodeWord(ino) + 1] == 0 <==> empty) && ib[InodeWord(ino) + 1] <= size
        invariant Grow(v0, ino, size, empty0, last0, count) == Prepend(added, Grow(v, ino, size, empty, last, n))
      {
        GrowStep(v, ino, size, empty, last, n, added);
        var ok, e := Allocate();
        if !ok {
          return DiskFull, added;
        }
        if ib[InodeWord(ino) + 1] != 0 && e == 0 {
          return EntryZero, added;
        }
        ib := LinkEntry(ino, ib, size, last, e, empty);
        last, empty := e, false;
        added := added + [e as nat];
        n := n - 1;
      }
      GrowStep(v, ino, size, empty, last, n, added);
      r := Done;
    }

    /** The rest of a turn: the new entry becomes the head of the file or the successor of its last entry, and
        the inode is written. */
    method LinkEntry(ino: nat, ib0: Block, size: Word, last: nat, e: Word, ghost empty: bool) returns (ib: Block)
      requires Ready() && HasInode(v, ino) && ib0 == v.inodes[InodeBlockNo(ino) - 1] && (!empty ==> last < |v.fat|)
      requires (ib0[InodeWord(ino) + 1] == 0 <==> empty) && ib0[InodeWord(ino) + 1] <= size != 0
      modifies this`v, below.Repr()
      ensures Ready() && HasInode(v, ino) && ib == v.inodes[InodeBlockNo(ino) - 1]
      ensures v == (if empty then WithInode(old(v), ino, e, size)
                    else WithInode(old(v).(fat := old(v).fat[last := e]), ino, Head(old(v), ino), size))
      ensures ib[InodeWord(ino) + 1] == size
    {
      hide IsTable, EntryAt;
      var w := InodeWord(ino);
      ib := ib0;
      InodeShown(below.Store(), v, ino);
      if ib[w + 1] == 0 {
        ib := ib[w := e];
      } else {
        WriteEntry(last, e);
      }
      if size - 1 >= ib[w + 1] {
        ib := ib[w + 1 := size];
      }
      ghost var h := if empty then e else Head(old(v), ino);
      assert ib == ib0[w := h][w + 1 := size];
      WriteInode(ino, ib0, ib, h, size);
    }

    method WriteInode(ino: nat, ghost ib0: Block, ib: Block, ghost head: Word, ghost size: Word)
      requires Ready() && HasInode(v, ino) && ib0 == v.inodes[InodeBlockNo(ino) - 1]
      requires ib == ib0[InodeWord(ino) := head][InodeWord(ino) + 1 := size]
      modifies this`v, below.Repr()
      ensures Ready() && v == WithInode(old(v), ino, head, size) && HasInode(v, ino) && ib == v.inodes[InodeBlockNo(ino) - 1]
    {
      hide IsTable, EntryAt;
      InodeShown(below.Store(), v, ino);
      InodeWritten(below.Store(), v, ino, head, size);
      var ok := below.Write(InodeBlockNo(ino), ib);
      v := WithInode(v, ino, head, size);
    }

    /** fatdisk_write.  For the largest offset nothing is appended, its entry is not found, and -1 is taken for
        the number of the entry. */
    method Write(ino: nat, offset: Word, block: Block) returns (r: WriteResult)
      requires Valid()
      modifies this, below.Repr()
      ensures r == BadInode <==> ino >= |old(chains)|
      ensures r == Wraps <==> ino < |old(chains)| && offset + 1 == WORD_LIMIT
      ensures r == EntryZero <==> ZeroInTheWay(old(v), ino, offset)
      ensures r == DiskFull <==> !ZeroInTheWay(old(v), ino, offset) && NoRoom(old(v), ino, offset)
      ensures r == Done || r == BadInode ==> Valid()
      ensures r == BadInode ==> v == old(v) && chains == old(chains)
      ensures IsTable(old(v).fat, old(v).nfat) && old(v).nfat >= 1
      ensures r == Wraps ==> Ready() && chains == old(chains) && v == Overwritten(old(v), block)
      ensures r == Done ==> WriteOp(old(v), ino, offset, block) == Now(v)
      ensures r == Done ==>
        Files(v, chains) == Files(old(v), old(chains))[ino := TreeFS.WriteAt(Files(old(v), old(chains))[ino], offset, block)]
    {
      hide Inv, Shows, Grow, Files, IsChain, WithInode, Grows, GrownBy, Coherent, Hits, Misses, WriteOp, ZeroInTheWay, NoRoom, Overwritten, IsTable;
      ghost var v0, cs := v, chains;
      NoWrite(v, ino, offset);
      HasTable(v, chains);
      CountFiles(v, chains);
      var ok, ib := GetSnapshot(ino);
      if !ok {
        return BadInode;
      }
      var n := ib[InodeWord(ino) + 1];
      var size := (offset + 1) % WORD_LIMIT;
      var add := if size > n then size - n else 0;
      var last := 0;
      if n > 0 {
        last := Traverse(ib[InodeWord(ino)], n - 1, chains[ino], 0);
      }
      if offset + 1 == WORD_LIMIT {
        WriteNowhere(block);
        return Wraps;
      }
      OutcomeOfWrite(v, chains, ino, offset);
      LastIs(v, chains, ino);
      ghost var added;
      r, added := Extend(ino, ib, offset, last, add);
      if r != Done {
        return;
      }
      WriteOpIs(v0, cs, ino, offset, block);
      chains := cs[ino := cs[ino] + added];
      GrownChain(v0, cs, ino, offset + 1, v, added, add);
      WriteBlock(ino, offset, block, chains[ino]);
    }

    /** The appending of blocks in fatdisk_write */
    method Extend(ino: nat, ib: Block, offset: Word, last: nat, add: nat) returns (r: WriteResult, ghost added: seq<nat>)
      requires Valid() && ino < |chains| && HasInode(v, ino) && ib == v.inodes[InodeBlockNo(ino) - 1] && offset + 1 < WORD_LIMIT
      requires InodeOk(v, ino, chains[ino]) && add == if offset >= |chains[ino]| then offset + 1 - |chains[ino]| else 0
      requires last == if chains[ino] == [] then 0 else chains[ino][|chains[ino]| - 1]
      modifies this`v, below.Repr()
      ensures r == Done || r == DiskFull || r == EntryZero
      ensures r == DiskFull <==> Grows(old(v), ino, offset) == NoSpace
      ensures r == EntryZero <==> Grows(old(v), ino, offset) == ZeroNext
      ensures r == Done ==> Ready() && Grows(old(v), ino, offset) == Grown(v, added)
    {
      hide Core, Shows, Grow, IsChain, WithInode, Inv;
      ghost var empty := chains[ino] == [];
      LastIs(v, chains, ino);
      if add > 0 {
        r, added := Append(ino, ib, offset + 1, last, add, empty);
        if r != Done {
          return;
        }
      } else {
        r, added := Done, [];
        NoGrowth(v, ino, offset + 1, empty, last);
      }
    }

    /** The end of fatdisk_write: the data goes to the block of the entry for offset. */
    method WriteBlock(ino: nat, offset: Word, block: Block, ghost c: seq<nat>)
      requires Ready() && HasInode(v, ino) && IsChain(v, c) && offset < |c| && Head(v, ino) == c[0]
      modifies this`v, below.Repr()
      ensures Ready() && v == old(v).(data := old(v).data[c[offset] := block])
    {
      hide Shows, IsTable;
      InodeShown(below.Store(), v, ino);
      var ok, ib := below.Read(InodeBlockNo(ino));
      var e := Traverse(ib[InodeWord(ino)], offset, c, 0);
      WriteData(e, block);
    }

    /** The end of fatdisk_write if fatdisk_traverse has failed */
    method WriteNowhere(block: Block)
      requires Ready() && v.freeList < |v.fat|
      modifies this`v, below.Repr()
      ensures IsTable(old(v).fat, old(v).nfat) && old(v).nfat >= 1
      ensures Ready() && v == Overwritten(old(v), block)
    {
      hide IsTable, Overwritten, EntryAt, Hits, Misses;
      var b := DataBlockNo(NIL);
      LastTableBlock(below.Store(), v, block);
      var ok := below.Write(b, block);
      v := Overwritten(v, block);
    }

    /** fatdisk_read */
    method Read(ino: nat, offset: Word) returns (ok: bool, block: Block)
      requires Valid()
      modifies below.Repr()
      ensures Valid() && below.Store() == old(below.Store())
      ensures ok <==> ino < |Files(v, chains)| && offset < |Files(v, chains)[ino]|
      ensures ok ==> block == Files(v, chains)[ino][offset]
    {
      hide Inv, Shows, Files, IsChain;
      block := NullBlock();
      FileSizes(v, chains);
      var ib;
      ok, ib := GetSnapshot(ino);
      if !ok {
        return;
      }
      if offset >= ib[InodeWord(ino) + 1] {
        return false, NullBlock();
      }
      var e := Traverse(ib[InodeWord(ino)], offset, chains[ino], 0);
      var b := DataBlockNo(e);
      FileAt(v, chains, ino, offset) by { InvCore(v, chains); }
      DataShown(below.Store(), v, e);
      ok, block := below.Read(b);
    }

    /** fatdisk_setsize: only emptying a file is supported. */
    method SetSize(ino: nat, n: Word) returns (ok: bool)
      requires Valid() && ino < |chains|
      modifies this, below.Repr()
      ensures Valid()
      ensures ok <==> n == 0 || n == |old(chains)[ino]|
      ensures ok && n == 0 ==> Files(v, chains) == Files(old(v), old(chains))[ino := []]
      ensures ok && n == 0 ==> forall i :: 0 <= i < |old(chains)[ino]| ==> old(chains)[ino][i] < |v.fat| && v.fat[old(chains)[ino][i]] == 0
      ensures !ok || n > 0 ==> v == old(v) && chains == old(chains)
    {
      hide Inv, Shows, Files, FreeChain, WithInode, IsChain;
      var found, ib := GetSnapshot(ino);
      var size := ib[InodeWord(ino) + 1];
      if n == size {
        if n == 0 { EmptyAlready(v, chains, ino); }
        return true;
      }
      if n > 0 {
        return false;
      }
      EmptyKeeps(v, chains, ino);
      NoRepeats(v, chains, ino) by { InvCore(v, chains); }
      FreeEntries(ib[InodeWord(ino)], size, chains[ino]);
      ghost var b0 := v.inodes[InodeBlockNo(ino) - 1];
      ib := ib[InodeWord(ino) + 1 := 0];
      ib := ib[InodeWord(ino) := 0];
      assert ib == b0[InodeWord(ino) := 0][InodeWord(ino) + 1 := 0];
      WriteInode(ino, b0, ib, 0, 0);
      chains := chains[ino := []];
      ok := true;
    }

    /** The loop of fatdisk_free_file */
    method FreeEntries(head: nat, nblocks: nat, ghost c: seq<nat>)
      requires Ready() && IsChain(v, c) && |c| == nblocks > 0 && head == c[0]
      requires forall i, j :: 0 <= i < j < |c| ==> c[i] != c[j]
      modifies this`v, below.Repr()
      ensures Ready() && v == FreeChain(old(v), c[0], nblocks)
      ensures v.inodes == old(v).inodes
    {
      hide Shows, IsTable;
      ghost var v0 := v;
      var e, n: nat := head, nblocks;
      while n > 0
        invariant 0 <= n <= nblocks && Ready() && v.inodes == v0.inodes
        invariant |v.fat| == |v0.fat| && |v.data| == |v0.data|
        invariant FreeChain(v, e, n) == FreeChain(v0, c[0], nblocks)
        invariant n > 0 ==> e == c[nblocks - n] && forall i :: nblocks - n <= i < nblocks ==> c[i] < |v.fat| && v.fat[c[i]] == v0.fat[c[i]]
      {
        assert Link(v0, c, nblocks - n);
        WriteData(e, NullBlock());
        var next := ReadEntry(e);
        WriteEntry(e, 0);
        e, n := next, n - 1;
      }
    }

    // ----- Creation -----

    /** The body of the loop of setup_fatfreelist */
    static method FillTableBlock(data0: Block, first: nat, n: nat, ghost nf: nat, ghost k: nat) returns (data: Block, next: nat)
      requires nf <= first < n && first == nf + Start(k)
      ensures IsTableBlock(data, k, n - nf) && next == if first + R <= n then first + R else n
    {
      RefsBounds();
      data, next := data0, first;
      var i := 0;
      while i < R && next < n
        invariant 0 <= i <= R && next == first + i <= n
        invariant forall l :: 0 <= l < i ==> data[l] == 0
      {
        data, next := data[i := 0], next + 1;
        i := i + 1;
      }
      while i < R
        invariant 0 <= i <= R && (i == R || next == n) && next - first <= i
        invariant forall l :: 0 <= l < i ==> data[l] == if first + l < n then 0 else NIL
      {
        data := data[i := NIL];
        i := i + 1;
      }
    }

    /** setup_fatfreelist */
    static method SetupFatFreeList(below: ClockDisk, nib: nat) returns (fatblocks: nat)
      requires below.Valid() && below.below.reliable && nib + 1 < |below.Store()| && |below.Store()| + 1 < WORD_LIMIT
      modifies below.Repr()
      ensures below.Valid() && |below.Store()| == |old(below.Store())|
      ensures fatblocks == TableBlocks(|below.Store()| - nib - 1)
      ensures forall k: nat :: k < fatblocks ==> TableBlockAt(below.Store(), nib, k)
      ensures forall c :: 1 + nib + fatblocks <= c < |below.Store()| ==> below.Store()[c] == old(below.Store())[c]
    {
      hide Start, TableBlocks, IsTableBlock, Coherent, Hits, Misses;
      var n := below.NBlocks();
      ghost var m := n - nib - 1;
      var data, next := NullBlock(), nib + 1;
      fatblocks := 0;
      LastStart(m);
      StartIs(0);
      while next < n
        invariant below.Valid() && |below.Store()| == n && fatblocks <= TableBlocks(m)
        invariant if Start(fatblocks) <= m then next == nib + 1 + Start(fatblocks) else next == n + 1
        invariant forall k: nat :: k < fatblocks ==> TableBlockAt(below.Store(), nib, k)
        invariant forall c :: 1 + nib + fatblocks <= c < n ==> below.Store()[c] == old(below.Store())[c]
        decreases n + 1 - next
      {
        ghost var d := below.Store();
        BeforeLast(m, fatblocks);
        StartIs(fatblocks);
        StartNext(fatblocks);
        data, next := FillTableBlock(data, next, n, nib + 1, fatblocks);
        next := next + 1;
        var ok := below.Write(nib + 1 + fatblocks, data);
        TableBlockWritten(d, below.Store(), nib, fatblocks, data);
        fatblocks := fatblocks + 1;
      }
      AtLast(m, fatblocks);
    }

    /** fatdisk_create.  A disk that has inode blocks is left as it is. */
    static method Create(below: ClockDisk, nInodes: Word) returns (r: CreateResult)
      requires below.Valid() && below.below.reliable && R >= 4 && 1 <= |below.Store()| < WORD_LIMIT
      requires below.Store()[0][0] != 0 ==> below.Store()[0][0] == InodeBlocksFor(nInodes)
      modifies below.Repr()
      ensures below.Valid() && |below.Store()| == |old(below.Store())|
      ensures r == TooSmall <==> |old(below.Store())| < InodeBlocksFor(nInodes) + 2
      ensures r == Kept <==> r != TooSmall && old(below.Store())[0][0] != 0
      ensures r == TooWide <==> r != TooSmall && r != Kept && |old(below.Store())| + 1 == WORD_LIMIT
      ensures r == TooSmall || r == Kept ==> below.Store() == old(below.Store())
      ensures r == Made ==> IsMade(below.Store(), InodeBlocksFor(nInodes))
      ensures r == Made ==> (IsClear(below.Store(), InodeBlocksFor(nInodes)) <==> IsClear(old(below.Store()), InodeBlocksFor(nInodes)))
    {
      hide TableBlocks, IsTableBlock, Coherent, Hits, Misses;
      var nib := InodeBlocksFor(nInodes);
      var n := below.NBlocks();
      if n < nib + 2 {
        return TooSmall;
      }
      var ok, super := below.Read(0);
      if super[0] != 0 {
        return Kept;
      }
      if n + 1 == WORD_LIMIT {
        return TooWide;
      }
      var fatblocks := SetupFatFreeList(below, nib);
      super := NullBlock()[0 := nib][2 := 0][1 := fatblocks];
      ghost var d := below.Store();
      ok := below.Write(0, super);
      TableBlocksFrame(d, below.Store(), nib);
      ClearInodes(below, nib, fatblocks);
      r := Made;
    }

    /** The last loop of fatdisk_create */
    static method ClearInodes(below: ClockDisk, nib: nat, fatblocks: nat)
      requires below.Valid() && below.below.reliable && nib + 1 < |below.Store()|
      requires forall k: nat :: k < fatblocks ==> TableBlockAt(below.Store(), nib, k)
      modifies below.Repr()
      ensures below.Valid() && |below.Store()| == |old(below.Store())| && below.Store()[0] == old(below.Store())[0]
      ensures forall c :: 1 <= c <= nib ==> below.Store()[c] == NullBlock()
      ensures forall k: nat :: k < fatblocks ==> TableBlockAt(below.Store(), nib, k)
      ensures forall c :: nib < c < |below.Store()| ==> below.Store()[c] == old(below.Store())[c]
    {
      hide IsTableBlock, Coherent, Hits, Misses;
      var i := 1;
      while i <= nib
        invariant 1 <= i <= nib + 1 && below.Valid() && |below.Store()| == |old(below.Store())|
        invariant below.Store()[0] == old(below.Store())[0]
        invariant forall c :: 1 <= c < i ==> below.Store()[c] == NullBlock()
        invariant forall c :: nib < c < |below.Store()| ==> below.Store()[c] == old(below.Store())[c]
      {
        var ok := below.Write(i, NullBlock());
        i := i + 1;
      }
      TableBlocksFrame(old(below.Store()), below.Store(), nib);
    }
  }

  /** The block that entry -1 would have is the last one of the table. */
  lemma {:induction false} LastTableBlock(d: seq<Block>, v: Fat, block: Block)
    requires Shows(d, v) && v.freeList < |v.fat|
    ensures v.nfat >= 1 && (|v.inodes| + 1 + v.nfat + NIL) % WORD_LIMIT == |v.inodes| + v.nfat < |d|
    ensures Shows(d[|v.inodes| + v.nfat := block], Overwritten(v, block))
  {
    hide Parent, Slot, Child;
    EntryBlock(v.freeList, v.nfat);
    OverwrittenAt(v, block);
    var d', v' := d[|v.inodes| + v.nfat := block], Overwritten(v, block);
    forall n: nat {:trigger v'.fat[n]} | n < |v'.fat| ensures EntryAt(d', |v.inodes|, n) == v'.fat[n] {
      EntryShown(d, v, n);
    }
  }

  // ----- Creation -----

  /** The table blocks are behind the inode blocks. */
  lemma TableBlocksFrame(d: seq<Block>, d': seq<Block>, nib: nat)
    requires |d'| == |d| && forall c :: nib < c < |d| ==> d'[c] == d[c]
    ensures forall k: nat :: TableBlockAt(d', nib, k) <==> TableBlockAt(d, nib, k)
  {
    hide IsTableBlock;
  }

  lemma TableBlockWritten(d: seq<Block>, d': seq<Block>, nib: nat, k: nat, data: Block)
    requires nib + 1 + k < |d| && d' == d[nib + 1 + k := data] && IsTableBlock(data, k, |d| - nib - 1)
    requires forall l: nat :: l < k ==> TableBlockAt(d, nib, l)
    ensures forall l: nat :: l < k + 1 ==> TableBlockAt(d', nib, l)
  {
    hide IsTableBlock;
    forall l: nat | l < k + 1 ensures TableBlockAt(d', nib, l) {
      assert l < k ==> TableBlockAt(d, nib, l);
    }
  }

  /** A new file system can be used. */
  lemma {:induction false} MadeIsShown(d: seq<Block>, nib: nat)
    requires IsMade(d, nib) && IsNew(PartsOf(d, nib))
    ensures Shows(d, PartsOf(d, nib))
  {
    hide Child, Parent, Slot, TableBlocks, IsTable;
    var v := PartsOf(d, nib);
    forall n: nat {:trigger v.fat[n]} | n < |v.fat| ensures EntryAt(d, |v.inodes|, n) == v.fat[n] {}
  }

  lemma CoreSize(v: Fat, cs: seq<seq<nat>>)
    requires Core(v, cs)
    ensures |cs| == NFiles(v) && IsTable(v.fat, v.nfat) && v.freeList < |v.fat|
  {}

  lemma {:induction false} CoreChain(v: Fat, cs: seq<seq<nat>>, k: nat)
    requires Core(v, cs) && k < |cs|
    ensures IsChain(v, cs[k])
    ensures cs[k] != [] ==> cs[k][|cs[k]| - 1] < |v.fat|
  {}

  lemma {:induction false} NoRepeats(v: Fat, cs: seq<seq<nat>>, k: nat)
    requires Core(v, cs) && k < |cs|
    ensures forall i, j :: 0 <= i < j < |cs[k]| ==> cs[k][i] != cs[k][j]
  {
    forall i, j | 0 <= i < j < |cs[k]| ensures cs[k][i] != cs[k][j] {
      assert At(cs, k, i, cs[k][i]) && At(cs, k, j, cs[k][j]);
    }
  }

  lemma InvCore(v: Fat, cs: seq<seq<nat>>)
    requires Inv(v, cs)
    ensures Core(v, cs)
  {}

  lemma FileSizes(v: Fat, cs: seq<seq<nat>>)
    ensures |Files(v, cs)| == |cs| && forall k :: 0 <= k < |cs| ==> |Files(v, cs)[k]| == |cs[k]|
  {}

  /** A write that is not made does nothing to the table. */
  lemma NoWrite(v: Fat, ino: nat, o: Word)
    ensures ino >= NFiles(v) || o + 1 == WORD_LIMIT ==>
      Grows(v, ino, o) == Grown(v, []) && !ZeroInTheWay(v, ino, o) && !NoRoom(v, ino, o)
  {}

  lemma FileAt(v: Fat, cs: seq<seq<nat>>, k: nat, o: nat)
    requires Core(v, cs) && k < |cs| && o < |cs[k]|
    ensures |Files(v, cs)| == |cs| && |Files(v, cs)[k]| == |cs[k]|
    ensures cs[k][o] < |v.data| && Files(v, cs)[k][o] == v.data[cs[k][o]]
  {
    assert IsChain(v, cs[k]);
  }

  lemma NoGrowth(v: Fat, k: nat, size: Word, empty: bool, last: nat)
    requires IsTable(v.fat, v.nfat) && v.freeList < |v.fat| && (!empty ==> last < |v.fat|) && InodeBlockNo(k) <= |v.inodes|
    ensures Grow(v, k, size, empty, last, 0) == Grown(v, [])
  {}

  lemma EmptyAlready(v: Fat, cs: seq<seq<nat>>, k: nat)
    requires k < |cs| && cs[k] == []
    ensures Files(v, cs) == Files(v, cs)[k := []]
  {}

  lemma DataShown(d: seq<Block>, v: Fat, n: nat)
    requires Shows(d, v) && n < |v.data|
    ensures |v.inodes| + 1 + v.nfat + n < |d| && d[|v.inodes| + 1 + v.nfat + n] == v.data[n]
  {}

  lemma TableShown(d: seq<Block>, v: Fat)
    requires Shows(d, v)
    ensures IsTable(v.fat, v.nfat)
  {}

  lemma TableSize(v: Fat)
    requires IsTable(v.fat, v.nfat)
    ensures R >= 1 && |v.fat| == Child(v.nfat, 0)
  {
    RefsBounds();
  }

  lemma EntryNumber(b: nat, i: nat)
    requires i < R
    ensures Child(b, i) == b * R + i
  {
    ChildIndex(b, i);
    TreeCheck.ChildIsProduct(b);
    MulCommutes(R, b);
  }

  lemma TableSmall(v: Fat)
    requires IsTable(v.fat, v.nfat)
    ensures |v.fat| < WORD_LIMIT
  {}

  /** One block of the search */
  lemma SearchStep(v: Fat, b: nat, i: nat, left: nat)
    requires IsTable(v.fat, v.nfat) && b < v.nfat && i <= R
    ensures R >= 1 && Child(b + 1, 0) <= |v.fat|
    ensures FreeFrom(v.fat, v.nfat, b, i, left) ==
      if left == 0 then None
      else if FreeInBlock(v.fat, b, i) < R then Some(Child(b, FreeInBlock(v.fat, b, i)))
      else FreeFrom(v.fat, v.nfat, NextBlock(b, v.nfat), 0, left - 1)
  {
    hide FreeInBlock;
    ChildMonotone(b + 1, v.nfat);
  }

  /** One entry of the search */
  lemma InBlockStep(d: seq<Block>, v: Fat, b: nat, i: nat)
    requires Shows(d, v) && b < v.nfat && i <= R
    ensures Child(b + 1, 0) <= |v.fat| && |v.inodes| + b + 1 < |d|
    ensures i < R ==> Child(b, i) < |v.fat| && d[|v.inodes| + b + 1][i] == v.fat[Child(b, i)]
    ensures FreeInBlock(v.fat, b, i) == if i == R || d[|v.inodes| + b + 1][i] == 0 then i else FreeInBlock(v.fat, b, i + 1)
  {
    hide EntryAt, Child;
    TableSize(v);
    ChildMonotone(b + 1, v.nfat);
    if i < R {
      EntryInTable(b, i);
      EntryShown(d, v, Child(b, i));
    }
  }

  ghost function Prepend(added: seq<nat>, g: Growth): Growth {
    match g
    case Grown(v, a) => Grown(v, added + a)
    case other => other
  }

  /** One turn of the loop of fatdisk_write */
  lemma {:induction false} GrowStep(v: Fat, k: nat, size: Word, empty: bool, last: nat, n: nat, added: seq<nat>)
    requires IsTable(v.fat, v.nfat) && v.freeList < |v.fat| && (!empty ==> last < |v.fat|) && InodeBlockNo(k) <= |v.inodes|
    ensures n == 0 ==> Prepend(added, Grow(v, k, size, empty, last, n)) == Grown(v, added)
    ensures n > 0 && Alloc(v).Full? ==> Prepend(added, Grow(v, k, size, empty, last, n)) == NoSpace
    ensures n > 0 && Alloc(v).Allocated? && !empty && Alloc(v).e == 0 ==>
      Prepend(added, Grow(v, k, size, empty, last, n)) == ZeroNext
    ensures n > 0 && Alloc(v).Allocated? && !(!empty && Alloc(v).e == 0) ==>
      var e, v2 := Alloc(v).e, AfterOne(v, k, size, empty, last);
      && IsTable(v2.fat, v2.nfat) && v2.freeList < |v2.fat| && e < |v2.fat| && InodeBlockNo(k) <= |v2.inodes|
      && Prepend(added, Grow(v, k, size, empty, last, n)) == Prepend(added + [e as nat], Grow(v2, k, size, false, e, n - 1))
  {
    hide Alloc;
    if n > 0 && Alloc(v).Allocated? && !(!empty && Alloc(v).e == 0) {
      var e, v2 := Alloc(v).e, AfterOne(v, k, size, empty, last);
      var g := Grow(v2, k, size, false, e, n - 1);
      if g.Grown? { assert added + ([e as nat] + g.added) == added + [e as nat] + g.added; }
    }
  }
}
