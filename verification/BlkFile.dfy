/** Byte-addressed files on a tree file system. */
module BlkFiles {
  import opened Blocks
  import opened Clock
  import opened TreeLayout
  import opened TreeFS
  import opened TreeDisks
  import opened FreeList
  import Runs = TreeRuns
  import opened ByteStrings
  import opened Index

  // ----- The bytes of a file, and what is stored for them -----

  /** The blocks f stored for a file of s bytes: a file that is not empty has one block more
      than it has whole blocks, and every stored byte beyond the end is zero. */
  ghost predicate FileBytes(f: seq<Block>, s: nat) {
    && (if s == 0 then |f| <= 1 else |f| == BlockOf(s) + 1)
    && forall i: nat :: i >= s ==> At(Flat(f), i) == 0
  }

  lemma {:induction false} StoredCovers(f: seq<Block>, s: nat)
    requires FileBytes(f, s)
    ensures s <= |Flat(f)|
  {
    if s > 0 { SpanNext(BlockOf(s)); }
  }

  ghost function Content(f: seq<Block>, s: nat): (c: seq<Byte>)
    requires FileBytes(f, s)
    ensures |c| == s
  {
    StoredCovers(f, s);
    Flat(f)[..s]
  }

  lemma {:induction false} ContentAt(f: seq<Block>, s: nat, i: nat)
    requires FileBytes(f, s)
    ensures At(Content(f, s), i) == At(Flat(f), i)
  {
    StoredCovers(f, s);
  }

  // ----- Writing -----

  /** The size of the file after a write, and its last block and the number of blocks to read first. */
  function FinalSize(s: nat, offset: nat, n: nat): nat {
    if offset + n > s then offset + n else s
  }

  /** The buffer holds the data where it belongs and elsewhere what the file holds. */
  ghost predicate BufferFor(f: seq<Block>, contents: seq<Byte>, start: nat, offset: nat, data: seq<Byte>)
    requires Span(start) <= offset
  {
    forall j: nat :: j < |contents| ==>
      contents[j] == if offset <= Span(start) + j < offset + |data| then data[Span(start) + j - offset]
                     else At(Flat(f), Span(start) + j)
  }

  /** Writing the buffer back is writing the data. */
  lemma {:induction false} PutIsOverlay(f: seq<Block>, s: nat, f': seq<Block>, contents: seq<Byte>, start: nat, end: nat,
                                        offset: nat, data: seq<Byte>)
    requires FileBytes(f, s) && start == BlockOf(offset)
    requires start <= end == BlockOf(offset + |data|) && |contents| == Span(end - start + 1)
    requires BufferFor(f, contents, start, offset, data)
    requires Flat(f') == Overlay(Flat(f), Span(start), contents)
    requires |f'| == if end + 1 > |f| then end + 1 else |f|
    ensures FileBytes(f', FinalSize(s, offset, |data|))
    ensures Content(f', FinalSize(s, offset, |data|)) == Overlay(Content(f, s), offset, data)
  {
    hide Flat, At, BlockOf, Span, BufferFor;
    var s' := FinalSize(s, offset, |data|);
    forall i: nat ensures At(Flat(f'), i) == if offset <= i < offset + |data| then data[i - offset] else At(Flat(f), i) {
      PutAt(f, f', contents, start, end, offset, data, i);
    }
    BlockOfMonotone(offset + |data|, s');
    BlockOfMonotone(s, s');
    ZeroIsFirst();
    assert FileBytes(f', s');
    var t := Overlay(Content(f, s), offset, data);
    forall i: nat | i < s' ensures At(Content(f', s'), i) == At(t, i) {
      ContentAt(f', s', i);
      ContentAt(f, s, i);
    }
    SameBytes(Content(f', s'), t);
  }

  lemma {:induction false} ZeroIsFirst()
    ensures BlockOf(0) == 0
  {
    RefsBoundsBS();
    BlockOfUnique(0, 0);
  }

  lemma {:induction false} PutAt(f: seq<Block>, f': seq<Block>, contents: seq<Byte>, start: nat, end: nat,
                                 offset: nat, data: seq<Byte>, i: nat)
    requires start == BlockOf(offset)
    requires start <= end == BlockOf(offset + |data|) && |contents| == Span(end - start + 1)
    requires BufferFor(f, contents, start, offset, data)
    requires Flat(f') == Overlay(Flat(f), Span(start), contents)
    ensures At(Flat(f'), i) == if offset <= i < offset + |data| then data[i - offset] else At(Flat(f), i)
  {
    hide Flat, At, BlockOf, Span;
    SpanAdds(start, end - start + 1);
    SpanNext(end);
    if Span(start) <= i < Span(start) + |contents| {
      var j := i - Span(start);
      assert contents[j] == contents[i - Span(start)];
    }
  }

  /** The buffer before the data is copied into it. */
  ghost predicate Mirrors(f: seq<Block>, contents: seq<Byte>, start: nat) {
    forall j: nat :: j < |contents| ==> contents[j] == At(Flat(f), Span(start) + j)
  }

  lemma {:induction false} CopiedIn(f: seq<Block>, was: seq<Byte>, contents: seq<Byte>, start: nat, offset: nat, data: seq<Byte>)
    requires Mirrors(f, was, start) && start == BlockOf(offset) && PosOf(offset) + |data| <= |was|
    requires contents == Overlay(was, PosOf(offset), data)
    ensures BufferFor(f, contents, start, offset, data)
  {
    hide Flat, BlockOf, PosOf, Span;
    forall j: nat | j < |contents|
      ensures contents[j] == if offset <= Span(start) + j < offset + |data| then data[Span(start) + j - offset]
                             else At(Flat(f), Span(start) + j)
    {
      assert At(contents, j) == contents[j] && At(was, j) == was[j];
    }
  }

  /** Behind the last block there are only zeros. */
  lemma {:induction false} ZerosMirror(f: seq<Block>, s: nat, contents: seq<Byte>, start: nat)
    requires FileBytes(f, s) && (start > BlockOf(s) || s == 0)
    requires forall j :: 0 <= j < |contents| ==> contents[j] == 0
    ensures Mirrors(f, contents, start)
  {
    hide Flat, Span;
    if start > BlockOf(s) { SpanMonotone(BlockOf(s), start); }
  }

  /** The blocks from start on have been read; if fewer than the buffer holds, then there
      are no more. */
  lemma {:induction false} ReadMirrors(f: seq<Block>, s: nat, contents: seq<Byte>, start: nat, k: nat)
    requires FileBytes(f, s) && start + k <= |f| && Span(k) <= |contents|
    requires contents[..Span(k)] == Flat(f[start..start + k])
    requires forall j :: Span(k) <= j < |contents| ==> contents[j] == 0
    requires |contents| == Span(k) || start + k == BlockOf(s) + 1
    ensures Mirrors(f, contents, start)
  {
    hide Flat, Span, BlockOf;
    FlatSlice(f, start, start + k);
    SpanAdds(start, k);
    SpanNext(BlockOf(s));
    forall j: nat | j < |contents| ensures contents[j] == At(Flat(f), Span(start) + j) {
      if j < Span(k) {
        assert contents[..Span(k)][j] == Flat(f)[Span(start)..Span(start + k)][j];
      }
    }
  }

  // ----- Runs of blocks -----

  /** f[start..] in the first bytes of the buffer, which has room for n blocks; the rest of the
      buffer is as it was. */
  ghost predicate Filled(f: seq<Block>, start: nat, k: nat, was: seq<Byte>, now: seq<Byte>) {
    && Span(k) <= |now| == |was|
    && (k > 0 ==> start + k <= |f| && now[..Span(k)] == Flat(f[start..start + k]))
    && now[Span(k)..] == was[Span(k)..]
  }

  lemma {:induction false} FillOne(f: seq<Block>, start: nat, k: nat, was: seq<Byte>, now: seq<Byte>, now': seq<Byte>)
    requires Filled(f, start, k, was, now) && start + k < |f| && Span(k) + BS <= |now|
    requires now' == Overlay(now, Span(k), BlockBytes(f[start + k]))
    ensures Filled(f, start, k + 1, was, now')
  {
    hide BlockBytes;
    SpanNext(k);
    var g := f[start..start + k + 1];
    assert g[..k] == f[start..start + k];
    assert now'[..Span(k)] == now[..Span(k)] && now'[Span(k)..Span(k + 1)] == BlockBytes(f[start + k]) by {
      OverlayParts(now, Span(k), BlockBytes(f[start + k]));
    }
    OverlayParts(now, Span(k), BlockBytes(f[start + k]));
    assert now'[..Span(k + 1)] == now'[..Span(k)] + now'[Span(k)..Span(k + 1)];
    assert now'[Span(k + 1)..] == now[Span(k)..][BS..] && was[Span(k + 1)..] == was[Span(k)..][BS..];
  }

  lemma {:induction false} OverlayParts(s: seq<Byte>, a: nat, x: seq<Byte>)
    requires a + |x| <= |s|
    ensures Overlay(s, a, x) == s[..a] + x + s[a + |x|..]
  {
    SameBytes(Overlay(s, a, x), s[..a] + x + s[a + |x|..]);
  }

  /** memcpy */
  method CopyBytes(contents: array<Byte>, at: nat, data: seq<Byte>)
    requires at + |data| <= contents.Length
    modifies contents
    ensures contents[..] == Overlay(old(contents[..]), at, data)
  {
    for i := 0 to |data|
      invariant forall j :: 0 <= j < contents.Length ==>
        contents[j] == if at <= j < at + i then data[j - at] else old(contents[j])
    {
      contents[at + i] := data[i];
    }
    assert forall i: nat :: i < contents.Length ==> At(old(contents[..]), i) == old(contents[i]);
    SameBytes(contents[..], Overlay(old(contents[..]), at, data));
  }

  /** multiblock_read */
  method MultiblockRead(fs: TreeDisk, ino: nat, start: Word, contents: array<Byte>, nblocks: nat) returns (ok: bool, n: nat)
    requires fs.Valid() && ino < |Files(fs.Disk())| && Span(nblocks) <= contents.Length
    requires contents !in fs.below.Repr()
    modifies fs.below.Repr(), contents
    ensures fs.Valid() && fs.Disk() == old(fs.Disk())
    ensures ok <==> nblocks == 0 || start < |Files(fs.Disk())[ino]|
    ensures ok ==> n <= nblocks && Filled(Files(fs.Disk())[ino], start, n, old(contents[..]), contents[..])
    ensures ok && n < nblocks ==> start + n == |Files(fs.Disk())[ino]|
  {
    hide Filled, Flat, Span, Files, Inv, Coherent, Overlay, BlockBytes;
    ghost var f, was := Files(fs.Disk())[ino], contents[..];
    n := 0;
    var addr := 0;
    FillNone(f, start, was);
    while n < nblocks
      invariant n <= nblocks && addr == Span(n) && (n > 0 ==> start + n <= |f|)
      invariant fs.Valid() && fs.Disk() == old(fs.Disk())
      invariant Filled(f, start, n, was, contents[..])
    {
      FileLength(fs.Disk(), fs.owner, fs.chain, ino);
      ghost var now := contents[..];
      var block;
      ok, block := fs.Read(ino, start + n);
      if !ok {
        return n != 0, n;
      }
      SpanMonotone(n, nblocks);
      CopyBytes(contents, addr, BlockBytes(block));
      FillOne(f, start, n, was, now, contents[..]);
      SpanNext(n);
      n, addr := n + 1, addr + BS;
    }
    ok := true;
  }

  lemma {:induction false} FillNone(f: seq<Block>, start: nat, was: seq<Byte>)
    ensures Filled(f, start, 0, was, was) && Span(0) == 0
  {}

  lemma FileLength(d: seq<Block>, owner: seq<Owner>, chain: seq<nat>, ino: nat)
    requires Inv(d, owner, chain) && |d| >= 1 && 1 + d[0][0] <= |d| && ino < |Files(d)|
    ensures |Files(d)[ino]| < WORD_LIMIT
  {
    FilesAt(d, owner, chain, ino);
  }

  /** What the file holds once k blocks of the buffer have been written. */
  ghost predicate Written(f: seq<Block>, start: nat, k: nat, contents: seq<Byte>, f': seq<Block>) {
    if k == 0 then f' == f
    else
      && Span(k) <= |contents|
      && Flat(f') == Overlay(Flat(f), Span(start), contents[..Span(k)])
      && |f'| == if start + k > |f| then start + k else |f|
  }

  lemma {:induction false} WriteOne(f: seq<Block>, start: nat, k: nat, contents: seq<Byte>, f': seq<Block>)
    requires Written(f, start, k, contents, f') && Span(k) + BS <= |contents|
    ensures Written(f, start, k + 1, contents, WriteAt(f', start + k, BytesBlock(contents[Span(k)..Span(k) + BS])))
  {
    hide Flat, BytesBlock, Overlay, Span, BlockBytes, WriteAt;
    var x, y := contents[..Span(k)], contents[Span(k)..Span(k) + BS];
    FlatWrite(f', start + k, BytesBlock(y));
    SpanNext(k);
    SpanAdds(start, k);
    assert contents[..Span(k + 1)] == x + y;
    LongerBy(f', start + k, BytesBlock(y));
    if k == 0 {
      assert Span(0) == 0 by { SpanZero(); }
      assert x == [] && x + y == y;
    } else {
      SpanPositive(k);
      OverlayTwice(Flat(f), Span(start), x, y);
    }
  }

  lemma SpanZero()
    ensures Span(0) == 0
  {}

  lemma LongerBy(f: seq<Block>, o: nat, b: Block)
    ensures |WriteAt(f, o, b)| == if o + 1 > |f| then o + 1 else |f|
  {}

  lemma {:induction false} SpanPositive(k: nat)
    requires k > 0
    ensures Span(k) > 0
  {
    RefsBoundsBS();
  }

  /** multiblock_write */
  method MultiblockWrite(fs: TreeDisk, ino: nat, start: Word, contents: array<Byte>, nblocks: nat)
      returns (ok: bool, ghost f': seq<Block>)
    requires fs.Valid() && ino < |Files(fs.Disk())| && Span(nblocks) <= contents.Length
    requires contents !in fs.below.Repr() && start + nblocks < WORD_LIMIT
    modifies fs, fs.below.Repr()
    ensures ok ==> fs.Valid() && Files(fs.Disk()) == old(Files(fs.Disk()))[ino := f']
    ensures ok ==> Written(old(Files(fs.Disk()))[ino], start, nblocks, contents[..], f')
  {
    hide Written, Flat, Span, Files, Inv, Coherent, BytesBlock, Runs.StepOp, BlocksNeeded, FreeSet;
    ghost var fs0 := Files(fs.Disk());
    ghost var f := fs0[ino];
    f' := f;
    var i, addr := 0, 0;
    WriteNone(f, start, contents[..]);
    while i < nblocks
      invariant 0 <= i <= nblocks && addr == Span(i)
      invariant fs.Valid() && Files(fs.Disk()) == fs0[ino := f'] && Written(f, start, i, contents[..], f')
    {
      SpanNext(i);
      SpanMonotone(i + 1, nblocks);
      WriteOne(f, start, i, contents[..], f');
      var block := BytesBlock(contents[addr..addr + BS]);
      var r := fs.Write(ino, start + i, block);
      if r != Done {
        return false, f';
      }
      f' := WriteAt(f', start + i, block);
      i, addr := i + 1, addr + BS;
    }
    ok := true;
  }

  lemma {:induction false} WriteNone(f: seq<Block>, start: nat, contents: seq<Byte>)
    ensures Written(f, start, 0, contents, f) && Span(0) == 0
  {}

  // ----- The file server -----

  /** Panicked: the disk of the block server is full.  Beyond: the write ends in block 2^32 - 1
      or beyond it, which the block server cannot store. */
  datatype PutResult = Stored | Panicked | Beyond

  /** Overflow: the size of the buffer, in bytes, is not a 32-bit number. */
  datatype ReadResult = Got(data: seq<Byte>) | NoFile | Overflow

  datatype SizeResult = Resized | BadFile | TooLarge | RefusedBelow | NeverEnds

  /** n in blkfile_do_read: a 32-bit number, unlike the size of the file. */
  function ReadLength(s: nat, offset: nat, n: Word): (k: nat)
    ensures k <= n && (offset < s ==> offset + k <= s)
  {
    if offset >= s then 0
    else if (s - offset) % WORD_LIMIT > n then n
    else
      Truncates(s - offset);
      (s - offset) % WORD_LIMIT
  }

  lemma Truncates(x: nat)
    ensures x % WORD_LIMIT <= x
  {}

  /** A read returns all there is, up to the number of bytes asked for, unless the remaining size
      has lost bits that matter. */
  lemma ReadIsWhole(s: nat, offset: nat, n: Word)
    requires offset < s
    ensures ReadLength(s, offset, n) == (if n < s - offset then n else s - offset)
       <==> s - offset < WORD_LIMIT || n <= (s - offset) % WORD_LIMIT
  {}

  /** Of a file of 2^32 + 5 bytes, a read of ten from the beginning returns five. */
  lemma ShortRead(k: Word, n: Word)
    ensures k < n ==> ReadLength(WORD_LIMIT + k, 0, n) == k
    ensures ReadLength(WORD_LIMIT + 5, 0, 10) == 5
  {
    WrapsTo(k);
    WrapsTo(5);
  }

  lemma WrapsTo(k: Word)
    ensures (WORD_LIMIT + k) % WORD_LIMIT == k
  {}

  class BlkFile {
    const fs: TreeDisk
    const size: array<nat>      // stat_cache[ino].st_size
    const inUse: array<bool>  // stat_cache[ino].st_alloc

    constructor (fs: TreeDisk, inodes: nat)
      requires fs.Valid() && inodes <= |Files(fs.Disk())|
      requires forall ino: nat :: ino < |Files(fs.Disk())| ==> Files(fs.Disk())[ino] == []
      ensures Valid() && this.fs == fs && fresh(size) && fresh(inUse) && size.Length == inodes
      ensures forall ino: nat :: ino < inodes ==> Contents()[ino] == []
    {
      this.fs := fs;
      size := new nat[inodes](_ => 0);
      inUse := new bool[inodes](_ => true);
      new;
      forall ino: nat | ino < inodes ensures FileBytes(Files(fs.Disk())[ino], size[ino]) { NoBytes(); }
    }

    ghost predicate Shape()
      reads this, fs, fs.below.Repr()
    {
      && fs.Valid() && size !in fs.below.Repr() && size.Length == inUse.Length <= |Files(fs.Disk())|
    }

    ghost predicate Valid()
      reads this, fs, fs.below.Repr(), size
    {
      Shape() && AllBytes(Files(fs.Disk()), size[..])
    }

    /** What the files hold. */
    ghost function Contents(): (c: seq<seq<Byte>>)
      requires Valid()
      reads this, fs, fs.below.Repr(), size
      ensures |c| == size.Length
    {
      ContentsOf(Files(fs.Disk()), size[..])
    }

    /** blkfile_put */
    method Put(ino: nat, offset: nat, data: seq<Byte>) returns (r: PutResult)
      requires Valid() && ino < size.Length
      modifies fs, fs.below.Repr(), size
      ensures r == Beyond <==> BlockOf(offset + |data|) + 1 >= WORD_LIMIT
      ensures r == Stored ==> Valid() && Contents() == old(Contents())[ino := Overlay(old(Contents())[ino], offset, data)]
    {
      hide Files, Flat, Span, BlockOf, PosOf, Inv, Coherent, Written, FileBytes, Content, Overlay, BufferFor;
      ghost var fs0, sizes := Files(fs.Disk()), size[..];
      ghost var f := fs0[ino];
      var s, start := size[ino], BlockOf(offset);
      var final, end, psize;
      FileLength(fs.Disk(), fs.owner, fs.chain, ino);
      BlocksOfFile(f, s, offset, |data|);
      if offset + |data| > s {
        final := offset + |data|;
        end := BlockOf(final);
        psize := (BlockOf(s) - start + 1) % WORD_LIMIT;
      } else {
        final := s;
        end := BlockOf(offset + |data|);
        psize := (end - start + 1) % WORD_LIMIT;
      }
      if end + 1 >= WORD_LIMIT {
        return Beyond;
      }
      var contents := FillBuffer(ino, s, start, end, psize, offset, data);
      var ok;
      ghost var f';
      ok, f' := MultiblockWrite(fs, ino, start, contents, end - start + 1);
      if !ok {
        return Panicked;
      }
      AllWritten(f, start, end - start + 1, contents[..], f');
      PutIsOverlay(f, s, f', contents[..], start, end, offset, data);
      size[ino] := final;
      assert size[..] == sizes[ino := final];
      PutInPlace(fs0, sizes, ino, f', final);
      r := Stored;
    }

    /** The buffer of blkfile_put: what is stored, with the data copied over it.  The read cannot
        fail: the blocks are there. */
    method FillBuffer(ino: nat, s: nat, start: nat, end: nat, psize: nat, offset: nat, data: seq<Byte>)
        returns (contents: array<Byte>)
      requires Valid() && ino < size.Length && s == size[ino]
      requires start == BlockOf(offset) && start <= end == BlockOf(offset + |data|) < WORD_LIMIT - 1
      requires psize == ((if offset + |data| > s then BlockOf(s) else end) - start + 1) % WORD_LIMIT
      modifies fs.below.Repr()
      ensures fresh(contents) && Valid() && fs.Disk() == old(fs.Disk()) && size[..] == old(size[..])
      ensures |contents[..]| == Span(end - start + 1)
      ensures BufferFor(Files(fs.Disk())[ino], contents[..], start, offset, data)
    {
      hide Files, Flat, Span, BlockOf, PosOf, Inv, Coherent, Filled, FileBytes, Mirrors, Overlay, BufferFor;
      ghost var f := Files(fs.Disk())[ino];
      FileLength(fs.Disk(), fs.owner, fs.chain, ino);
      BlocksOfFile(f, s, offset, |data|);
      contents := new Byte[Span(end - start + 1)](_ => 0);
      assert contents[..] == seq(contents.Length, i => 0);
      if start <= BlockOf(s) && s != 0 {
        PsizeFits(s, start, end, offset, |data|, psize);
        var ok, n := MultiblockRead(fs, ino, start, contents, psize);
        assert ok;
        ReadAll(f, s, contents[..], start, end, psize, n, offset, |data|);
      } else {
        ZerosMirror(f, s, contents[..], start);
      }
      ghost var was := contents[..];
      RoomFor(start, end, offset, |data|);
      CopyBytes(contents, PosOf(offset), data);
      CopiedIn(f, was, contents[..], start, offset, data);
    }

    /** blkfile_do_write, but for its permission check: the data is the rest of the request. */
    method DoWrite(ino: nat, offset: nat, n: Word, data: seq<Byte>) returns (served: bool, r: PutResult)
      requires Valid()
      modifies fs, fs.below.Repr(), size
      ensures served <==> ino < size.Length && inUse[ino] && n == |data|
      ensures served ==> (r == Beyond <==> BlockOf(offset + |data|) + 1 >= WORD_LIMIT)
      ensures !served ==> Valid() && Contents() == old(Contents())
      ensures served && r == Stored ==> Valid() && Contents() == old(Contents())[ino := Overlay(old(Contents())[ino], offset, data)]
    {
      served, r := true, Beyond;
      if ino >= size.Length || !inUse[ino] || n != |data| {
        return false, r;
      }
      r := Put(ino, offset, data);
    }

    /** blkfile_do_read, but for its permission check */
    method DoRead(ino: nat, offset: nat, n: Word) returns (r: ReadResult)
      requires Valid()
      modifies fs.below.Repr()
      ensures Valid() && Contents() == old(Contents())
      ensures r == NoFile <==> ino >= size.Length || !inUse[ino]
      ensures r == Overflow <==> r != NoFile && n > 0 && offset < size[ino] && BufferSize(size[ino], offset, n) >= WORD_LIMIT
      ensures r.Got? ==> r.data == if offset < |Contents()[ino]|
                                   then Contents()[ino][offset..offset + ReadLength(size[ino], offset, n)] else []
    {
      hide Files, Flat, Span, BlockOf, PosOf, Inv, Coherent, Filled, FileBytes, Content;
      if ino >= size.Length || !inUse[ino] {
        return NoFile;
      }
      if n == 0 {
        return Got([]);
      }
      var s := size[ino];
      if offset >= s {
        return Got([]);
      }
      ghost var f := Files(fs.Disk())[ino];
      FileLength(fs.Disk(), fs.owner, fs.chain, ino);
      var k := (s - offset) % WORD_LIMIT;
      if k > n {
        k := n;
      }
      var start, end := BlockOf(offset), BlockOf(offset + k);
      BlocksOfFile(f, s, offset, k);
      var psize := end - start + 1;
      if Span(psize) >= WORD_LIMIT {
        return Overflow;
      }
      var contents := new Byte[Span(psize)](_ => 0);
      assert contents[..] == seq(contents.Length, i => 0);
      var ok, m := MultiblockRead(fs, ino, start, contents, psize);
      ReadBack(f, s, contents[..], start, end, m, offset, k);
      r := Got(contents[PosOf(offset)..PosOf(offset) + k]);
    }

    /** blkfile_do_setsize, but for its permission check.  The size is set even if the block server
        refuses. */
    method DoSetSize(ino: nat, n: nat) returns (r: SizeResult)
      requires Valid()
      modifies fs, fs.below.Repr(), size
      ensures r == BadFile <==> ino >= size.Length || !inUse[ino]
      ensures r == TooLarge <==> r != BadFile && n > old(size[ino])
      ensures r == NeverEnds <==> r != BadFile && n == 0 && |old(Files(fs.Disk()))[ino]| > MaxFreeable()
      ensures r == RefusedBelow <==> r != BadFile && 0 < n <= old(size[ino]) && BlockOf(n) != BlockOf(old(size[ino]))
      ensures r == BadFile || r == TooLarge || r == NeverEnds ==> Valid() && Contents() == old(Contents())
      ensures r == Resized && n == 0 ==> Valid() && Contents() == old(Contents())[ino := []]
      ensures (r == Resized || r == RefusedBelow) && n > 0 ==>
        && Shape() && size[..] == old(size[..])[ino := n]
        && (Valid() <==> CanShrink(old(Contents())[ino], n))
        && (Valid() ==> Contents() == old(Contents())[ino := old(Contents())[ino][..n]])
    {
      hide Files, Flat, BlockOf, Inv, Coherent, FileBytes, Content, CanShrink, Runs.StepOp;
      if ino >= size.Length || !inUse[ino] {
        return BadFile;
      }
      if n > size[ino] {
        return TooLarge;
      }
      ghost var fs0, sizes := Files(fs.Disk()), size[..];
      FileLength(fs.Disk(), fs.owner, fs.chain, ino);
      BlocksOfFile(fs0[ino], sizes[ino], n, 0);
      var final := if n == 0 then 0 else 1 + BlockOf(n);
      var below := fs.SetSize(ino, final);
      if below == TreeDisks.Hangs {
        return NeverEnds;
      }
      size[ino] := n;
      assert size[..] == sizes[ino := n];
      if n == 0 {
        NoBytes();
        PutInPlace(fs0, sizes, ino, [], 0);
      } else {
        ResizeInPlace(fs0, sizes, ino, n);
      }
      r := if below.Refused? then RefusedBelow else Resized;
    }
  }

  /** The stored blocks serve the smaller size n exactly if it needs as many blocks and the bytes cut
      off are zero: blkfile_do_setsize clears none. */
  lemma {:induction false} ShrinkKeeps(f: seq<Block>, s: nat, n: nat)
    requires FileBytes(f, s) && 0 < n <= s
    ensures FileBytes(f, n) <==> CanShrink(Content(f, s), n)
    ensures FileBytes(f, n) ==> Content(f, n) == Content(f, s)[..n]
  {
    hide Flat, BlockOf;
    StoredCovers(f, s);
    assert forall i: nat :: n <= i < s ==> At(Flat(f), i) == Content(f, s)[i];
  }

  /** A file of two ones is not well kept when its size is set to 1: a stale one is left behind. */
  lemma StaleByte() returns (f: seq<Block>)
    ensures FileBytes(f, 2) && Content(f, 2) == [1, 1] && !FileBytes(f, 1)
  {
    RefsBoundsBS();
    var bytes: seq<Byte> := [1, 1] + seq(BS - 2, i => 0);
    var b := BytesBlock(bytes);
    f := [b];
    assert f[..0] == [];
    assert Flat(f) == bytes;
    BlockOfUnique(2, 0);
    BlockOfUnique(1, 0);
    assert At(Flat(f), 1) == 1;
  }

  /** What is left after blkfile_do_setsize has set the size of one file without changing its blocks. */
  lemma ResizeInPlace(files: seq<seq<Block>>, sizes: seq<nat>, ino: nat, n: nat)
    requires AllBytes(files, sizes) && ino < |sizes| && 0 < n <= sizes[ino]
    ensures AllBytes(files, sizes[ino := n]) <==> CanShrink(ContentsOf(files, sizes)[ino], n)
    ensures AllBytes(files, sizes[ino := n]) ==>
      ContentsOf(files, sizes[ino := n]) == ContentsOf(files, sizes)[ino := ContentsOf(files, sizes)[ino][..n]]
  {
    hide FileBytes, Content, BlockOf;
    var t, c := sizes[ino := n], ContentsOf(files, sizes)[ino];
    assert c == Content(files[ino], sizes[ino]);
    ShrinkKeeps(files[ino], sizes[ino], n);
    assert AllBytes(files, t) <==> FileBytes(files[ino], n) by {
      if AllBytes(files, t) { assert FileBytes(files[ino], t[ino]); }
    }
  }

  /** The first n bytes take as many blocks as all of c, and the others are zero. */
  ghost predicate CanShrink(c: seq<Byte>, n: nat) {
    BlockOf(n) == BlockOf(|c|) && forall i :: n <= i < |c| ==> c[i] == 0
  }

  /** The size of the buffer of blkfile_do_read. */
  function BufferSize(s: nat, offset: nat, n: Word): nat {
    var k := ReadLength(s, offset, n);
    BlockOfMonotone(offset, offset + k);
    Span(BlockOf(offset + k) - BlockOf(offset) + 1)
  }

  lemma {:induction false} ReadBack(f: seq<Block>, s: nat, contents: seq<Byte>, start: nat, end: nat, m: nat, offset: nat, k: nat)
    requires FileBytes(f, s) && s != 0 && offset + k <= s && start == BlockOf(offset) && start <= end == BlockOf(offset + k)
    requires |contents| == Span(end - start + 1)
    requires m <= end - start + 1 && Filled(f, start, m, seq(|contents|, i => 0), contents)
    requires m < end - start + 1 ==> start + m == |f|
    ensures m == end - start + 1
    ensures PosOf(offset) + k <= |contents|
    ensures contents[PosOf(offset)..PosOf(offset) + k] == Content(f, s)[offset..offset + k]
  {
    hide Flat, BlockOf, PosOf, Span;
    BlocksOfFile(f, s, offset, k);
    RoomFor(start, end, offset, k);
    assert contents[..Span(m)] == contents;
    FlatSlice(f, start, start + m);
    StoredCovers(f, s);
    SpanAdds(start, m);
    var p := PosOf(offset);
    SliceOfSlice(Flat(f), Span(start), Span(start + m), p, k);
    SliceOfSlice(Flat(f), 0, s, offset, k);
  }

  lemma SliceOfSlice(s: seq<Byte>, lo: nat, hi: nat, p: nat, k: nat)
    requires lo <= hi <= |s| && p + k <= hi - lo
    ensures s[lo..hi][p..p + k] == s[lo + p..lo + p + k]
  {
    var t, u := s[lo..hi][p..p + k], s[lo + p..lo + p + k];
    assert forall i :: 0 <= i < k ==> t[i] == u[i];
  }

  ghost predicate AllBytes(files: seq<seq<Block>>, sizes: seq<nat>) {
    |sizes| <= |files| && forall ino: nat :: ino < |sizes| ==> FileBytes(files[ino], sizes[ino])
  }

  ghost function ContentsOf(files: seq<seq<Block>>, sizes: seq<nat>): (c: seq<seq<Byte>>)
    requires AllBytes(files, sizes)
    ensures |c| == |sizes|
  {
    seq(|sizes|, ino requires 0 <= ino < |sizes| => Content(files[ino], sizes[ino]))
  }

  lemma {:induction false} NoBytes()
    ensures FileBytes([], 0)
  {}

  lemma PutInPlace(files: seq<seq<Block>>, sizes: seq<nat>, ino: nat, f': seq<Block>, s': nat)
    requires AllBytes(files, sizes) && ino < |sizes| && FileBytes(f', s')
    ensures AllBytes(files[ino := f'], sizes[ino := s'])
    ensures ContentsOf(files[ino := f'], sizes[ino := s']) == ContentsOf(files, sizes)[ino := Content(f', s')]
  {
    hide FileBytes, Content;
  }

  // ----- The arithmetic of blkfile_put -----

  lemma {:induction false} BlocksOfFile(f: seq<Block>, s: nat, offset: nat, n: nat)
    requires FileBytes(f, s)
    ensures s != 0 ==> |f| == BlockOf(s) + 1
    ensures BlockOf(offset) <= BlockOf(offset + n)
    ensures offset + n <= s ==> BlockOf(offset + n) <= BlockOf(s)
    ensures |f| < WORD_LIMIT && offset + n <= s ==> BlockOf(offset + n) + 1 < WORD_LIMIT
    ensures offset + n > s ==> BlockOf(s) <= BlockOf(offset + n)
  {
    hide Flat, BlockOf;
    BlockOfMonotone(offset, offset + n);
    ZeroIsFirst();
    if offset + n <= s { BlockOfMonotone(offset + n, s); } else { BlockOfMonotone(s, offset + n); }
  }

  lemma {:induction false} RoomFor(start: nat, end: nat, offset: nat, n: nat)
    requires start == BlockOf(offset) && start <= end == BlockOf(offset + n)
    ensures PosOf(offset) + n <= Span(end - start + 1)
  {
    hide BlockOf, PosOf, Span;
    SpanAdds(start, end - start + 1);
    SpanNext(end);
  }

  lemma {:induction false} PsizeFits(s: nat, start: nat, end: nat, offset: nat, n: nat, psize: nat)
    requires start == BlockOf(offset) <= BlockOf(s) && start <= end == BlockOf(offset + n) < WORD_LIMIT - 1
    requires psize == if offset + n > s then (BlockOf(s) - start + 1) % WORD_LIMIT else (end - start + 1) % WORD_LIMIT
    ensures psize == (if offset + n > s then BlockOf(s) else end) - start + 1
    ensures Span(psize) <= Span(end - start + 1)
  {
    hide BlockOf, Span;
    if offset + n > s { BlockOfMonotone(s, offset + n); }
    SpanMonotone(psize, end - start + 1);
  }

  /** The blocks that blkfile_put reads are all there. */
  lemma {:induction false} ReadAll(f: seq<Block>, s: nat, contents: seq<Byte>, start: nat, end: nat, psize: nat, n: nat,
                                   offset: nat, size: nat)
    requires FileBytes(f, s) && s != 0 && start == BlockOf(offset) <= BlockOf(s) && end == BlockOf(offset + size)
    requires start <= end < WORD_LIMIT - 1 && |f| < WORD_LIMIT && |contents| == Span(end - start + 1)
    requires psize == if offset + size > s then (BlockOf(s) - start + 1) % WORD_LIMIT else (end - start + 1) % WORD_LIMIT
    requires n <= psize && Filled(f, start, n, seq(|contents|, i => 0), contents)
    requires n < psize ==> start + n == |f|
    ensures Mirrors(f, contents, start)
  {
    hide Flat, BlockOf, Span;
    BlocksOfFile(f, s, offset, size);
    assert n == psize;
    SpanMonotone(n, end - start + 1);
    forall j | Span(n) <= j < |contents| ensures contents[j] == 0 {
      assert contents[Span(n)..][j - Span(n)] == seq(|contents|, i => 0)[Span(n)..][j - Span(n)];
    }
    ReadMirrors(f, s, contents, start, n);
  }

  lemma {:induction false} AllWritten(f: seq<Block>, start: nat, k: nat, contents: seq<Byte>, f': seq<Block>)
    requires Written(f, start, k, contents, f') && k > 0 && |contents| == Span(k)
    ensures Flat(f') == Overlay(Flat(f), Span(start), contents)
    ensures |f'| == if start + k > |f| then start + k else |f|
  {
    hide Flat, Overlay;
    assert contents[..Span(k)] == contents;
  }

  // ----- Whole runs: a file that is only written and emptied -----

  datatype Change = Wrote(offset: nat, data: seq<Byte>) | Emptied

  /** What Put and DoSetSize make of an empty file. */
  ghost function After(es: seq<Change>): seq<Byte> {
    if es == [] then []
    else
      match es[|es| - 1]
      case Wrote(offset, data) => Overlay(After(es[..|es| - 1]), offset, data)
      case Emptied => []
  }

  ghost predicate KeptSince(es: seq<Change>, k: nat) {
    forall j :: k <= j < |es| ==> es[j] != Emptied
  }

  /** Change k wrote byte i. */
  ghost predicate Writes(es: seq<Change>, k: nat, i: nat) {
    k < |es| && es[k].Wrote? && es[k].offset <= i < es[k].offset + |es[k].data|
  }

  /** A byte is the one written last, unless the file was emptied since. */
  lemma {:induction false} LastWriteWins(es: seq<Change>, k: nat, i: nat)
    requires Writes(es, k, i) && KeptSince(es, k) && forall j: nat :: k < j ==> !Writes(es, j, i)
    ensures i < |After(es)| && After(es)[i] == es[k].data[i - es[k].offset]
    decreases |es|
  {
    var es0, e := es[..|es| - 1], es[|es| - 1];
    if k < |es| - 1 {
      assert forall j: nat :: k < j < |es0| ==> es0[j] == es[j] && !Writes(es, j, i);
      LastWriteWins(es0, k, i);
      assert !Writes(es, |es| - 1, i) && e != Emptied;
    }
    assert At(After(es), i) == After(es)[i];
  }

  /** A byte never written since the file was emptied reads as zero. */
  lemma {:induction false} GapsAreZero(es: seq<Change>, i: nat)
    requires forall k: nat :: KeptSince(es, k) ==> !Writes(es, k, i)
    ensures At(After(es), i) == 0
    decreases |es|
  {
    if es != [] && es[|es| - 1] != Emptied {
      var es0 := es[..|es| - 1];
      forall k: nat | KeptSince(es0, k) ensures !Writes(es0, k, i) {
        assert forall j :: 0 <= j < |es0| ==> es0[j] == es[j];
        if k < |es0| { assert KeptSince(es, k) && !Writes(es, k, i); }
      }
      GapsAreZero(es0, i);
      assert KeptSince(es, |es| - 1) && !Writes(es, |es| - 1, i);
    }
  }

  /** The file ends where the farthest write since it was emptied ended. */
  lemma {:induction false} SizeIsFarthest(es: seq<Change>, n: nat)
    ensures |After(es)| <= n <==> forall k: nat :: k < |es| && KeptSince(es, k) ==> es[k].offset + |es[k].data| <= n
    decreases |es|
  {
    if es != [] {
      var es0, e := es[..|es| - 1], es[|es| - 1];
      SizeIsFarthest(es0, n);
      assert KeptSince(es, |es| - 1) <==> e != Emptied;
      forall k: nat | k < |es0| ensures KeptSince(es, k) <==> KeptSince(es0, k) && e != Emptied {
        assert forall j :: 0 <= j < |es0| ==> es0[j] == es[j];
      }
    }
  }
}
