/** Many growable sparse files on one block store. */
module TreeDisks {
  import opened Blocks
  import opened Index
  import opened BlockDevice
  import opened Clock
  import opened TreeLayout
  import opened FreeList
  import opened TreeFS
  import opened TreeOps
  import opened TreeWrap
  import opened TreeFree
  import opened TreeCreate
  import Runs = TreeRuns

  /** Full: the source panics because the block store is full.  Wraps: the offset is the
      largest 32-bit number, so that the new size of the file wraps to 0. */
  datatype WriteResult = Done | BadInode | Full | Wraps

  /** Hangs: the depth loop of treedisk_free_file does not end. */
  datatype SetSizeResult = Sized(nblocks: nat) | Refused | Hangs

  class TreeDisk {
    const below: ClockDisk
    ghost var owner: seq<Owner>
    ghost var chain: seq<nat>

    constructor (below: ClockDisk, ghost owner: seq<Owner>, ghost chain: seq<nat>)
      requires below.Valid() && below.below.reliable && Inv(below.Store(), owner, chain)
      ensures Valid() && this.below == below && this.owner == owner && this.chain == chain
    {
      this.below, this.owner, this.chain := below, owner, chain;
    }

    ghost predicate Ready()
      reads this, below.Repr()
    {
      below.Valid() && below.below.reliable
    }

    ghost predicate Valid()
      reads this, below.Repr()
    {
      Ready() && HasInodes(below.Store()) && Inv(below.Store(), owner, chain)
    }

    ghost function Disk(): seq<Block>
      requires Ready()
      reads this, below.Repr()
    {
      below.Store()
    }

    // ----- Access to the store below: not ok makes the source panic -----

    method ReadBlock(b: nat) returns (ok: bool, block: Block)
      requires Ready()
      modifies below.Repr()
      ensures Ready() && Disk() == old(Disk())
      ensures ok <==> b < |Disk()|
      ensures ok ==> block == Disk()[b]
    {
      ok, block := below.Read(b);
    }

    method WriteBlock(b: nat, block: Block) returns (ok: bool)
      requires Ready()
      modifies below.Repr()
      ensures Ready()
      ensures ok <==> b < |old(Disk())|
      ensures Disk() == if ok then old(Disk())[b := block] else old(Disk())
    {
      ok := below.Write(b, block);
    }

    // ----- The free list -----

    /** treedisk_alloc_block */
    method AllocBlock(super: Block) returns (ok: bool, f: Word, super': Block)
      requires Ready() && |Disk()| >= 1 && R >= 2
      modifies below.Repr()
      ensures Ready() && |Disk()| == |old(Disk())|
      ensures ok <==> AllocOp(super, old(Disk())).Block?
      ensures ok ==> AllocOp(super, old(Disk())) == FreeList.Block(f, On(super', Disk()))
    {
      f, super' := 0, super;
      var b := super[1];
      if b == 0 {
        return false, 0, super;
      }
      var fl;
      ok, fl := ReadBlock(b);
      if !ok {
        return;
      }
      var i := R - 1;
      while i > 0 && fl[i] == 0
        invariant 0 <= i < R && LastUsed(fl, i) == LastUsed(fl, R - 1)
      {
        i := i - 1;
      }
      if i == 0 {
        f := b;
        super' := super[1 := fl[0]];
        ok := WriteBlock(0, super');
      } else {
        f := fl[i];
        ok := WriteBlock(b, fl[i := 0]);
      }
    }

    /** treedisk_free_block */
    method FreeBlock(super: Block, target: Word) returns (ok: bool, super': Block)
      requires Ready() && |Disk()| >= 1 && R >= 2
      modifies below.Repr()
      ensures Ready() && |Disk()| == |old(Disk())|
      ensures ok <==> FreeOp(super, old(Disk()), target).On?
      ensures ok ==> FreeOp(super, old(Disk()), target) == On(super', Disk())
    {
      super' := super;
      ok := WriteBlock(target, NullBlock());
      if !ok {
        return;
      }
      var b := super[1];
      if b == 0 {
        super' := super[1 := target];
        ok := WriteBlock(0, super');
        return;
      }
      var fl;
      ok, fl := ReadBlock(b);
      if !ok {
        return;
      }
      var i := 1;
      while i < R && fl[i] != 0
        invariant 1 <= i <= R && FirstUnused(fl, i) == FirstUnused(fl, 1)
      {
        i := i + 1;
      }
      if i != R {
        ok := WriteBlock(b, fl[i := target]);
      } else {
        super' := super[1 := target];
        ok := WriteBlock(0, super');
        ok := WriteBlock(target, NullBlock()[0 := b]);
      }
    }

    // ----- Reading -----

    /** treedisk_read */
    method Read(ino: nat, offset: Word) returns (ok: bool, block: Block)
      requires Valid()
      modifies below.Repr()
      ensures Valid() && Disk() == old(Disk())
      ensures ok <==> ino < |Files(Disk())| && offset < |Files(Disk())[ino]|
      ensures ok ==> block == Files(Disk())[ino][offset]
    {
      ghost var d := Disk();
      block := NullBlock();
      var super, ib;
      ok, super := ReadBlock(0);
      if ino >= InodesIn(super[0]) {
        return false, block;
      }
      ReadIsFile(d, owner, chain, ino, offset);
      ok, ib := ReadBlock(InodeBlockNo(ino));
      var nblocks := ib[InodeWord(ino) + 1];
      if offset >= nblocks {
        return false, block;
      }
      var nlevels := CountLevels(nblocks - 1);
      ok, block := ReadPath(ib[InodeWord(ino)], nlevels, offset);
    }

    /** The walk of treedisk_read down from the root block. */
    method ReadPath(root: Word, height: nat, offset: Word) returns (ok: bool, block: Block)
      requires Ready()
      modifies below.Repr()
      ensures Ready() && Disk() == old(Disk())
      ensures ok <==> ReadOp(Disk(), root, offset, height).Got?
      ensures ok ==> ReadOp(Disk(), root, offset, height).block == block
    {
      var nlevels := height;
      var b := root;
      while true
        invariant 0 <= nlevels <= height
        invariant Ready() && Disk() == old(Disk())
        invariant ReadOp(Disk(), b, offset, nlevels) == ReadOp(Disk(), root, offset, height)
        decreases nlevels
      {
        if b == 0 {
          return true, NullBlock();
        }
        ok, block := ReadBlock(b);
        if !ok || nlevels == 0 {
          return;
        }
        nlevels := nlevels - 1;
        b := block[PathIndex(offset, nlevels)];
      }
    }

    // ----- Writing -----

    /** The loop of treedisk_write that stacks new roots. */
    method Grow(super: Block, root: Word, nlevels: nat, after: nat) returns (ok: bool, super': Block, root': Word)
      requires Ready() && |Disk()| >= 1 && R >= 2
      modifies below.Repr()
      ensures Ready() && |Disk()| == |old(Disk())|
      ensures ok <==> GrowOp(super, old(Disk()), root, nlevels, after).Tree?
      ensures ok ==> GrowOp(super, old(Disk()), root, nlevels, after) == Tree(super', Disk(), root')
    {
      ok, super', root' := true, super, root;
      var n := nlevels;
      while n < after
        invariant Ready() && |Disk()| == |old(Disk())|
        invariant GrowOp(super', Disk(), root', n, after) == GrowOp(super, old(Disk()), root, nlevels, after)
        invariant n <= after || n == nlevels
      {
        var indir;
        ok, indir, super' := AllocBlock(super');
        if !ok {
          return;
        }
        assert NewRoot(root') == NullBlock()[0 := root'];
        ok := WriteBlock(indir, NullBlock()[0 := root']);
        if !ok {
          return;
        }
        root' := indir;
        n := n + 1;
      }
    }

    /** The loop of treedisk_write that walks down, allocating what is missing, and the final
        write of the data block.  The parent block is in memory; its reference to the next node is word
        pIdx, and it belongs in block pOff. */
    method Walk(super: Block, offset: Word, height: nat, pOff0: nat, pBlock0: Block, pIdx0: nat, block: Block)
        returns (ok: bool)
      requires Ready() && |Disk()| >= 1 && R >= 2 && pIdx0 < R
      modifies below.Repr()
      ensures Ready()
      ensures ok <==> WalkOp(super, old(Disk()), offset, height, pOff0, pBlock0, pIdx0, block).On?
      ensures ok ==> WalkOp(super, old(Disk()), offset, height, pOff0, pBlock0, pIdx0, block).d == Disk()
    {
      hide Coherent, Hits, Misses, Slot;
      var super', nlevels, pOff, pBlock, pIdx := super, height, pOff0, pBlock0, pIdx0;
      var b: Word := 0;
      while true
        invariant 0 <= nlevels && 0 <= pIdx < R
        invariant Ready() && |Disk()| == |old(Disk())|
        invariant WalkOp(super', Disk(), offset, nlevels, pOff, pBlock, pIdx, block)
               == WalkOp(super, old(Disk()), offset, height, pOff0, pBlock0, pIdx0, block)
        decreases nlevels
      {
        var tib := NullBlock();
        b := pBlock[pIdx];
        if b == 0 {
          ok, b, super' := AllocBlock(super');
          if !ok {
            return;
          }
          pBlock := pBlock[pIdx := b];
          ok := WriteBlock(pOff, pBlock);
          if !ok {
            return;
          }
          if nlevels == 0 {
            break;
          }
        } else {
          if nlevels == 0 {
            break;
          }
          ok, tib := ReadBlock(b);
          if !ok {
            return;
          }
        }
        nlevels := nlevels - 1;
        pIdx := PathIndex(offset, nlevels);
        pBlock := tib;
        pOff := b;
      }
      ok := WriteBlock(b, block);
    }

    /** treedisk_write.  At the largest 32-bit offset the size of the file wraps to 0 (see SizeAfterWrite). */
    method Write(ino: nat, offset: Word, block: Block) returns (r: WriteResult)
      requires Valid()
      modifies this, below.Repr()
      ensures r == BadInode <==> ino >= |Files(old(Disk()))|
      ensures r == Wraps <==> ino < |Files(old(Disk()))| && offset + 1 == WORD_LIMIT && WrapOf(old(Disk()), ino, offset, block).On?
      ensures r == Full <==> ino < |Files(old(Disk()))| && IsFull(old(Disk()), old(owner), ino, offset, block)
      ensures r == BadInode || r == Done ==> Valid()
      ensures r == BadInode ==> Disk() == old(Disk())
      ensures r == Wraps ==> Ready() && Disk() == WrapOf(old(Disk()), ino, offset, block).d
      ensures r == Done ==>
        Files(Disk()) == Files(old(Disk()))[ino := WriteAt(Files(old(Disk()))[ino], offset, block)]
      ensures r == Done ==> TakesStep(old(Disk()), Runs.Wrote(ino, offset, block), Disk())
      ensures r == Done ==>
        |FreeSet(owner)| == |FreeSet(old(owner))| - BlocksNeeded(old(Disk()), ino, offset)
    {
      hide WriteAt, Inv, FreeSet, Files, Coherent, Hits, Misses, WriteOp, WrapOp;
      ghost var d := Disk();
      InvSize(d, owner, chain);
      var ok, super, ib;
      ok, super := ReadBlock(0);
      if ino >= InodesIn(super[0]) {
        return BadInode;
      }
      FilesAt(d, owner, chain, ino);
      ok, ib := ReadBlock(InodeBlockNo(ino));
      ghost var owner', chain' := owner, chain;
      if offset + 1 < WORD_LIMIT {
        owner', chain' := WriteKeeps(d, owner, chain, ino, offset, block, WriteOp(d, ino, offset, block));
      }
      ok := WriteTree(super, ib, ino, offset, block);
      if !ok {
        return Full;
      }
      if offset + 1 == WORD_LIMIT {
        return Wraps;
      }
      owner, chain := owner', chain';
      InvHasInodes(Disk(), owner, chain);
      return Done;
    }

    /** treedisk_write from the snapshot of the superblock and the inode block on. */
    method WriteTree(super: Block, ib: Block, ino: nat, offset: Word, block: Block) returns (ok: bool)
      requires Ready() && R >= 2 && |Disk()| >= 1 && super == Disk()[0]
      requires InodeBlockNo(ino) < |Disk()| && ib == Disk()[InodeBlockNo(ino)]
      modifies below.Repr()
      ensures Ready()
      ensures ok <==> WriteOrWrap(old(Disk()), ino, offset, block).On?
      ensures ok ==> WriteOrWrap(old(Disk()), ino, offset, block).d == Disk()
    {
      hide GrowOp, WalkOp, WriteOrWrap, StartOf, Height, NewHeight, Coherent, Hits, Misses;
      WriteUnfolds(Disk(), ino, offset, block);
      var w, super', root, after := InodeWord(ino), super, ib[InodeWord(ino)], 0;
      ok, super', root, after := Raise(super, ib, ino, offset);
      if !ok {
        return;
      }
      var ib' := ib;
      if offset >= ib[w + 1] {
        ib' := ib[w := root][w + 1 := SizeAfterWrite(ib[w + 1], offset)];
        ok := WriteBlock(InodeBlockNo(ino), ib');
      }
      ok := Walk(super', offset, after, InodeBlockNo(ino), ib', w, block);
    }

    /** The part of treedisk_write that finds the height needed and stacks new roots */
    method Raise(super: Block, ib: Block, ino: nat, offset: Word) returns (ok: bool, super': Block, root: Word, after: nat)
      requires Ready() && R >= 2 && |Disk()| >= 1 && super == Disk()[0]
      requires InodeBlockNo(ino) < |Disk()| && ib == Disk()[InodeBlockNo(ino)]
      modifies below.Repr()
      ensures Ready() && |Disk()| == |old(Disk())| && after == NewHeight(NBlocks(old(Disk()), ino), offset)
      ensures ok <==> StartOf(old(Disk()), ino, offset).Tree?
      ensures ok ==> StartOf(old(Disk()), ino, offset) == Tree(super', Disk(), root)
    {
      hide GrowOp, Coherent, Hits, Misses;
      var w, nblocks := InodeWord(ino), ib[InodeWord(ino) + 1];
      var nlevels := 0;
      if nblocks > 0 {
        nlevels := CountLevels(nblocks - 1);
      }
      after := nlevels;
      if offset >= nblocks {
        after := CountLevels(offset);
      }
      if SizeAfterWrite(nblocks, offset) == 0 {
        return true, super, ib[w], after;
      }
      ok, super', root := Grow(super, ib[w], nlevels, after);
    }

    // ----- Truncation -----

    /** recursive_free_file, for block b that is level - currLevel levels above the data. */
    method RecursiveFree(level: nat, currLevel: nat, super: Block, b: Word) returns (ok: bool, super': Block)
      requires Ready() && |Disk()| >= 1 && R >= 2 && currLevel <= level
      modifies below.Repr()
      ensures Ready() && |Disk()| == |old(Disk())|
      ensures ok <==> FreeTreeOp(super, old(Disk()), b, level - currLevel).On?
      ensures ok ==> FreeTreeOp(super, old(Disk()), b, level - currLevel) == On(super', Disk())
      decreases level - currLevel
    {
      hide FreeOp;
      if level == currLevel {
        ok, super' := FreeBlock(super, b);
        return;
      }
      super' := super;
      var ib;
      ok, ib := ReadBlock(b);
      if !ok {
        return;
      }
      ghost var h := level - currLevel - 1;
      var i := 0;
      while i < R
        invariant 0 <= i <= R && Ready() && |Disk()| == |old(Disk())|
        invariant FreeRefsOp(super', Disk(), ib, i, h) == FreeRefsOp(super, old(Disk()), ib, 0, h)
      {
        if ib[i] != 0 {
          ok, super' := RecursiveFree(level, currLevel + 1, super', ib[i]);
          if !ok {
            return;
          }
        }
        i := i + 1;
      }
      ok, super' := FreeBlock(super', b);
    }

    /** treedisk_free_file */
    method FreeFile(super: Block, root: Word, nblocks: Word) returns (hangs: bool, ok: bool, super': Block)
      requires Ready() && |Disk()| >= 1 && R >= 2 && nblocks != 0
      modifies below.Repr()
      ensures Ready() && |Disk()| == |old(Disk())|
      ensures hangs <==> nblocks > MaxFreeable()
      ensures hangs ==> Disk() == old(Disk())
      ensures !hangs ==> ok == FreeTreeOp(super, old(Disk()), root, Levels(nblocks - 1)).On?
      ensures !hangs && ok ==> FreeTreeOp(super, old(Disk()), root, Levels(nblocks - 1)) == On(super', Disk())
    {
      hangs, ok, super' := false, true, super;
      if nblocks == 1 {
        ok, super' := FreeBlock(super, root);
        return;
      }
      var level;
      hangs, level := FreeDepth(nblocks);
      if hangs {
        return;
      }
      ok, super' := RecursiveFree(level, 0, super, root);
    }

    /** treedisk_setsize: only emptying a file is supported. */
    method SetSize(ino: nat, n: Word) returns (r: SetSizeResult)
      requires Valid() && ino < |Files(Disk())|
      modifies this, below.Repr()
      ensures Valid()
      ensures r == Hangs <==> n == 0 && |Files(old(Disk()))[ino]| > MaxFreeable()
      ensures r == Refused <==> 0 < n != |Files(old(Disk()))[ino]|
      ensures r.Sized? ==> r.nblocks == n
      ensures r.Sized? && n == 0 ==> Files(Disk()) == Files(old(Disk()))[ino := []]
      ensures r.Sized? && n == 0 ==> TakesStep(old(Disk()), Runs.Emptied(ino), Disk())
      ensures r.Sized? && n == 0 ==> FreeSet(owner) == FreeSet(old(owner)) + NodesOf(old(owner), ino)
      ensures r.Sized? && n == 0 ==> Zeroed(Disk(), owner, NodesOf(old(owner), ino))
      ensures !r.Sized? || n != 0 ==> Disk() == old(Disk()) && owner == old(owner)
    {
      hide Inv, Files, FreeTreeOp, MaxFreeable, FreeSet, NodesOf, Zeroed, Coherent, Hits, Misses, Levels;
      ghost var d := Disk();
      var ok, super, ib, hangs;
      SizeOf(d, owner, chain, ino);
      ok, super := ReadBlock(0);
      ok, ib := ReadBlock(InodeBlockNo(ino));
      var w := InodeWord(ino);
      var nblocks := ib[w + 1];
      if n == nblocks {
        NothingToFree(d, owner, chain, ino);
        return Sized(nblocks);
      }
      if n > 0 {
        return Refused;
      }
      ghost var st := FreeTreeOp(d[0], d, Root(d, ino), Height(d, ino));
      ghost var owner', chain' := TruncateKeeps(d, owner, chain, ino, st);
      hangs, ok, super := FreeFile(super, ib[w], nblocks);
      if hangs {
        return Hangs;
      }
      ib := ib[w + 1 := 0];
      ib := ib[w := 0];
      ok := WriteBlock(InodeBlockNo(ino), ib);
      owner, chain := owner', chain';
      InvHasInodes(Disk(), owner, chain);
      return Sized(0);
    }

    // ----- Creation -----

    /** The body of the loop of setup_freelist: a block that names previous in slot 0 and the
        blocks after first in the others. */
    static method FillListBlock(data0: Block, previous: Word, first: nat, n: nat, ghost nf: nat, ghost j: nat)
        returns (data: Block, next: nat)
      requires first < n <= WORD_LIMIT && first == ListHead(nf, j)
      requires previous == if j == 0 then 0 else ListHead(nf, j - 1)
      ensures IsListBlock(data, nf, n, j)
      ensures next == if ListHead(nf, j + 1) < n then ListHead(nf, j + 1) else n
    {
      RefsBounds();
      NextListHead(nf, j);
      data, next := data0[0 := previous], first + 1;
      var i := 1;
      while i < R && next < n
        invariant 1 <= i <= R && next == first + i <= n && data[0] == previous
        invariant forall k :: 1 <= k < i ==> data[k] == first + k
      {
        data, next := data[i := next], next + 1;
        i := i + 1;
      }
      while i < R
        invariant 1 <= i <= R && data[0] == previous && (next == n || i == R)
        invariant forall k :: 1 <= k < i ==> data[k] == if first + k < n then first + k else 0
      {
        data := data[i := 0];
        i := i + 1;
      }
    }

    /** setup_freelist: the blocks from nf on become the free list. */
    static method SetupFreeList(below: ClockDisk, nf: nat) returns (head: Word)
      requires below.Valid() && below.below.reliable && nf < |below.Store()| <= WORD_LIMIT
      modifies below.Repr()
      ensures below.Valid() && |below.Store()| == |old(below.Store())|
      ensures head == ListHead(nf, ListLength(|below.Store()| - nf) - 1)
      ensures ListWritten(below.Store(), nf)
    {
      hide IsListBlock, ListLength, ListHead;
      var n := below.NBlocks();
      var data, next := NullBlock(), nf;
      head := 0;
      ghost var j: nat := 0;
      ListHeadsRise(nf);
      while next < n
        invariant below.Valid() && |below.Store()| == n
        invariant next == if ListHead(nf, j) < n then ListHead(nf, j) else n
        invariant head == if j == 0 then 0 else ListHead(nf, j - 1)
        invariant j > 0 ==> ListHead(nf, j - 1) < n
        invariant forall k: nat :: k < j ==>
                    ListHead(nf, k) < n && IsListBlock(below.Store()[ListHead(nf, k)], nf, n, k)
        decreases n - next
      {
        var first := next;
        data, next := FillListBlock(data, head, first, n, nf, j);
        head := first;
        var ok := below.Write(head, data);
        j := j + 1;
      }
      LastListHead(nf, n, j);
    }

    /** treedisk_create.  A disk that has inode blocks is left as it is. */
    static method Create(below: ClockDisk, nInodes: Word, ghost owner: seq<Owner>, ghost chain: seq<nat>)
        returns (td: TreeDisk?)
      requires below.Valid() && below.below.reliable && 1 <= |below.Store()| <= WORD_LIMIT
      requires below.Store()[0][0] != 0 ==>
                 below.Store()[0][0] == InodeBlocksFor(nInodes) && Inv(below.Store(), owner, chain)
      modifies below.Repr()
      ensures below.Valid()
      ensures td == null <==> |old(below.Store())| < InodeBlocksFor(nInodes) + 2
      ensures td == null || old(below.Store())[0][0] != 0 ==> below.Store() == old(below.Store())
      ensures td != null ==> td.below == below && td.Valid() && NInodes(td.Disk()) == InodesIn(InodeBlocksFor(nInodes))
      ensures td != null && old(below.Store())[0][0] == 0 ==>
        && (forall ino :: 0 <= ino < |Files(td.Disk())| ==> Files(td.Disk())[ino] == [])
        && (forall c :: 0 <= c < |td.owner| ==> (IsFree(td.owner[c]) <==> c > InodeBlocksFor(nInodes)))
    {
      hide IsFresh, Inv, Files, IsFree, FreshOwners, FreshChain, Coherent, Hits, Misses;
      var nib := InodeBlocksFor(nInodes);
      var n := below.NBlocks();
      if n < nib + 2 {
        return null;
      }
      var ok, super := below.Read(0);
      if super[0] != 0 {
        td := new TreeDisk(below, owner, chain);
        return;
      }
      Format(below, nib);
      ghost var owner', chain' := FreshOwners(nib + 1, n), FreshChain(nib + 1, n);
      MadeInv(below.Store(), nib, owner', chain');
      td := new TreeDisk(below, owner', chain');
    }

    /** The end of treedisk_create: the free list, the superblock and the inode blocks */
    static method Format(below: ClockDisk, nib: Word)
      requires below.Valid() && below.below.reliable && nib + 2 <= |below.Store()| <= WORD_LIMIT
      modifies below.Repr()
      ensures below.Valid() && |below.Store()| == |old(below.Store())| && IsFresh(below.Store(), nib)
    {
      hide ListWritten, ListLength, ListHead, Coherent, Hits, Misses;
      var super := NullBlock()[0 := nib];
      var head := SetupFreeList(below, nib + 1);
      super := super[1 := head];
      ghost var d := below.Store();
      var ok := below.Write(0, super);
      WrittenFrame(d, below.Store(), nib + 1);
      ClearInodes(below, nib);
    }

    /** The last loop of treedisk_create. */
    static method ClearInodes(below: ClockDisk, nib: nat)
      requires below.Valid() && below.below.reliable && nib < |below.Store()|
      requires ListWritten(below.Store(), nib + 1)
      modifies below.Repr()
      ensures below.Valid() && |below.Store()| == |old(below.Store())|
      ensures below.Store()[0] == old(below.Store())[0]
      ensures forall c :: 1 <= c <= nib ==> below.Store()[c] == NullBlock()
      ensures ListWritten(below.Store(), nib + 1)
    {
      hide ListWritten;
      var i := 1;
      while i <= nib
        invariant 1 <= i <= nib + 1 && below.Valid() && |below.Store()| == |old(below.Store())|
        invariant below.Store()[0] == old(below.Store())[0]
        invariant forall c :: 1 <= c < i ==> below.Store()[c] == NullBlock()
        invariant ListWritten(below.Store(), nib + 1)
      {
        ghost var d := below.Store();
        var ok := below.Write(i, NullBlock());
        WrittenFrame(d, below.Store(), nib + 1);
        i := i + 1;
      }
    }
  }

  ghost predicate HasInodes(d: seq<Block>) {
    |d| >= 1 && 1 + d[0][0] <= |d|
  }

  lemma InvHasInodes(d: seq<Block>, owner: seq<Owner>, chain: seq<nat>)
    requires Inv(d, owner, chain)
    ensures HasInodes(d)
  {}

  /** The disk goes from d to d' by a step that TreeRuns composes into runs. */
  ghost predicate TakesStep(d: seq<Block>, e: Runs.Event, d': seq<Block>) {
    Runs.IsDisk(d) && Runs.StepOp(d, e) == Runs.At(d')
  }

  /** The blocks that a write takes off the free list. */
  ghost function BlocksNeeded(d: seq<Block>, ino: nat, o: nat): nat {
    if InodeBlockNo(ino) < |d| then Need(d, ino, o) else 0
  }

  /** The write, for any offset */
  ghost function WriteOrWrap(d: seq<Block>, ino: nat, o: Word, block: Block): Store
    requires R >= 2 && |d| >= 1 && InodeBlockNo(ino) < |d|
  {
    if o + 1 == WORD_LIMIT then WrapOp(d, ino, o, block) else WriteOp(d, ino, o, block)
  }

  /** When the write panics: too few blocks are free, except at the largest offset. */
  ghost predicate IsFull(d: seq<Block>, owner: seq<Owner>, ino: nat, o: Word, block: Block) {
    if o + 1 == WORD_LIMIT then WrapOf(d, ino, o, block).Panic? else |FreeSet(owner)| < BlocksNeeded(d, ino, o)
  }

  /** The tree once new roots have been stacked: none, if the size has wrapped to 0 */
  ghost function StartOf(d: seq<Block>, ino: nat, o: Word): Tree
    requires R >= 2 && |d| >= 1 && InodeBlockNo(ino) < |d|
  {
    if SizeAfterWrite(NBlocks(d, ino), o) == 0 then Tree(d[0], d, Root(d, ino))
    else GrowOp(d[0], d, Root(d, ino), Height(d, ino), NewHeight(NBlocks(d, ino), o))
  }

  lemma WriteUnfolds(d: seq<Block>, ino: nat, o: Word, block: Block)
    requires R >= 2 && |d| >= 1 && InodeBlockNo(ino) < |d|
    ensures var t, b, n := StartOf(d, ino, o), InodeBlockNo(ino), NBlocks(d, ino);
      if t.NoTree? || |t.d| != |d| then WriteOrWrap(d, ino, o, block) == Panic
      else
        var ib := if o < n then d[b] else d[b][InodeWord(ino) := t.root][InodeWord(ino) + 1 := SizeAfterWrite(n, o)];
        WriteOrWrap(d, ino, o, block)
          == WalkOp(t.super, if o < n then t.d else t.d[b := ib], o, NewHeight(n, o), b, ib, InodeWord(ino), block)
  {
    hide WalkOp, GrowOp;
  }

  ghost function WrapOf(d: seq<Block>, ino: nat, o: Word, block: Block): Store {
    if R >= 2 && |d| >= 1 && InodeBlockNo(ino) < |d| then WrapOp(d, ino, o, block) else Panic
  }

  /** nblocks in the inode after a write at offset o, in 32-bit arithmetic. */
  function SizeAfterWrite(nblocks: Word, o: Word): Word {
    if o >= nblocks then (o + 1) % WORD_LIMIT else nblocks
  }

  /** Every offset but the largest is inside the file once it has been written. */
  lemma SizeWraps(nblocks: Word, o: Word)
    ensures o < SizeAfterWrite(nblocks, o) <==> o + 1 < WORD_LIMIT
    ensures o + 1 == WORD_LIMIT ==> SizeAfterWrite(nblocks, o) == 0
  {}

  lemma InvSize(d: seq<Block>, owner: seq<Owner>, ch: seq<nat>)
    requires Inv(d, owner, ch)
    ensures |d| >= 1 && R >= 2 && 1 + d[0][0] <= |d| && |Files(d)| == InodesIn(d[0][0])
  {}

  lemma SizeOf(d: seq<Block>, owner: seq<Owner>, ch: seq<nat>, ino: nat)
    requires Inv(d, owner, ch) && ino < NInodes(d)
    ensures |d| >= 1 && R >= 2 && 1 + d[0][0] <= |d| && |owner| == |d|
    ensures InodeBlockNo(ino) < |d| && |Files(d)[ino]| == NBlocks(d, ino)
  {
    FilesAt(d, owner, ch, ino);
  }

  /** An empty file has no nodes: emptying it again changes nothing. */
  lemma NothingToFree(d: seq<Block>, owner: seq<Owner>, ch: seq<nat>, ino: nat)
    requires Inv(d, owner, ch) && ino < NInodes(d)
    ensures |Files(d)[ino]| == 0 ==> NodesOf(owner, ino) == {} && Files(d) == Files(d)[ino := []]
    ensures |Files(d)[ino]| == 0 ==> FreeSet(owner) == FreeSet(owner) + NodesOf(owner, ino)
    ensures |Files(d)[ino]| == 0 ==> Zeroed(d, owner, NodesOf(owner, ino))
  {
    FilesAt(d, owner, ch, ino);
    if |Files(d)[ino]| == 0 {
      AllUnderRoot(d, owner, ino, 0, Height(d, ino), 0);
      HoleHasNoNodes(d, owner, ino, Height(d, ino), 0);
    }
  }
}
