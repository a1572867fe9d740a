/** What treedisk_write does at the largest 32-bit offset, for which the size of the file wraps to 0. */
module TreeWrap {
  import opened Blocks
  import opened Index
  import opened TreeLayout
  import opened FreeList
  import opened TreeFS
  import opened TreeOps

  /** No root is stacked, since the file counts as empty; the inode is written back with size 0, and the walk
      starts at the height that the offset needs, whatever the height of the tree. */
  ghost function WrapOp(d: seq<Block>, ino: nat, o: Word, block: Block): Store
    requires R >= 2 && |d| >= 1 && InodeBlockNo(ino) < |d|
  {
    WalkFromInode(d[0], d, ino, InodeBlock(d, ino, Root(d, ino), 0), o, Levels(o), block)
  }

  /** The file reads as empty, the others are as they were, and the blocks of the file are lost. */
  ghost predicate Lost(d: seq<Block>, ino: nat, d': seq<Block>)
    requires |d| >= 1 && 1 + d[0][0] <= |d| && ino < NInodes(d)
  {
    && |d'| == |d| && 1 + d'[0][0] <= |d'|
    && |Files(d')| == |Files(d)| && Files(d') == Files(d)[ino := []]
    && InodeBlockNo(ino) < |d'| && Root(d', ino) != 0 && NBlocks(d', ino) == 0
  }

  /** Some owners and some free list make d a valid disk. */
  ghost predicate IsFileSystem(d: seq<Block>) {
    exists owner, ch :: Inv(d, owner, ch)
  }

  /** An inode with a root and no blocks is that of no file. */
  lemma LostIsBroken(d: seq<Block>, ino: nat)
    requires |d| >= 1 && ino < NInodes(d) && InodeBlockNo(ino) < |d| && Root(d, ino) != 0 && NBlocks(d, ino) == 0
    ensures !IsFileSystem(d)
  {
    forall owner, ch ensures !Inv(d, owner, ch) {
      if Inv(d, owner, ch) { NotEmpty(d, owner, ino); }
    }
  }

  lemma NotEmpty(d: seq<Block>, owner: seq<Owner>, ino: nat)
    requires InodeBlockNo(ino) < |d| == |owner| && Root(d, ino) != 0 && NBlocks(d, ino) == 0
    ensures !FileOk(d, owner, ino)
  {}

  /** On an empty file, or one whose tree is already as high as a tree gets, the write takes the blocks that are
      missing on the path, stores the block at its end, and loses the file. */
  lemma WrapLosesFile(d: seq<Block>, owner: seq<Owner>, ch: seq<nat>, ino: nat, o: Word, block: Block, st: Store)
    requires Inv(d, owner, ch) && ino < NInodes(d) && InodeBlockNo(ino) < |d| && o + 1 == WORD_LIMIT
    requires NBlocks(d, ino) == 0 || Height(d, ino) == Levels(o)
    requires st == WrapOp(d, ino, o, block)
    ensures st.Panic? <==> |FreeSet(owner)| < Holes(d, Root(d, ino), Levels(o), o, Levels(o))
    ensures st.On? ==> Lost(d, ino, st.d) && DataAt(st.d, Root(st.d, ino), Levels(o), o) == block
    ensures st.On? ==> !IsFileSystem(st.d)
  {
    hide Inv, Mid, WalkOp, OthersSame, IsFileSystem;
    var root, n := Root(d, ino), Levels(o);
    var v := WrapStart(d, owner, ch, ino, o);
    var _, _, _ := WalkKeeps(v, v, owner, ch, ino, root, n, o, o, n, InodeBlockNo(ino), InodeWord(ino), block, st, Holes(v, root, n, o, n));
    if st.On? {
      OthersTrans(d, v, st.d, ino);
      LostFiles(d, owner, ch, ino, st.d);
      LostIsBroken(st.d, ino);
    }
  }

  /** The disk with the inode written back */
  lemma WrapStart(d: seq<Block>, owner: seq<Owner>, ch: seq<nat>, ino: nat, o: Word) returns (v: seq<Block>)
    requires Inv(d, owner, ch) && ino < NInodes(d) && InodeBlockNo(ino) < |d| && o + 1 == WORD_LIMIT
    requires NBlocks(d, ino) == 0 || Height(d, ino) == Levels(o)
    ensures v == d[InodeBlockNo(ino) := InodeBlock(d, ino, Root(d, ino), 0)] && v[0] == d[0] && NBlocks(v, ino) == 0
    ensures Walking(v, owner, ch, ino, Root(d, ino), Levels(o), o, o, Levels(o), InodeBlockNo(ino), InodeWord(ino))
    ensures OthersSame(d, v, ino)
    ensures Holes(v, Root(d, ino), Levels(o), o, Levels(o)) == Holes(d, Root(d, ino), Levels(o), o, Levels(o))
  {
    hide Mid, Inv;
    var root, n, last := Root(d, ino), Levels(o), Last(NBlocks(d, ino));
    v := WithInode(d, ino, root, 0);
    MidStart(d, owner, ch, ino);
    EmptyRoot(d, owner, ch, ino);
    if NBlocks(d, ino) == 0 { EmptyHeight(d, owner, ch, ino, Height(d, ino), last, 0, n); }
    MidInode(d, owner, ch, ino, root, n, last, 0, root, 0);
    InodeWritten(d, ino, root, 0, ino);
    MidExtend(v, owner, ch, ino, root, n, last, o);
    LevelsIsLeast(o, n);
    HolesFrame(d, root, n, v, root, n, o, n);
  }

  lemma EmptyRoot(d: seq<Block>, owner: seq<Owner>, ch: seq<nat>, ino: nat)
    requires Inv(d, owner, ch) && ino < NInodes(d) && InodeBlockNo(ino) < |d|
    ensures Root(d, ino) == 0 <==> NBlocks(d, ino) == 0
    ensures |d| >= 1 && 1 + d[0][0] <= |d| && InodeBlockNo(ino) != 0
  {
    assert FileOk(d, owner, ino);
  }

  lemma LostFiles(d: seq<Block>, owner: seq<Owner>, ch: seq<nat>, ino: nat, d': seq<Block>)
    requires Inv(d, owner, ch) && ino < NInodes(d) && OthersSame(d, d', ino)
    requires InodeBlockNo(ino) < |d'| && Root(d', ino) != 0 && NBlocks(d', ino) == 0
    ensures Lost(d, ino, d')
  {
    forall k: nat | k < NInodes(d) ensures Files(d')[k] == Files(d)[ino := []][k] {
      InodeBlockInRange(d[0][0], k);
      if k != ino { assert File(d', k) == File(d, k); }
    }
  }

  /** As soon as the inode of any file has been written back, the disk is that of no file system. */
  lemma WrapBreaks(d: seq<Block>, owner: seq<Owner>, ch: seq<nat>, ino: nat)
    requires Inv(d, owner, ch) && ino < NInodes(d) && InodeBlockNo(ino) < |d|
    ensures IsFileSystem(d[InodeBlockNo(ino) := InodeBlock(d, ino, Root(d, ino), 0)]) <==> NBlocks(d, ino) == 0
  {
    hide Inv;
    var v := WithInode(d, ino, Root(d, ino), 0);
    EmptyRoot(d, owner, ch, ino);
    InodeWritten(d, ino, Root(d, ino), 0, ino);
    if NBlocks(d, ino) == 0 {
      var ib, w := d[InodeBlockNo(ino)], InodeWord(ino);
      assert ib[w := 0][w + 1 := 0] == ib;
      assert v == d;
    } else {
      LostIsBroken(v, ino);
    }
  }

  /** On a file of one block, the walk goes on in that block, as if the data in it were references. */
  lemma WrapReadsData(d: seq<Block>, owner: seq<Owner>, ch: seq<nat>, ino: nat, o: Word, block: Block)
    requires Inv(d, owner, ch) && ino < NInodes(d) && InodeBlockNo(ino) < |d| && o + 1 == WORD_LIMIT && NBlocks(d, ino) == 1
    ensures |Files(d)[ino]| == 1 && Levels(o) >= 1
    ensures var v, n := d[InodeBlockNo(ino) := InodeBlock(d, ino, Root(d, ino), 0)], Levels(o) - 1;
      WrapOp(d, ino, o, block) == WalkOp(d[0], v, o, n, Root(d, ino), Files(d)[ino][0], Slot(Up(o, n)), block)
  {
    FilesAt(d, owner, ch, ino);
    EmptyRoot(d, owner, ch, ino);
    var b := Root(d, ino);
    assert NodeAt(d, b, 0, 0, 0, 0) == b;
    assert owner[b] == Node(ino, 0, 0);
    InodeBlockInRange(d[0][0], ino);
    assert owner[InodeBlockNo(ino)] == Inodes;
  }
}
