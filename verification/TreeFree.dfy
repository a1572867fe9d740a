/** What treedisk_free_file does to the disk, and what it keeps. */
module TreeFree {
  import opened Blocks
  import opened Index
  import opened TreeLayout
  import opened FreeList
  import opened TreeFS

  // ----- The recursion of recursive_free_file -----

  /** Freeing the tree below block b at height h: children first. */
  ghost function FreeTreeOp(super: Block, d: seq<Block>, b: Word, h: nat): (st: Store)
    requires R >= 2 && |d| >= 1
    ensures st.On? ==> |st.d| == |d|
    decreases h, 0
  {
    if h == 0 then FreeOp(super, d, b)
    else if b >= |d| then Panic
    else
      match FreeRefsOp(super, d, d[b], 0, h - 1)
      case Panic => Panic
      case On(super1, d1) => FreeOp(super1, d1, b)
  }

  /** Freeing the trees that slots i.. of an indirect block refer to, at height h. */
  ghost function FreeRefsOp(super: Block, d: seq<Block>, ib: Block, i: nat, h: nat): (st: Store)
    requires R >= 2 && |d| >= 1
    ensures st.On? ==> |st.d| == |d|
    decreases h, 1, R - i
  {
    if i >= R then On(super, d)
    else if ib[i] == 0 then FreeRefsOp(super, d, ib, i + 1, h)
    else
      match FreeTreeOp(super, d, ib[i], h)
      case Panic => Panic
      case On(super1, d1) => FreeRefsOp(super1, d1, ib, i + 1, h)
  }

  // ----- Which blocks are freed -----

  /** The blocks of the tree of inode ino below node (H, I). */
  ghost function TreeSet(owner: seq<Owner>, ino: nat, H: nat, I: nat): set<nat> {
    set c: nat | c < |owner| && IsNode(owner[c], ino) && Under(owner[c].h, owner[c].x, H, I)
  }

  /** Those below children i.. of node (h + 1, x). */
  ghost function RefsSet(owner: seq<Owner>, ino: nat, h: nat, x: nat, i: nat): set<nat> {
    set c: nat | c < |owner| && IsNode(owner[c], ino) && owner[c].h <= h
                 && Parent(Up(owner[c].x, h - owner[c].h)) == x && Slot(Up(owner[c].x, h - owner[c].h)) >= i
  }

  /** Exactly the blocks in s were freed, and zeroed but for free list links; the others keep
      owner and contents, but for the superblock and the free list. */
  ghost predicate Freed(d: seq<Block>, owner: seq<Owner>, s: set<nat>, d': seq<Block>, owner': seq<Owner>) {
    && |d'| == |d| == |owner| == |owner'| && |d| >= 1 && d'[0][0] == d[0][0]
    && (forall c: nat {:trigger c in s} :: c < |d| && c in s ==>
          IsFree(owner'[c]) && (owner'[c].FreeSlot? ==> d'[c] == NullBlock()))
    && (forall c: nat {:trigger c in s} :: c < |d| && c !in s ==>
          owner'[c] == owner[c] && (owner[c] != Super && !owner[c].FreeList? ==> d'[c] == d[c]))
  }

  /** The outcome of freeing the blocks in s. */
  ghost predicate FreeDone(d: seq<Block>, owner: seq<Owner>, s: set<nat>, st: Store, owner': seq<Owner>, ch': seq<nat>) {
    && st.On? && |st.d| == |d| == |owner'| && |d| >= 1 && st.super == st.d[0]
    && FreeInv(st.d, owner', ch') && Freed(d, owner, s, st.d, owner')
  }

  lemma FreedTrans(d: seq<Block>, o: seq<Owner>, s: set<nat>, d1: seq<Block>, o1: seq<Owner>, s1: set<nat>,
                   d2: seq<Block>, o2: seq<Owner>)
    requires Freed(d, o, s, d1, o1) && Freed(d1, o1, s1, d2, o2) && s !! s1
    ensures Freed(d, o, s + s1, d2, o2)
  {}

  // ----- Children -----

  lemma {:induction false} ChildNodeAt(d: seq<Block>, b: nat, h: nat, x: nat, j: nat, h2: nat, x2: nat)
    requires 0 < b < |d| && j < R
    ensures NodeAt(d, d[b][j], h, Child(x, j), h2, x2)
         == if Under(h2, x2, h, Child(x, j)) then NodeAt(d, b, h + 1, x, h2, x2) else 0
    decreases h - h2
  {
    if h2 == h {
      assert NodeAt(d, b, h + 1, x, h + 1, Parent(x2)) == if Parent(x2) == x then b else 0;
    } else if h2 < h {
      ChildNodeAt(d, b, h, x, j, h2 + 1, Parent(x2));
    }
  }

  lemma UnderChild(h2: nat, x2: nat, h: nat, x: nat, j: nat)
    requires j < R && Under(h2, x2, h, Child(x, j))
    ensures Under(h2, x2, h + 1, x)
  {
    UpStep(x2, h - h2);
  }

  lemma OwnsChild(d: seq<Block>, owner: seq<Owner>, ino: nat, b: nat, h: nat, x: nat, j: nat)
    requires |owner| == |d| && Owns(d, owner, ino, b, h + 1, x) && 0 < b < |d| && j < R
    ensures Owns(d, owner, ino, d[b][j], h, Child(x, j))
  {
    forall h2: nat, x2: nat
      ensures NodeAt(d, d[b][j], h, Child(x, j), h2, x2)
           == if Under(h2, x2, h, Child(x, j)) then NodeAt(d, b, h + 1, x, h2, x2) else 0
    {
      ChildNodeAt(d, b, h, x, j, h2, x2);
    }
    forall c | 0 <= c < |owner| && IsNode(owner[c], ino) && Under(owner[c].h, owner[c].x, h, Child(x, j))
      ensures c != 0 && NodeAt(d, d[b][j], h, Child(x, j), owner[c].h, owner[c].x) == c
    {
      UnderChild(owner[c].h, owner[c].x, h, x, j);
    }
  }

  /** The tree below a node is the node and the trees below its children. */
  lemma TreeIsRefs(owner: seq<Owner>, ino: nat, h: nat, x: nat, b: nat)
    requires b < |owner| && owner[b] == Node(ino, h + 1, x)
    requires forall c: nat :: c < |owner| && owner[c] == Node(ino, h + 1, x) ==> c == b
    ensures TreeSet(owner, ino, h + 1, x) == RefsSet(owner, ino, h, x, 0) + {b}
    ensures b !in RefsSet(owner, ino, h, x, 0)
  {
    forall c: nat | c < |owner| && IsNode(owner[c], ino) && owner[c].h <= h
      ensures Up(owner[c].x, h + 1 - owner[c].h) == Parent(Up(owner[c].x, h - owner[c].h))
    {
      UpStep(owner[c].x, h - owner[c].h);
    }
  }

  lemma RefsSplit(owner: seq<Owner>, ino: nat, h: nat, x: nat, i: nat)
    requires i < R
    ensures RefsSet(owner, ino, h, x, i) == TreeSet(owner, ino, h, Child(x, i)) + RefsSet(owner, ino, h, x, i + 1)
    ensures TreeSet(owner, ino, h, Child(x, i)) !! RefsSet(owner, ino, h, x, i + 1)
  {
    forall c: nat | c in RefsSet(owner, ino, h, x, i) && Slot(Up(owner[c].x, h - owner[c].h)) == i
      ensures Up(owner[c].x, h - owner[c].h) == Child(x, i)
    {
      ChildOf(Up(owner[c].x, h - owner[c].h));
    }
  }

  lemma HoleHasNoNodes(d: seq<Block>, owner: seq<Owner>, ino: nat, H: nat, I: nat)
    requires |owner| == |d| && Owns(d, owner, ino, 0, H, I)
    ensures TreeSet(owner, ino, H, I) == {}
  {
    forall c: nat | c in TreeSet(owner, ino, H, I) ensures false {
      HoleNodeAt(d, H, I, owner[c].h, owner[c].x);
    }
  }

  lemma {:induction false} HoleNodeAt(d: seq<Block>, H: nat, I: nat, h: nat, x: nat)
    ensures NodeAt(d, 0, H, I, h, x) == 0
    decreases H - h
  {
    if h < H { HoleNodeAt(d, H, I, h + 1, Parent(x)); }
  }

  // ----- What freeing keeps -----

  /** The children i.. of a node are still whole. */
  ghost predicate OwnsRefs(d: seq<Block>, owner: seq<Owner>, ino: nat, ib: Block, i: nat, h: nat, x: nat)
    requires |owner| == |d|
    decreases R - i
  {
    i < R ==> Owns(d, owner, ino, ib[i], h, Child(x, i)) && OwnsRefs(d, owner, ino, ib, i + 1, h, x)
  }

  lemma OwnsAfterFree(d: seq<Block>, owner: seq<Owner>, s: set<nat>, d': seq<Block>, owner': seq<Owner>,
                      ino: nat, root: nat, H: nat, I: nat)
    requires Freed(d, owner, s, d', owner') && Owns(d, owner, ino, root, H, I)
    requires s !! TreeSet(owner, ino, H, I)
    ensures Owns(d', owner', ino, root, H, I)
  {
    forall c | 0 <= c < |d|
      ensures IsNode(owner[c], ino) && Under(owner[c].h, owner[c].x, H, I) ==> owner'[c] == owner[c] && d'[c] == d[c]
      ensures IsNode(owner'[c], ino) ==> owner'[c] == owner[c]
    {
      assert IsNode(owner[c], ino) && Under(owner[c].h, owner[c].x, H, I) ==> c in TreeSet(owner, ino, H, I);
      assert c in s || c !in s;
    }
    OwnsFrame(d, d', owner, owner', ino, root, H, I);
  }

  /** Freed blocks are not nodes any more; the rest of the tree is as it was. */
  lemma {:induction false} RefsAfterFree(d: seq<Block>, owner: seq<Owner>, s: set<nat>, d': seq<Block>, owner': seq<Owner>,
                                         ino: nat, ib: Block, i: nat, k: nat, h: nat, x: nat)
    requires i < k && i < R && Freed(d, owner, s, d', owner') && OwnsRefs(d, owner, ino, ib, k, h, x)
    requires s == TreeSet(owner, ino, h, Child(x, i))
    ensures OwnsRefs(d', owner', ino, ib, k, h, x)
    decreases R - k
  {
    if k < R {
      OwnsAfterFree(d, owner, s, d', owner', ino, ib[k], h, Child(x, k));
      RefsAfterFree(d, owner, s, d', owner', ino, ib, i, k + 1, h, x);
    }
  }

  lemma RefsSetAfterFree(d: seq<Block>, owner: seq<Owner>, s: set<nat>, d': seq<Block>, owner': seq<Owner>,
                         ino: nat, i: nat, h: nat, x: nat)
    requires Freed(d, owner, s, d', owner') && s !! RefsSet(owner, ino, h, x, i)
    ensures RefsSet(owner', ino, h, x, i) == RefsSet(owner, ino, h, x, i)
  {
    forall c: nat | c < |owner| ensures c in RefsSet(owner', ino, h, x, i) <==> c in RefsSet(owner, ino, h, x, i) {
      assert c in s ==> IsFree(owner'[c]);
      assert c !in s ==> owner'[c] == owner[c];
    }
  }

  lemma FreedOne(d: seq<Block>, owner: seq<Owner>, t: nat, st: Store, o: Owner, ch': seq<nat>)
    requires |owner| == |d| && t < |d| && FreeOk(d, owner, t, st, o, ch')
    ensures Freed(d, owner, {t}, st.d, owner[t := o])
  {}

  /** Freeing a tree frees each of its blocks once and nothing else. */
  lemma {:induction false} FreeTreeKeeps(d: seq<Block>, owner: seq<Owner>, ch: seq<nat>, ino: nat, b: Word, h: nat, x: nat, st: Store)
      returns (owner': seq<Owner>, ch': seq<nat>)
    requires |owner| == |d| >= 1 && R >= 2
    requires FreeInv(d, owner, ch) && Owns(d, owner, ino, b, h, x) && b != 0
    requires st == FreeTreeOp(d[0], d, b, h)
    ensures FreeDone(d, owner, TreeSet(owner, ino, h, x), st, owner', ch')
    decreases h, 0
  {
    hide FreeOp, FreeInv, Freed, TreeSet, RefsSet, Owns;
    TopInRange(d, owner, ino, b, h, x);
    if h == 0 {
      owner', ch' := FreeLeaf(d, owner, ch, ino, b, x, st);
    } else {
      OwnsChildren(d, owner, ino, b, 0, h - 1, x);
      var st1 := FreeRefsOp(d[0], d, d[b], 0, h - 1);
      var owner1, ch1 := FreeRefsKeeps(d, owner, ch, ino, d[b], 0, h - 1, x, st1);
      owner', ch' := FreeTop(d, owner, ino, b, h - 1, x, st1, owner1, ch1, st);
    }
  }

  lemma FreeLeaf(d: seq<Block>, owner: seq<Owner>, ch: seq<nat>, ino: nat, b: Word, x: nat, st: Store)
      returns (owner': seq<Owner>, ch': seq<nat>)
    requires FreeInv(d, owner, ch) && Owns(d, owner, ino, b, 0, x) && b != 0
    requires st == FreeOp(d[0], d, b)
    ensures FreeDone(d, owner, TreeSet(owner, ino, 0, x), st, owner', ch')
  {
    TopNode(d, owner, ino, b, 0, x);
    var o;
    o, ch' := FreeKeeps(d, owner, ch, b);
    FreedOne(d, owner, b, st, o, ch');
    owner' := owner[b := o];
    LeafTree(owner, ino, x, b);
  }

  lemma {:induction false} OwnsChildren(d: seq<Block>, owner: seq<Owner>, ino: nat, b: nat, i: nat, h: nat, x: nat)
    requires |owner| == |d| && Owns(d, owner, ino, b, h + 1, x) && 0 < b < |d|
    ensures OwnsRefs(d, owner, ino, d[b], i, h, x)
    decreases R - i
  {
    if i < R {
      OwnsChild(d, owner, ino, b, h, x, i);
      OwnsChildren(d, owner, ino, b, i + 1, h, x);
    }
  }

  /** The top of the tree, once its children are gone. */
  lemma FreeTop(d: seq<Block>, owner: seq<Owner>, ino: nat, b: Word, h: nat, x: nat,
                st1: Store, owner1: seq<Owner>, ch1: seq<nat>, st: Store)
      returns (owner': seq<Owner>, ch': seq<nat>)
    requires |d| == |owner| && Owns(d, owner, ino, b, h + 1, x) && b != 0
    requires FreeDone(d, owner, RefsSet(owner, ino, h, x, 0), st1, owner1, ch1)
    requires st == FreeOp(st1.super, st1.d, b)
    ensures FreeDone(d, owner, TreeSet(owner, ino, h + 1, x), st, owner', ch')
  {
    TopNode(d, owner, ino, b, h + 1, x);
    TreeIsRefs(owner, ino, h, x, b);
    var d1 := st1.d;
    var o;
    o, ch' := FreeKeeps(d1, owner1, ch1, b);
    FreedOne(d1, owner1, b, st, o, ch');
    owner' := owner1[b := o];
    FreedTrans(d, owner, RefsSet(owner, ino, h, x, 0), d1, owner1, {b}, st.d, owner');
  }

  lemma TopInRange(d: seq<Block>, owner: seq<Owner>, ino: nat, b: nat, h: nat, x: nat)
    requires |owner| == |d| && Owns(d, owner, ino, b, h, x) && b != 0
    ensures b < |d|
  {
    TopNode(d, owner, ino, b, h, x);
  }

  lemma TopNode(d: seq<Block>, owner: seq<Owner>, ino: nat, b: nat, h: nat, x: nat)
    requires |owner| == |d| && Owns(d, owner, ino, b, h, x) && b != 0
    ensures b < |d| && owner[b] == Node(ino, h, x)
    ensures forall c: nat :: c < |owner| && owner[c] == Node(ino, h, x) ==> c == b
  {
    assert NodeAt(d, b, h, x, h, x) == b;
    forall c: nat | c < |owner| && owner[c] == Node(ino, h, x) ensures c == b {
      assert IsNode(owner[c], ino) && Under(h, x, h, x);
    }
  }

  lemma LeafTree(owner: seq<Owner>, ino: nat, x: nat, b: nat)
    requires b < |owner| && owner[b] == Node(ino, 0, x)
    requires forall c: nat :: c < |owner| && owner[c] == Node(ino, 0, x) ==> c == b
    ensures TreeSet(owner, ino, 0, x) == {b}
  {}

  lemma FreeNothing(d: seq<Block>, owner: seq<Owner>, ch: seq<nat>, ino: nat, h: nat, x: nat)
    requires FreeInv(d, owner, ch)
    ensures FreeDone(d, owner, RefsSet(owner, ino, h, x, R), On(d[0], d), owner, ch)
  {
    assert RefsSet(owner, ino, h, x, R) == {};
  }

  lemma {:induction false} FreeRefsKeeps(d: seq<Block>, owner: seq<Owner>, ch: seq<nat>, ino: nat, ib: Block, i: nat, h: nat, x: nat, st: Store)
      returns (owner': seq<Owner>, ch': seq<nat>)
    requires |owner| == |d| >= 1 && R >= 2
    requires FreeInv(d, owner, ch) && i <= R && OwnsRefs(d, owner, ino, ib, i, h, x)
    requires st == FreeRefsOp(d[0], d, ib, i, h)
    ensures FreeDone(d, owner, RefsSet(owner, ino, h, x, i), st, owner', ch')
    decreases h, 1, R - i
  {
    hide FreeOp, FreeInv, Owns, Freed, TreeSet, RefsSet;
    if i == R {
      FreeNothing(d, owner, ch, ino, h, x);
      owner', ch' := owner, ch;
    } else {
      RefsSplit(owner, ino, h, x, i);
      if ib[i] == 0 {
        HoleHasNoNodes(d, owner, ino, h, Child(x, i));
        assert RefsSet(owner, ino, h, x, i) == RefsSet(owner, ino, h, x, i + 1);
        owner', ch' := FreeRefsKeeps(d, owner, ch, ino, ib, i + 1, h, x, st);
      } else {
        var st1 := FreeTreeOp(d[0], d, ib[i], h);
        var s := TreeSet(owner, ino, h, Child(x, i));
        var owner1, ch1 := FreeTreeKeeps(d, owner, ch, ino, ib[i], h, Child(x, i), st1);
        RefsAfterFree(d, owner, s, st1.d, owner1, ino, ib, i, i + 1, h, x);
        RefsSetAfterFree(d, owner, s, st1.d, owner1, ino, i + 1, h, x);
        owner', ch' := FreeRefsKeeps(st1.d, owner1, ch1, ino, ib, i + 1, h, x, st);
        FreedTrans(d, owner, s, st1.d, owner1, RefsSet(owner, ino, h, x, i + 1), st.d, owner');
      }
    }
  }

  // ----- Truncation -----

  ghost function NodesOf(owner: seq<Owner>, ino: nat): set<nat> {
    set c: nat | c < |owner| && IsNode(owner[c], ino)
  }

  /** The disk v is the valid disk d with file ino empty: exactly its nodes were freed, and
      what they held is zeroed, but for free list links. */
  ghost predicate Truncated(d: seq<Block>, owner: seq<Owner>, ino: nat, v: seq<Block>, owner': seq<Owner>, ch': seq<nat>)
    requires |d| >= 1 && 1 + d[0][0] <= |d| && ino < NInodes(d)
  {
    && Inv(v, owner', ch') && |v| == |d|
    && |Files(v)| == |Files(d)| && Files(v) == Files(d)[ino := []]
    && FreeSet(owner') == FreeSet(owner) + NodesOf(owner, ino)
    && Zeroed(v, owner', NodesOf(owner, ino))
  }

  /** Every block in s is zero, unless it holds free list links. */
  ghost predicate Zeroed(d: seq<Block>, owner: seq<Owner>, s: set<nat>) {
    && |owner| == |d|
    && forall c :: c in s ==> c < |d| && (owner[c].FreeSlot? ==> d[c] == NullBlock())
  }

  /** The tree is gone, the inode is not yet rewritten. */
  lemma MidFreed(d: seq<Block>, owner: seq<Owner>, ch: seq<nat>, ino: nat, d': seq<Block>, owner': seq<Owner>, ch': seq<nat>)
    requires Inv(d, owner, ch) && ino < NInodes(d) && FreeInv(d', owner', ch')
    requires Freed(d, owner, NodesOf(owner, ino), d', owner')
    ensures Mid(d', owner', ch', ino, 0, 0, 0, 0) && OthersSame(d, d', ino)
    ensures InodeBlockNo(ino) < |d| && d'[InodeBlockNo(ino)] == d[InodeBlockNo(ino)]
    ensures FreeSet(owner') == FreeSet(owner) + NodesOf(owner, ino)
  {
    hide ChainOk, SlotsOk, File;
    var s := NodesOf(owner, ino);
    forall c: nat | c < |d|
      ensures c in s <==> IsNode(owner[c], ino)
      ensures owner'[c] != Taken && !IsNode(owner'[c], ino)
      ensures owner[c].Node? && owner[c].ino != ino ==> owner'[c] == owner[c] && d'[c] == d[c]
      ensures owner'[c].Node? && owner'[c].ino != ino ==> owner'[c] == owner[c]
      ensures owner[c] == Inodes ==> d'[c] == d[c]
      ensures c in FreeSet(owner') <==> c in FreeSet(owner) || c in s
    {
      assert c in s || c !in s;
    }
    InodesKept(d, d', owner);
    OthersFrame(d, d', owner, owner', ino);
    forall h: nat, x: nat ensures NodeAt(d', 0, 0, 0, h, x) == 0 {}
  }

  lemma AllUnderRoot(d: seq<Block>, owner: seq<Owner>, ino: nat, root: nat, n: nat, last: nat)
    requires |owner| == |d| && FileInv(d, owner, ino, root, n, last)
    ensures TreeSet(owner, ino, n, 0) == NodesOf(owner, ino)
  {}

  /** The inode block with root and size zeroed. */
  ghost function EmptyInode(ib: Block, ino: nat): Block {
    ib[InodeWord(ino) + 1 := 0][InodeWord(ino) := 0]
  }

  /** treedisk_free_file followed by the rewriting of the inode. */
  lemma TruncateKeeps(d: seq<Block>, owner: seq<Owner>, ch: seq<nat>, ino: nat, st: Store)
      returns (owner': seq<Owner>, ch': seq<nat>)
    requires Inv(d, owner, ch) && ino < NInodes(d) && InodeBlockNo(ino) < |d| && NBlocks(d, ino) != 0
    requires st == FreeTreeOp(d[0], d, Root(d, ino), Height(d, ino))
    ensures st.On? && |st.d| == |d|
    ensures Truncated(d, owner, ino, st.d[InodeBlockNo(ino) := EmptyInode(d[InodeBlockNo(ino)], ino)], owner', ch')
  {
    hide FreeOp, FreeTreeOp;
    FilesAt(d, owner, ch, ino);
    owner', ch' := FreeTreeKeeps(d, owner, ch, ino, Root(d, ino), Height(d, ino), 0, st);
    AllUnderRoot(d, owner, ino, Root(d, ino), Height(d, ino), Last(NBlocks(d, ino)));
    TruncateEnd(d, owner, ch, ino, st.d, owner', ch');
  }

  lemma TruncateEnd(d: seq<Block>, owner: seq<Owner>, ch: seq<nat>, ino: nat, d1: seq<Block>, owner': seq<Owner>, ch': seq<nat>)
    requires Inv(d, owner, ch) && ino < NInodes(d) && FreeInv(d1, owner', ch') && InodeBlockNo(ino) < |d|
    requires Freed(d, owner, NodesOf(owner, ino), d1, owner')
    ensures Truncated(d, owner, ino, d1[InodeBlockNo(ino) := EmptyInode(d[InodeBlockNo(ino)], ino)], owner', ch')
  {
    MidFreed(d, owner, ch, ino, d1, owner', ch');
    MidInode(d1, owner', ch', ino, 0, 0, 0, 0, 0, 0);
    InodeWritten(d1, ino, 0, 0, ino);
    var v := WithInode(d1, ino, 0, 0);
    var ib, w := d[InodeBlockNo(ino)], InodeWord(ino);
    assert ib[w := 0][w + 1 := 0] == EmptyInode(ib, ino);
    assert v == d1[InodeBlockNo(ino) := EmptyInode(d[InodeBlockNo(ino)], ino)];
    MidEnd(v, owner', ch', ino, 0, 0, 0);
    OthersTrans(d, d1, v, ino);
    FilesEmptied(d, v, ino);
    InodeBlockIsInodes(d, owner, ino);
    assert Zeroed(d1, owner', NodesOf(owner, ino));
  }

  lemma InodeBlockIsInodes(d: seq<Block>, owner: seq<Owner>, ino: nat)
    requires Layout(d, owner) && ino < NInodes(d)
    ensures InodeBlockNo(ino) < |d| && owner[InodeBlockNo(ino)] == Inodes
  {
    InodeBlockInRange(d[0][0], ino);
  }

  lemma FilesEmptied(d: seq<Block>, v: seq<Block>, ino: nat)
    requires |d| >= 1 && 1 + d[0][0] <= |d| && ino < NInodes(d) && OthersSame(d, v, ino)
    requires InodeBlockNo(ino) < |v| && NBlocks(v, ino) == 0
    ensures |Files(v)| == |Files(d)| && Files(v) == Files(d)[ino := []]
  {
    forall k: nat | k < NInodes(d) && k != ino ensures Files(v)[k] == Files(d)[k] {
      InodeBlockInRange(d[0][0], k);
      assert File(v, k) == File(d, k);
    }
  }
}
