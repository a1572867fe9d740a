/** The layout of a tree file system on a flat block store, and who owns each block.

    A node of the tree of inode ino is named by its height h above the data (0 is data) and
    by its index x at that height: the data of offset o is node (0, o), and the node above
    (h, x) is (h + 1, Parent(x)), which refers to it in slot Slot(x). */
module TreeLayout {
  import opened Blocks
  import opened Index

  datatype Owner =
    | Super
    | Inodes
    | Node(ino: nat, h: nat, x: nat)
    | FreeList(j: nat)            // j-th block of the free list, counted from its end
    | FreeSlot(j: nat, i: nat)    // named in slot i of that block
    | Taken                       // off the free list and not yet linked anywhere

  predicate IsNode(o: Owner, ino: nat) {
    o.Node? && o.ino == ino
  }

  predicate IsFree(o: Owner) {
    o.FreeList? || o.FreeSlot?
  }

  // ----- Superblock and inodes -----

  /** The block that holds the inode: 1 + ino / IPB. */
  function InodeBlockNo(ino: nat): (b: nat)
    ensures b >= 1
  {
    RefsBounds();
    if ino < IPB then 1 else 1 + InodeBlockNo(ino - IPB)
  }

  /** The position of the inode in its block, 2 * (ino % IPB): the word of its root, followed
      by nblocks. */
  function InodeWord(ino: nat): (w: nat)
    ensures w + 1 < R
  {
    RefsBounds();
    if ino < IPB then 2 * ino else InodeWord(ino - IPB)
  }

  /** The inodes in n blocks: n * IPB. */
  function InodesIn(n: nat): nat {
    if n == 0 then 0 else IPB + InodesIn(n - 1)
  }

  lemma {:induction false} InodePosition(ino: nat)
    ensures IPB >= 1 && InodeBlockNo(ino) == 1 + ino / IPB && InodeWord(ino) == 2 * (ino % IPB)
  {
    RefsBounds();
    if ino < IPB {
      DivUnique(ino, IPB, 0, ino);
    } else {
      InodePosition(ino - IPB);
      DivStep(ino, IPB);
    }
  }

  lemma {:induction false} InodesInIsProduct(n: nat)
    ensures InodesIn(n) == n * IPB
  {
    if n > 0 {
      InodesInIsProduct(n - 1);
      assert n * IPB == (n - 1) * IPB + IPB;
    }
  }

  function NInodes(d: seq<Block>): nat
    requires |d| >= 1
  {
    InodesIn(d[0][0])
  }

  function Root(d: seq<Block>, ino: nat): Word
    requires InodeBlockNo(ino) < |d|
  {
    d[InodeBlockNo(ino)][InodeWord(ino)]
  }

  function NBlocks(d: seq<Block>, ino: nat): Word
    requires InodeBlockNo(ino) < |d|
  {
    d[InodeBlockNo(ino)][InodeWord(ino) + 1]
  }

  /** The last offset of a file of n blocks. */
  function Last(n: nat): nat {
    if n == 0 then 0 else n - 1
  }

  lemma {:induction false} InodeBlockInRange(n: nat, ino: nat)
    requires ino < InodesIn(n)
    ensures InodeBlockNo(ino) <= n
  {
    if ino >= IPB { InodeBlockInRange(n - 1, ino - IPB); }
  }

  lemma {:induction false} InodesApart(a: nat, b: nat)
    requires a != b
    ensures InodeBlockNo(a) != InodeBlockNo(b) || InodeWord(a) != InodeWord(b)
    ensures InodeWord(a) != InodeWord(b) + 1
    decreases a + b
  {
    RefsBounds();
    WordsAreEven(a);
    WordsAreEven(b);
    if a >= IPB && b >= IPB { InodesApart(a - IPB, b - IPB); }
  }

  lemma {:induction false} WordsAreEven(ino: nat)
    ensures InodeWord(ino) % 2 == 0
  {
    RefsBounds();
    if ino >= IPB { WordsAreEven(ino - IPB); }
  }

  // ----- Trees -----

  /** The block that holds node (h, x) of the tree whose top node (H, I) is block root;
      0 for a hole. */
  ghost function NodeAt(d: seq<Block>, root: nat, H: nat, I: nat, h: nat, x: nat): nat
    decreases H - h
  {
    if h >= H then
      if h == H && x == I then root else 0
    else
      RefAt(d, NodeAt(d, root, H, I, h + 1, Parent(x)), Slot(x))
  }

  /** The reference in slot i of block p. */
  ghost function RefAt(d: seq<Block>, p: nat, i: nat): nat
    requires i < R
  {
    if p == 0 || p >= |d| then 0 else d[p][i]
  }

  /** Node (h, x) is in the tree below node (H, I). */
  ghost predicate Under(h: nat, x: nat, H: nat, I: nat) {
    h <= H && Up(x, H - h) == I
  }

  /** The owners of the blocks of a tree of inode ino agree with the references on disk:
      a block in the tree is owned by the node it holds, and a block owned by a node of the
      tree is where the path to that node leads. */
  ghost predicate Owns(d: seq<Block>, owner: seq<Owner>, ino: nat, root: nat, H: nat, I: nat)
    requires |owner| == |d|
  {
    && (forall h: nat, x: nat :: NodeAt(d, root, H, I, h, x) != 0 ==>
          && NodeAt(d, root, H, I, h, x) < |d|
          && owner[NodeAt(d, root, H, I, h, x)] == Node(ino, h, x))
    && (forall c {:trigger IsNode(owner[c], ino)} :: 0 <= c < |owner| && IsNode(owner[c], ino) && Under(owner[c].h, owner[c].x, H, I) ==>
          c != 0 && NodeAt(d, root, H, I, owner[c].h, owner[c].x) == c)
  }

  /** A file: all its nodes are in the tree of height n, and none lies beyond offset last. */
  ghost predicate FileInv(d: seq<Block>, owner: seq<Owner>, ino: nat, root: nat, n: nat, last: nat)
    requires |owner| == |d|
  {
    && Owns(d, owner, ino, root, n, 0)
    && (forall c {:trigger IsNode(owner[c], ino)} :: 0 <= c < |owner| && IsNode(owner[c], ino) ==>
          Under(owner[c].h, owner[c].x, n, 0) && owner[c].x <= Up(last, owner[c].h))
  }

  /** The contents of offset o: a hole reads as zeros. */
  ghost function DataAt(d: seq<Block>, root: nat, n: nat, o: nat): Block {
    Contents(d, NodeAt(d, root, n, 0, 0, o))
  }

  ghost function Contents(d: seq<Block>, b: nat): Block {
    if b == 0 || b >= |d| then NullBlock() else d[b]
  }

  lemma {:induction false} NodeIsUnder(d: seq<Block>, root: nat, H: nat, I: nat, h: nat, x: nat)
    requires NodeAt(d, root, H, I, h, x) != 0
    ensures Under(h, x, H, I)
    decreases H - h
  {
    if h < H {
      NodeIsUnder(d, root, H, I, h + 1, Parent(x));
    }
  }

  /** The two disks agree on every node of inode ino in the tree below (H, I). */
  ghost predicate SameNodes(d: seq<Block>, d': seq<Block>, owner: seq<Owner>, owner': seq<Owner>,
                            ino: nat, H: nat, I: nat)
    requires |d| == |d'| == |owner| == |owner'|
  {
    forall c :: 0 <= c < |d| ==>
      (IsNode(owner[c], ino) && Under(owner[c].h, owner[c].x, H, I) ==> owner'[c] == owner[c] && d'[c] == d[c]) &&
      (IsNode(owner'[c], ino) && Under(owner'[c].h, owner'[c].x, H, I) ==> owner'[c] == owner[c])
  }

  lemma {:induction false} NodeAtFrame(d: seq<Block>, d': seq<Block>, owner: seq<Owner>, owner': seq<Owner>,
                                       ino: nat, root: nat, H: nat, I: nat, h: nat, x: nat)
    requires |d| == |d'| == |owner| == |owner'|
    requires Owns(d, owner, ino, root, H, I) && SameNodes(d, d', owner, owner', ino, H, I)
    ensures NodeAt(d', root, H, I, h, x) == NodeAt(d, root, H, I, h, x)
    decreases H - h
  {
    if h < H {
      NodeAtFrame(d, d', owner, owner', ino, root, H, I, h + 1, Parent(x));
      var p := NodeAt(d, root, H, I, h + 1, Parent(x));
      if p != 0 {
        NodeIsUnder(d, root, H, I, h + 1, Parent(x));
        assert owner[p] == Node(ino, h + 1, Parent(x));
      }
    }
  }

  lemma OwnsFrame(d: seq<Block>, d': seq<Block>, owner: seq<Owner>, owner': seq<Owner>,
                  ino: nat, root: nat, H: nat, I: nat)
    requires |d| == |d'| == |owner| == |owner'|
    requires Owns(d, owner, ino, root, H, I) && SameNodes(d, d', owner, owner', ino, H, I)
    ensures Owns(d', owner', ino, root, H, I)
    ensures forall h: nat, x: nat :: NodeAt(d', root, H, I, h, x) == NodeAt(d, root, H, I, h, x)
  {
    forall h: nat, x: nat
      ensures NodeAt(d', root, H, I, h, x) == NodeAt(d, root, H, I, h, x)
      ensures NodeAt(d, root, H, I, h, x) != 0 ==> Under(h, x, H, I)
    {
      NodeAtFrame(d, d', owner, owner', ino, root, H, I, h, x);
      if NodeAt(d, root, H, I, h, x) != 0 { NodeIsUnder(d, root, H, I, h, x); }
    }
  }

  /** No block of the file changed hands or contents. */
  ghost predicate Untouched(d: seq<Block>, d': seq<Block>, owner: seq<Owner>, owner': seq<Owner>, ino: nat)
    requires |d| == |d'| == |owner| == |owner'|
  {
    forall c :: 0 <= c < |d| && (IsNode(owner[c], ino) || IsNode(owner'[c], ino)) ==>
      owner'[c] == owner[c] && d'[c] == d[c]
  }

  lemma FileFrame(d: seq<Block>, d': seq<Block>, owner: seq<Owner>, owner': seq<Owner>,
                  ino: nat, root: nat, n: nat, last: nat)
    requires |d| == |d'| == |owner| == |owner'|
    requires FileInv(d, owner, ino, root, n, last) && Untouched(d, d', owner, owner', ino)
    ensures FileInv(d', owner', ino, root, n, last)
    ensures forall h: nat, x: nat :: NodeAt(d', root, n, 0, h, x) == NodeAt(d, root, n, 0, h, x)
    ensures forall o: nat :: DataAt(d', root, n, o) == DataAt(d, root, n, o)
  {
    OwnsFrame(d, d', owner, owner', ino, root, n, 0);
    forall o: nat ensures DataAt(d', root, n, o) == DataAt(d, root, n, o) {
      var b := NodeAt(d, root, n, 0, 0, o);
    }
  }

  lemma {:induction false} SlotsApart(x: nat, y: nat)
    requires x != y && Parent(x) == Parent(y)
    ensures Slot(x) != Slot(y)
  {
    RefsBounds();
    if x >= R && y >= R { SlotsApart(x - R, y - R); }
  }

  lemma SmallIndex(x: nat)
    ensures Parent(x) == 0 <==> x < R
    ensures x < R ==> Slot(x) == x
  {}

  /** The index of child j of a node with index x. */
  ghost function Child(x: nat, j: nat): (y: nat)
    requires j < R
    ensures Parent(y) == x && Slot(y) == j
  {
    if x == 0 then j else R + Child(x - 1, j)
  }

  lemma ChildOf(y: nat)
    ensures Child(Parent(y), Slot(y)) == y
  {
    var z := Child(Parent(y), Slot(y));
    if z != y { SlotsApart(y, z); }
  }

  // ----- Linking a new block -----

  /** Block f, which nobody owned, becomes node (h, x): the disk before with the reference
      in the parent p set, and with contents z in f. */
  ghost function Linked(d: seq<Block>, p: nat, slot: nat, f: Word, z: Block): seq<Block>
    requires p < |d| && f < |d| && slot < R
  {
    d[p := d[p][slot := f]][f := z]
  }

  ghost predicate CanLink(d: seq<Block>, owner: seq<Owner>, ino: nat, n: nat, h: nat, x: nat, p: nat, f: Word, z: Block)
    requires |owner| == |d|
  {
    && 0 < p < |d| && 0 < f < |d| && h < n
    && owner[p] == Node(ino, h + 1, Parent(x)) && owner[f] == Taken
    && d[p][Slot(x)] == 0
    && (h > 0 ==> z == NullBlock())
  }

  lemma {:induction false} LinkNodeAt(d: seq<Block>, owner: seq<Owner>, ino: nat, root: nat, n: nat,
                                      h: nat, x: nat, p: nat, f: Word, z: Block, h2: nat, x2: nat)
    requires |owner| == |d| && Owns(d, owner, ino, root, n, 0)
    requires CanLink(d, owner, ino, n, h, x, p, f, z) && Under(h, x, n, 0)
    ensures NodeAt(Linked(d, p, Slot(x), f, z), root, n, 0, h2, x2)
         == if h2 == h && x2 == x then f else NodeAt(d, root, n, 0, h2, x2)
    decreases n - h2
  {
    if h2 < n {
      LinkNodeAt(d, owner, ino, root, n, h, x, p, f, z, h2 + 1, Parent(x2));
      var q := NodeAt(d, root, n, 0, h2 + 1, Parent(x2));
      LinkRef(d, p, Slot(x), f, z, q, Slot(x2));
      if h2 == h && Parent(x2) == Parent(x) {
        OwnedNode(d, owner, ino, root, n, h + 1, Parent(x), p);
        if x2 != x { SlotsApart(x, x2); }
      } else if h2 + 1 == h && Parent(x2) == x {
        LinkWasHole(d, owner, ino, root, n, h, x, p, f, z);
        LinkRef(d, p, Slot(x), f, z, f, Slot(x2));
      } else {
        assert q == 0 || owner[q] == Node(ino, h2 + 1, Parent(x2));
      }
    }
  }

  /** What the references on disk are after linking. */
  lemma LinkRef(d: seq<Block>, p: nat, slot: nat, f: Word, z: Block, q: nat, i: nat)
    requires 0 < p < |d| && 0 < f < |d| && p != f && slot < R && i < R
    ensures q == f ==> RefAt(Linked(d, p, slot, f, z), q, i) == z[i]
    ensures q == p && i == slot ==> RefAt(Linked(d, p, slot, f, z), q, i) == f
    ensures q != f && (q != p || i != slot) ==> RefAt(Linked(d, p, slot, f, z), q, i) == RefAt(d, q, i)
  {}

  lemma LinkWasHole(d: seq<Block>, owner: seq<Owner>, ino: nat, root: nat, n: nat, h: nat, x: nat, p: nat, f: Word, z: Block)
    requires |owner| == |d| && Owns(d, owner, ino, root, n, 0)
    requires CanLink(d, owner, ino, n, h, x, p, f, z) && Under(h, x, n, 0)
    ensures NodeAt(d, root, n, 0, h, x) == 0
  {
    OwnedNode(d, owner, ino, root, n, h + 1, Parent(x), p);
  }

  /** The path to an owned node leads to its block. */
  lemma OwnedNode(d: seq<Block>, owner: seq<Owner>, ino: nat, root: nat, n: nat, h: nat, x: nat, c: nat)
    requires |owner| == |d| && Owns(d, owner, ino, root, n, 0)
    requires c < |d| && owner[c] == Node(ino, h, x) && Under(h, x, n, 0)
    ensures c != 0 && NodeAt(d, root, n, 0, h, x) == c
  {
    assert IsNode(owner[c], ino);
  }

  lemma LinkFile(d: seq<Block>, owner: seq<Owner>, ino: nat, root: nat, n: nat, last: nat,
                 h: nat, x: nat, p: nat, f: Word, z: Block)
    requires |owner| == |d| && FileInv(d, owner, ino, root, n, last)
    requires CanLink(d, owner, ino, n, h, x, p, f, z) && Under(h, x, n, 0) && x <= Up(last, h)
    ensures FileInv(Linked(d, p, Slot(x), f, z), owner[f := Node(ino, h, x)], ino, root, n, last)
    ensures forall h2: nat, x2: nat ::
      NodeAt(Linked(d, p, Slot(x), f, z), root, n, 0, h2, x2)
        == if h2 == h && x2 == x then f else NodeAt(d, root, n, 0, h2, x2)
  {
    var d', owner' := Linked(d, p, Slot(x), f, z), owner[f := Node(ino, h, x)];
    forall h2: nat, x2: nat
      ensures NodeAt(d', root, n, 0, h2, x2) == if h2 == h && x2 == x then f else NodeAt(d, root, n, 0, h2, x2)
    {
      LinkNodeAt(d, owner, ino, root, n, h, x, p, f, z, h2, x2);
    }
    LinkOwners(d, owner, ino, root, n, last, h, x, p, f, z);
  }

  lemma LinkOwners(d: seq<Block>, owner: seq<Owner>, ino: nat, root: nat, n: nat, last: nat,
                   h: nat, x: nat, p: nat, f: Word, z: Block)
    requires |owner| == |d| && FileInv(d, owner, ino, root, n, last)
    requires CanLink(d, owner, ino, n, h, x, p, f, z) && Under(h, x, n, 0) && x <= Up(last, h)
    requires forall h2: nat, x2: nat ::
      NodeAt(Linked(d, p, Slot(x), f, z), root, n, 0, h2, x2)
        == if h2 == h && x2 == x then f else NodeAt(d, root, n, 0, h2, x2)
    ensures FileInv(Linked(d, p, Slot(x), f, z), owner[f := Node(ino, h, x)], ino, root, n, last)
  {
    LinkWasHole(d, owner, ino, root, n, h, x, p, f, z);
    var d', owner' := Linked(d, p, Slot(x), f, z), owner[f := Node(ino, h, x)];
    forall c | 0 <= c < |owner'| && IsNode(owner'[c], ino)
      ensures Under(owner'[c].h, owner'[c].x, n, 0) && owner'[c].x <= Up(last, owner'[c].h)
      ensures c != 0 && NodeAt(d', root, n, 0, owner'[c].h, owner'[c].x) == c
    {
      if c != f { assert IsNode(owner[c], ino); }
    }
  }

  // ----- Growing: a new root above the old one -----

  ghost function NewRoot(root: Word): Block {
    RefsBounds();
    NullBlock()[0 := root]
  }

  lemma {:induction false} GrowNodeAt(d: seq<Block>, owner: seq<Owner>, ino: nat, root: Word, n: nat, f: Word, h: nat, x: nat)
    requires |owner| == |d| && Owns(d, owner, ino, root, n, 0)
    requires 0 < f < |d| && owner[f] == Taken
    ensures NodeAt(d[f := NewRoot(root)], f, n + 1, 0, h, x)
         == if h == n + 1 && x == 0 then f else NodeAt(d, root, n, 0, h, x)
    decreases n - h
  {
    var d' := d[f := NewRoot(root)];
    RefsBounds();
    if h == n {
      assert NodeAt(d', f, n + 1, 0, n + 1, Parent(x)) == if Parent(x) == 0 then f else 0;
      SmallIndex(x);
    } else if h < n {
      GrowNodeAt(d, owner, ino, root, n, f, h + 1, Parent(x));
    }
  }

  lemma GrowFile(d: seq<Block>, owner: seq<Owner>, ino: nat, root: Word, n: nat, last: nat, f: Word)
    requires |owner| == |d| && FileInv(d, owner, ino, root, n, last)
    requires 0 < f < |d| && owner[f] == Taken
    ensures FileInv(d[f := NewRoot(root)], owner[f := Node(ino, n + 1, 0)], ino, f, n + 1, last)
    ensures forall h: nat, x: nat ::
      NodeAt(d[f := NewRoot(root)], f, n + 1, 0, h, x)
        == if h == n + 1 && x == 0 then f else NodeAt(d, root, n, 0, h, x)
  {
    var d', owner' := d[f := NewRoot(root)], owner[f := Node(ino, n + 1, 0)];
    forall h: nat, x: nat
      ensures NodeAt(d', f, n + 1, 0, h, x) == if h == n + 1 && x == 0 then f else NodeAt(d, root, n, 0, h, x)
    {
      GrowNodeAt(d, owner, ino, root, n, f, h, x);
    }
    forall c | 0 <= c < |owner'| && IsNode(owner'[c], ino)
      ensures Under(owner'[c].h, owner'[c].x, n + 1, 0) && owner'[c].x <= Up(last, owner'[c].h)
      ensures c != 0 && NodeAt(d', f, n + 1, 0, owner'[c].h, owner'[c].x) == c
    {
      if c != f {
        UpStep(owner[c].x, n - owner[c].h);
        SmallIndex(0);
      }
    }
  }
}
