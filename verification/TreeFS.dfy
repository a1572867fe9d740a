/** A whole tree file system: what every operation keeps, what a file holds, and how the
    steps of treedisk_write and treedisk_setsize change both. */
module TreeFS {
  import opened Blocks
  import opened Index
  import opened TreeLayout
  import opened FreeList

  // ----- The invariant -----

  ghost predicate FileOk(d: seq<Block>, owner: seq<Owner>, ino: nat)
    requires |owner| == |d|
  {
    && InodeBlockNo(ino) < |d|
    && (Root(d, ino) == 0 <==> NBlocks(d, ino) == 0)
    && FileInv(d, owner, ino, Root(d, ino), Height(d, ino), Last(NBlocks(d, ino)))
  }

  ghost function Height(d: seq<Block>, ino: nat): nat
    requires InodeBlockNo(ino) < |d|
  {
    Levels(Last(NBlocks(d, ino)))
  }

  ghost predicate NoneTaken(owner: seq<Owner>) {
    forall c :: 0 <= c < |owner| ==> owner[c] != Taken
  }

  /** Every block of the disk is owned as its owner says. */
  ghost predicate Inv(d: seq<Block>, owner: seq<Owner>, chain: seq<nat>) {
    && FreeInv(d, owner, chain)
    && NoneTaken(owner)
    && (forall ino: nat :: ino < NInodes(d) ==> FileOk(d, owner, ino))
  }

  ghost predicate OthersOk(d: seq<Block>, owner: seq<Owner>, ino: nat)
    requires |owner| == |d| >= 1
  {
    forall k: nat :: k < NInodes(d) && k != ino ==> FileOk(d, owner, k)
  }

  // ----- What a file holds -----

  ghost function File(d: seq<Block>, ino: nat): (f: seq<Block>)
    requires InodeBlockNo(ino) < |d|
    ensures |f| == NBlocks(d, ino)
  {
    seq(NBlocks(d, ino), o requires 0 <= o => DataAt(d, Root(d, ino), Height(d, ino), o))
  }

  /** The contents of all the files. */
  ghost function Files(d: seq<Block>): (fs: seq<seq<Block>>)
    requires |d| >= 1 && 1 + d[0][0] <= |d|
    ensures |fs| == NInodes(d)
  {
    seq(NInodes(d), ino requires 0 <= ino < NInodes(d) => InodeBlockInRange(d[0][0], ino); File(d, ino))
  }

  /** f with zero blocks appended up to length n. */
  function Padded(f: seq<Block>, n: nat): (g: seq<Block>)
    ensures |g| == (if n > |f| then n else |f|)
    ensures forall o :: 0 <= o < |g| ==> g[o] == if o < |f| then f[o] else NullBlock()
  {
    if n > |f| then f + seq(n - |f|, i => NullBlock()) else f
  }

  /** A sparse array of blocks, after a write at offset o. */
  function WriteAt(f: seq<Block>, o: nat, b: Block): seq<Block> {
    Padded(f, o + 1)[o := b]
  }

  // ----- Each block has exactly one role -----

  /** What block c is for, read off the disk alone; chain is the free list from its end. */
  ghost predicate HasRole(d: seq<Block>, chain: seq<nat>, c: nat, role: Owner)
    requires |d| >= 1
  {
    match role
    case Super => c == 0
    case Inodes => 1 <= c <= d[0][0]
    case Node(ino, h, x) =>
      ino < NInodes(d) && InodeBlockNo(ino) < |d| && c != 0 &&
      NodeAt(d, Root(d, ino), Height(d, ino), 0, h, x) == c
    case FreeList(j) => j < |chain| && chain[j] == c
    case FreeSlot(j, i) => j < |chain| && 1 <= i < R && chain[j] < |d| && c != 0 && d[chain[j]][i] == c
    case Taken => false
  }

  /** chain is the free list that the superblock points to, from its end. */
  ghost predicate IsFreeChain(d: seq<Block>, chain: seq<nat>) {
    && |d| >= 1 && R >= 2
    && d[0][1] == (if chain == [] then 0 else chain[|chain| - 1])
    && forall j :: 0 <= j < |chain| ==>
         0 < chain[j] < |d| && d[chain[j]][0] == (if j == 0 then 0 else chain[j - 1])
  }

  /** No leak and no sharing: on a valid disk every block has exactly one role. */
  lemma ExactlyOneRole(d: seq<Block>, owner: seq<Owner>, chain: seq<nat>)
    requires Inv(d, owner, chain)
    ensures IsFreeChain(d, chain)
    ensures forall c: nat :: c < |d| ==> HasRole(d, chain, c, owner[c])
    ensures forall c: nat, role :: c < |d| && HasRole(d, chain, c, role) ==> role == owner[c]
  {
    forall c: nat | c < |d| ensures HasRole(d, chain, c, owner[c]) {
      if owner[c].Node? {
        assert FileOk(d, owner, owner[c].ino) && IsNode(owner[c], owner[c].ino);
      }
    }
    forall c: nat, role | c < |d| && HasRole(d, chain, c, role) ensures role == owner[c] {
      if role.Node? { assert FileOk(d, owner, role.ino); }
    }
  }

  /** In particular, a block is reached by one path of one file. */
  lemma OnePath(d: seq<Block>, owner: seq<Owner>, chain: seq<nat>, a: nat, h: nat, x: nat, b: nat, h': nat, x': nat)
    requires Inv(d, owner, chain) && a < NInodes(d) && b < NInodes(d)
    requires InodeBlockNo(a) < |d| && InodeBlockNo(b) < |d|
    requires var c := NodeAt(d, Root(d, a), Height(d, a), 0, h, x);
      c != 0 && c == NodeAt(d, Root(d, b), Height(d, b), 0, h', x')
    ensures a == b && h == h' && x == x'
  {
    assert FileOk(d, owner, a) && FileOk(d, owner, b);
  }

  // ----- Files that an operation on another file leaves alone -----

  ghost predicate SameInode(d: seq<Block>, d': seq<Block>, k: nat) {
    && |d| == |d'| && InodeBlockNo(k) < |d|
    && Root(d', k) == Root(d, k) && NBlocks(d', k) == NBlocks(d, k)
  }

  lemma FileOkFrame(d: seq<Block>, d': seq<Block>, owner: seq<Owner>, owner': seq<Owner>, k: nat)
    requires |d| == |d'| == |owner| == |owner'|
    requires FileOk(d, owner, k) && SameInode(d, d', k) && Untouched(d, d', owner, owner', k)
    ensures FileOk(d', owner', k) && File(d', k) == File(d, k)
  {
    FileFrame(d, d', owner, owner', k, Root(d, k), Height(d, k), Last(NBlocks(d, k)));
  }

  /** Everything but inode ino and its nodes is as before. */
  ghost predicate OthersAlone(d: seq<Block>, d': seq<Block>, owner: seq<Owner>, owner': seq<Owner>, ino: nat) {
    && |d| == |d'| == |owner| == |owner'| && |d| >= 1
    && d'[0][0] == d[0][0]
    && (forall k: nat :: k < NInodes(d) && k != ino ==> SameInode(d, d', k))
    && (forall c :: 0 <= c < |d| ==>
          (owner[c].Node? && owner[c].ino != ino ==> owner'[c] == owner[c] && d'[c] == d[c]) &&
          (owner'[c].Node? && owner'[c].ino != ino ==> owner'[c] == owner[c]))
  }

  /** The other files, as a caller sees them. */
  ghost predicate OthersSame(d: seq<Block>, d': seq<Block>, ino: nat) {
    && |d| == |d'| && |d| >= 1 && d'[0][0] == d[0][0]
    && forall k: nat :: k < NInodes(d) && k != ino ==> SameInode(d, d', k) && File(d', k) == File(d, k)
  }

  lemma OthersRefl(d: seq<Block>, ino: nat)
    requires |d| >= 1 && 1 + d[0][0] <= |d|
    ensures OthersSame(d, d, ino)
  {
    forall k: nat | k < NInodes(d) ensures InodeBlockNo(k) < |d| {
      InodeBlockInRange(d[0][0], k);
    }
  }

  lemma OthersTrans(d: seq<Block>, d1: seq<Block>, d2: seq<Block>, ino: nat)
    requires OthersSame(d, d1, ino) && OthersSame(d1, d2, ino)
    ensures OthersSame(d, d2, ino)
  {
    forall k: nat | k < NInodes(d) && k != ino
      ensures SameInode(d, d2, k) && File(d2, k) == File(d, k)
    {
      assert SameInode(d, d1, k) && File(d1, k) == File(d, k);
      assert SameInode(d1, d2, k) && File(d2, k) == File(d1, k);
    }
  }

  lemma OthersFrame(d: seq<Block>, d': seq<Block>, owner: seq<Owner>, owner': seq<Owner>, ino: nat)
    requires OthersAlone(d, d', owner, owner', ino) && OthersOk(d, owner, ino)
    ensures OthersOk(d', owner', ino) && OthersSame(d, d', ino)
  {
    forall k: nat | k < NInodes(d) && k != ino
      ensures FileOk(d', owner', k) && File(d', k) == File(d, k)
    {
      FileOkFrame(d, d', owner, owner', k);
    }
  }

  // ----- In the middle of an operation on inode ino -----

  /** The tree of ino is (root, n), whatever its inode block still says; no node of it lies
      beyond offset last.  Block f, if not 0, has been allocated and not been linked yet. */
  ghost predicate Mid(d: seq<Block>, owner: seq<Owner>, chain: seq<nat>, ino: nat, root: nat, n: nat, last: nat, f: nat) {
    && FreeInv(d, owner, chain)
    && ino < NInodes(d)
    && (forall c :: 0 <= c < |d| ==> (owner[c] == Taken <==> c == f != 0))
    && (f != 0 ==> f < |d|)
    && OthersOk(d, owner, ino)
    && FileInv(d, owner, ino, root, n, last)
  }

  /** The file of ino before, (d, root, n), and after, except at offset o. */
  ghost predicate DataSame(d: seq<Block>, root: nat, n: nat, d': seq<Block>, root': nat, n': nat, but: set<nat>) {
    forall o: nat :: o !in but ==> DataAt(d', root', n', o) == DataAt(d, root, n, o)
  }

  lemma MidStart(d: seq<Block>, owner: seq<Owner>, chain: seq<nat>, ino: nat)
    requires Inv(d, owner, chain) && ino < NInodes(d)
    ensures InodeBlockNo(ino) < |d|
    ensures Mid(d, owner, chain, ino, Root(d, ino), Height(d, ino), Last(NBlocks(d, ino)), 0)
  {
    assert FileOk(d, owner, ino);
  }

  lemma MidEnd(d: seq<Block>, owner: seq<Owner>, chain: seq<nat>, ino: nat, root: nat, n: nat, last: nat)
    requires Mid(d, owner, chain, ino, root, n, last, 0)
    requires InodeBlockNo(ino) < |d|
    requires root == Root(d, ino) && n == Height(d, ino) && last == Last(NBlocks(d, ino))
    requires root == 0 <==> NBlocks(d, ino) == 0
    ensures Inv(d, owner, chain)
  {}

  /** Raising the last offset of a file. */
  lemma MidExtend(d: seq<Block>, owner: seq<Owner>, chain: seq<nat>, ino: nat, root: nat, n: nat, last: nat, last': nat)
    requires Mid(d, owner, chain, ino, root, n, last, 0) && last <= last'
    ensures Mid(d, owner, chain, ino, root, n, last', 0)
  {
    forall c | 0 <= c < |owner| && IsNode(owner[c], ino)
      ensures owner[c].x <= Up(last', owner[c].h)
    {
      UpMonotone(last, last', owner[c].h);
    }
  }

  /** Allocating a block. */
  lemma MidAlloc(d: seq<Block>, d': seq<Block>, owner: seq<Owner>, chain: seq<nat>, chain': seq<nat>,
                 ino: nat, root: nat, n: nat, last: nat, f: nat)
    requires Mid(d, owner, chain, ino, root, n, last, 0)
    requires 0 < f < |d| && IsFree(owner[f])
    requires OnlyFreeChanged(d, d', owner) && FreeInv(d', owner[f := Taken], chain')
    ensures Mid(d', owner[f := Taken], chain', ino, root, n, last, f)
    ensures OthersSame(d, d', ino)
    ensures InodeBlockNo(ino) < |d| && d'[InodeBlockNo(ino)] == d[InodeBlockNo(ino)]
    ensures forall h: nat, x: nat :: NodeAt(d', root, n, 0, h, x) == NodeAt(d, root, n, 0, h, x)
    ensures DataSame(d, root, n, d', root, n, {})
  {
    hide FileInv, File, FileOk, ChainOk, SlotsOk;
    var owner' := owner[f := Taken];
    FileFrame(d, d', owner, owner', ino, root, n, last);
    InodesKept(d, d', owner);
    OthersFrame(d, d', owner, owner', ino);
  }

  /** The inode blocks are as before, so are the inodes. */
  lemma InodesKept(d: seq<Block>, d': seq<Block>, owner: seq<Owner>)
    requires Layout(d, owner) && |d'| == |d|
    requires forall c :: 0 <= c < |d| && owner[c] == Inodes ==> d'[c] == d[c]
    ensures forall k: nat :: k < NInodes(d) ==> SameInode(d, d', k) && d'[InodeBlockNo(k)] == d[InodeBlockNo(k)]
  {
    forall k: nat | k < NInodes(d)
      ensures SameInode(d, d', k) && d'[InodeBlockNo(k)] == d[InodeBlockNo(k)]
    {
      InodeBlockInRange(d[0][0], k);
      assert owner[InodeBlockNo(k)] == Inodes;
    }
  }

  /** A change of the nodes of ino alone that takes in the block f. */
  lemma MidOwn(d: seq<Block>, d': seq<Block>, owner: seq<Owner>, chain: seq<nat>,
               ino: nat, root: nat, n: nat, last: nat, f: nat,
               root': nat, n': nat, h: nat, x: nat)
    requires Mid(d, owner, chain, ino, root, n, last, f) && f != 0
    requires |d'| == |d|
    requires forall c :: 0 <= c < |d| && c != f && !IsNode(owner[c], ino) ==> d'[c] == d[c]
    requires FileInv(d', owner[f := Node(ino, h, x)], ino, root', n', last)
    ensures Mid(d', owner[f := Node(ino, h, x)], chain, ino, root', n', last, 0)
    ensures OthersSame(d, d', ino)
  {
    var owner' := owner[f := Node(ino, h, x)];
    FreeFrame(d, d', owner, owner', chain);
    InodesKept(d, d', owner);
    OthersFrame(d, d', owner, owner', ino);
  }

  /** Stacking a new root. */
  lemma MidGrow(d: seq<Block>, owner: seq<Owner>, chain: seq<nat>, ino: nat, root: Word, n: nat, last: nat, f: Word)
    requires Mid(d, owner, chain, ino, root, n, last, f) && f != 0
    ensures Mid(d[f := NewRoot(root)], owner[f := Node(ino, n + 1, 0)], chain, ino, f, n + 1, last, 0)
    ensures OthersSame(d, d[f := NewRoot(root)], ino)
    ensures InodeBlockNo(ino) < |d| && d[f := NewRoot(root)][InodeBlockNo(ino)] == d[InodeBlockNo(ino)]
    ensures DataSame(d, root, n, d[f := NewRoot(root)], f, n + 1, {})
  {
    var d' := d[f := NewRoot(root)];
    InodesKept(d, d', owner);
    GrowFile(d, owner, ino, root, n, last, f);
    MidOwn(d, d', owner, chain, ino, root, n, last, f, f, n + 1, n + 1, 0);
    forall o: nat ensures DataAt(d', f, n + 1, o) == DataAt(d, root, n, o) {
      var b := NodeAt(d, root, n, 0, 0, o);
      assert NodeAt(d', f, n + 1, 0, 0, o) == b;
    }
  }

  /** Linking a new node under an indirect block. */
  lemma MidLink(d: seq<Block>, owner: seq<Owner>, chain: seq<nat>, ino: nat, root: nat, n: nat, last: nat,
                h: nat, x: nat, p: nat, f: Word, z: Block)
    requires Mid(d, owner, chain, ino, root, n, last, f) && f != 0
    requires CanLink(d, owner, ino, n, h, x, p, f, z) && Under(h, x, n, 0) && x <= Up(last, h)
    ensures Mid(Linked(d, p, Slot(x), f, z), owner[f := Node(ino, h, x)], chain, ino, root, n, last, 0)
    ensures OthersSame(d, Linked(d, p, Slot(x), f, z), ino)
    ensures forall h2: nat, x2: nat ::
      NodeAt(Linked(d, p, Slot(x), f, z), root, n, 0, h2, x2)
        == if h2 == h && x2 == x then f else NodeAt(d, root, n, 0, h2, x2)
    ensures h > 0 ==> DataSame(d, root, n, Linked(d, p, Slot(x), f, z), root, n, {})
    ensures h == 0 ==> DataSame(d, root, n, Linked(d, p, Slot(x), f, z), root, n, {x})
  {
    var d' := Linked(d, p, Slot(x), f, z);
    LinkFile(d, owner, ino, root, n, last, h, x, p, f, z);
    MidOwn(d, d', owner, chain, ino, root, n, last, f, root, n, h, x);
    forall o: nat | h > 0 || o != x ensures DataAt(d', root, n, o) == DataAt(d, root, n, o) {
      var b := NodeAt(d, root, n, 0, 0, o);
      if b != 0 { assert owner[b] == Node(ino, 0, o); }
    }
  }

  /** Writing the inode of ino. */
  ghost function WithInode(d: seq<Block>, ino: nat, root: Word, nblocks: Word): seq<Block>
    requires InodeBlockNo(ino) < |d|
  {
    d[InodeBlockNo(ino) := d[InodeBlockNo(ino)][InodeWord(ino) := root][InodeWord(ino) + 1 := nblocks]]
  }

  lemma InodeWritten(d: seq<Block>, ino: nat, root: Word, nblocks: Word, k: nat)
    requires InodeBlockNo(ino) < |d| && InodeBlockNo(k) < |d|
    ensures var d' := WithInode(d, ino, root, nblocks);
      && (k == ino ==> Root(d', k) == root && NBlocks(d', k) == nblocks)
      && (k != ino ==> Root(d', k) == Root(d, k) && NBlocks(d', k) == NBlocks(d, k))
  {
    if k != ino {
      InodesApart(k, ino);
      InodesApart(ino, k);
    }
  }

  lemma MidInode(d: seq<Block>, owner: seq<Owner>, chain: seq<nat>, ino: nat, root: nat, n: nat, last: nat, f: nat,
                 root': Word, nblocks': Word)
    requires Mid(d, owner, chain, ino, root, n, last, f)
    ensures InodeBlockNo(ino) < |d|
    ensures Mid(WithInode(d, ino, root', nblocks'), owner, chain, ino, root, n, last, f)
    ensures OthersSame(d, WithInode(d, ino, root', nblocks'), ino)
    ensures forall h: nat, x: nat ::
      NodeAt(WithInode(d, ino, root', nblocks'), root, n, 0, h, x) == NodeAt(d, root, n, 0, h, x)
    ensures DataSame(d, root, n, WithInode(d, ino, root', nblocks'), root, n, {})
  {
    InodeBlockInRange(d[0][0], ino);
    var d' := WithInode(d, ino, root', nblocks');
    assert owner[InodeBlockNo(ino)] == Inodes;
    assert forall c :: 0 <= c < |d| && owner[c] != Inodes ==> d'[c] == d[c];
    FreeFrame(d, d', owner, owner, chain);
    FileFrame(d, d', owner, owner, ino, root, n, last);
    forall k: nat | k < NInodes(d) && k != ino ensures SameInode(d, d', k) {
      InodeBlockInRange(d[0][0], k);
      InodeWritten(d, ino, root', nblocks', k);
    }
    OthersFrame(d, d', owner, owner, ino);
  }

  /** The first block of an empty file becomes its root. */
  lemma MidFirst(d: seq<Block>, owner: seq<Owner>, chain: seq<nat>, ino: nat, last: nat, f: Word)
    requires Mid(d, owner, chain, ino, 0, 0, last, f) && f != 0
    ensures Mid(d, owner[f := Node(ino, 0, 0)], chain, ino, f, 0, last, 0)
    ensures DataSame(d, 0, 0, d, f, 0, {0})
  {
    var owner' := owner[f := Node(ino, 0, 0)];
    UpZero(0);
    forall c | 0 <= c < |d| ensures !IsNode(owner[c], ino) {
      assert owner[c].Node? ==> NodeAt(d, 0, 0, 0, owner[c].h, owner[c].x) == 0;
    }
    assert FileInv(d, owner', ino, f, 0, last);
    MidOwn(d, d, owner, chain, ino, 0, 0, last, f, f, 0, 0, 0);
  }

  /** Writing data block b of offset o. */
  lemma MidData(d: seq<Block>, owner: seq<Owner>, chain: seq<nat>, ino: nat, root: nat, n: nat, last: nat,
                o: nat, b: nat, block: Block)
    requires Mid(d, owner, chain, ino, root, n, last, 0)
    requires b != 0 && NodeAt(d, root, n, 0, 0, o) == b
    ensures b < |d|
    ensures Mid(d[b := block], owner, chain, ino, root, n, last, 0)
    ensures OthersSame(d, d[b := block], ino)
    ensures DataSame(d, root, n, d[b := block], root, n, {o}) && DataAt(d[b := block], root, n, o) == block
  {
    assert owner[b] == Node(ino, 0, o);
    var d' := d[b := block];
    FreeFrame(d, d', owner, owner, chain);
    DataFile(d, owner, ino, root, n, last, o, b, block);
    InodesKept(d, d', owner);
    OthersFrame(d, d', owner, owner, ino);
  }

  lemma DataFile(d: seq<Block>, owner: seq<Owner>, ino: nat, root: nat, n: nat, last: nat, o: nat, b: nat, block: Block)
    requires |owner| == |d| && FileInv(d, owner, ino, root, n, last)
    requires b != 0 && NodeAt(d, root, n, 0, 0, o) == b
    ensures b < |d| && FileInv(d[b := block], owner, ino, root, n, last)
    ensures DataSame(d, root, n, d[b := block], root, n, {o}) && DataAt(d[b := block], root, n, o) == block
  {
    assert owner[b] == Node(ino, 0, o);
    var d' := d[b := block];
    forall h: nat, x: nat ensures NodeAt(d', root, n, 0, h, x) == NodeAt(d, root, n, 0, h, x) {
      DataChangeNodeAt(d, owner, ino, root, n, b, block, o, h, x);
    }
    forall o2: nat | o2 != o ensures DataAt(d', root, n, o2) == DataAt(d, root, n, o2) {
      var b2 := NodeAt(d, root, n, 0, 0, o2);
      if b2 != 0 { assert owner[b2] == Node(ino, 0, o2); }
    }
  }

  lemma {:induction false} DataChangeNodeAt(d: seq<Block>, owner: seq<Owner>, ino: nat, root: nat, n: nat,
                                            b: nat, block: Block, o: nat, h: nat, x: nat)
    requires |owner| == |d| && Owns(d, owner, ino, root, n, 0)
    requires b < |d| && owner[b] == Node(ino, 0, o)
    ensures NodeAt(d[b := block], root, n, 0, h, x) == NodeAt(d, root, n, 0, h, x)
    decreases n - h
  {
    if h < n {
      DataChangeNodeAt(d, owner, ino, root, n, b, block, o, h + 1, Parent(x));
      var p := NodeAt(d, root, n, 0, h + 1, Parent(x));
      if p != 0 { assert owner[p] == Node(ino, h + 1, Parent(x)); }
    }
  }

  // ----- How many blocks a write takes -----

  /** The nodes missing at heights 0..h on the path to offset o. */
  ghost function Holes(d: seq<Block>, root: nat, n: nat, o: nat, h: nat): nat {
    (if NodeAt(d, root, n, 0, h, Up(o, h)) == 0 then 1 else 0) + (if h == 0 then 0 else Holes(d, root, n, o, h - 1))
  }

  lemma {:induction false} HolesFrame(d: seq<Block>, root: nat, n: nat, d': seq<Block>, root': nat, n': nat, o: nat, h: nat)
    requires forall k: nat :: k <= h ==> NodeAt(d', root', n', 0, k, Up(o, k)) == NodeAt(d, root, n, 0, k, Up(o, k))
    ensures Holes(d', root', n', o, h) == Holes(d, root, n, o, h)
  {
    if h > 0 { HolesFrame(d, root, n, d', root', n', o, h - 1); }
  }

  /** Below a hole there are only holes. */
  lemma {:induction false} AllHoles(d: seq<Block>, root: nat, n: nat, o: nat, h: nat)
    requires h <= n && NodeAt(d, root, n, 0, h, Up(o, h)) == 0
    ensures Holes(d, root, n, o, h) == h + 1
  {
    if h > 0 {
      UpStep(o, h - 1);
      AllHoles(d, root, n, o, h - 1);
    }
  }

  /** The height that the tree of a file needs to hold offset o. */
  ghost function NewHeight(nblocks: nat, o: nat): nat {
    if o >= nblocks then Levels(o) else Levels(Last(nblocks))
  }

  /** The blocks that a write at offset o takes off the free list. */
  ghost function Need(d: seq<Block>, ino: nat, o: nat): nat
    requires InodeBlockNo(ino) < |d|
  {
    if NewHeight(NBlocks(d, ino), o) > Height(d, ino) then
      NewHeight(NBlocks(d, ino), o) - Height(d, ino) + NewHeight(NBlocks(d, ino), o)
    else
      Holes(d, Root(d, ino), Height(d, ino), o, Height(d, ino))
  }

  /** A tree that has just grown over an old last offset has no node on the path to o but
      its root. */
  lemma GrownPathIsEmpty(d: seq<Block>, owner: seq<Owner>, ino: nat, root: nat, n: nat, last: nat, o: nat)
    requires |owner| == |d| && FileInv(d, owner, ino, root, n, last) && root != 0
    requires n == Levels(o) > Levels(last)
    ensures Holes(d, root, n, o, n) == n
  {
    LevelsIsLeast(o, n);
    LevelsIsLeast(o, n - 1);
    LevelsIsLeast(last, n - 1);
    BeyondLastIsHole(d, owner, ino, root, n, last, n - 1, Up(o, n - 1));
    AllHoles(d, root, n, o, n - 1);
  }

  lemma BeyondLastIsHole(d: seq<Block>, owner: seq<Owner>, ino: nat, root: nat, n: nat, last: nat, h: nat, x: nat)
    requires |owner| == |d| && FileInv(d, owner, ino, root, n, last) && x > Up(last, h)
    ensures NodeAt(d, root, n, 0, h, x) == 0
  {
    var c := NodeAt(d, root, n, 0, h, x);
    assert c != 0 ==> IsNode(owner[c], ino);
  }

  // ----- The walk of treedisk_write from the root to a data block -----

  /** The walk for offset o has come to height nl: the reference to the node there is word
      pIdx of block pOff, the inode or the node above. */
  ghost predicate Walking(d: seq<Block>, owner: seq<Owner>, chain: seq<nat>, ino: nat, root: nat, n: nat, last: nat,
                          o: nat, nl: nat, pOff: nat, pIdx: nat) {
    && Mid(d, owner, chain, ino, root, n, last, 0)
    && nl <= n && o <= last && Up(o, n) == 0
    && pOff < |d| && pIdx < R
    && InodeBlockNo(ino) < |d| && root == Root(d, ino) && (nl < n ==> root != 0)
    && if nl == n then
         pOff == InodeBlockNo(ino) && pIdx == InodeWord(ino)
       else
         owner[pOff] == Node(ino, nl + 1, Up(o, nl + 1)) && pIdx == Slot(Up(o, nl))
  }

  lemma WalkIsUnder(o: nat, nl: nat, n: nat)
    requires nl <= n && Up(o, n) == 0
    ensures Under(nl, Up(o, nl), n, 0)
  {
    UpUp(o, nl, n - nl);
  }

  /** The reference that the walk is at. */
  lemma WalkAt(d: seq<Block>, owner: seq<Owner>, chain: seq<nat>, ino: nat, root: nat, n: nat, last: nat,
               o: nat, nl: nat, pOff: nat, pIdx: nat)
    requires Walking(d, owner, chain, ino, root, n, last, o, nl, pOff, pIdx)
    ensures NodeAt(d, root, n, 0, nl, Up(o, nl)) == d[pOff][pIdx]
    ensures pOff != 0 && !IsFree(owner[pOff]) && owner[pOff] != Taken
  {
    if nl == n {
      InodeBlockInRange(d[0][0], ino);
      assert owner[pOff] == Inodes;
    } else {
      UpStep(o, nl);
      WalkIsUnder(o, nl + 1, n);
      OwnedNode(d, owner, ino, root, n, nl + 1, Up(o, nl + 1), pOff);
    }
  }

  /** The node is there: the walk reads it and goes on below. */
  lemma WalkDown(d: seq<Block>, owner: seq<Owner>, chain: seq<nat>, ino: nat, root: nat, n: nat, last: nat,
                 o: nat, nl: nat, pOff: nat, pIdx: nat)
    requires Walking(d, owner, chain, ino, root, n, last, o, nl, pOff, pIdx)
    requires d[pOff][pIdx] != 0 && nl > 0
    ensures d[pOff][pIdx] < |d|
    ensures Walking(d, owner, chain, ino, root, n, last, o, nl - 1, d[pOff][pIdx], Slot(Up(o, nl - 1)))
    ensures Holes(d, root, n, o, nl) == Holes(d, root, n, o, nl - 1)
  {
    WalkAt(d, owner, chain, ino, root, n, last, o, nl, pOff, pIdx);
  }

  /** The disk once a new node f hangs from word pIdx of block pOff; an indirect block
      starts out empty. */
  ghost function Hung(d: seq<Block>, nl: nat, pOff: nat, pIdx: nat, f: Word): seq<Block>
    requires pOff < |d| && pIdx < R && f < |d|
  {
    if nl > 0 then d[pOff := d[pOff][pIdx := f]][f := NullBlock()] else d[pOff := d[pOff][pIdx := f]]
  }

  /** The node is missing: f, just allocated, takes its place. */
  lemma WalkHang(d0: seq<Block>, d: seq<Block>, owner: seq<Owner>, chain: seq<nat>, chain': seq<nat>,
                 ino: nat, root: nat, n: nat, last: nat,
                 o: nat, nl: nat, pOff: nat, pIdx: nat, f: Word) returns (root': nat)
    requires Walking(d0, owner, chain, ino, root, n, last, o, nl, pOff, pIdx) && d0[pOff][pIdx] == 0
    requires 0 < f < |d0| && IsFree(owner[f])
    requires OnlyFreeChanged(d0, d, owner) && FreeInv(d, owner[f := Taken], chain')
    ensures d[pOff] == d0[pOff] && f != pOff
    ensures Mid(Hung(d, nl, pOff, pIdx, f), owner[f := Node(ino, nl, Up(o, nl))], chain', ino, root', n, last, 0)
    ensures OthersSame(d0, Hung(d, nl, pOff, pIdx, f), ino)
    ensures DataSame(d0, root, n, Hung(d, nl, pOff, pIdx, f), root', n, {o})
    ensures InodeBlockNo(ino) < |d0|
    ensures Root(Hung(d, nl, pOff, pIdx, f), ino) == root' && NBlocks(Hung(d, nl, pOff, pIdx, f), ino) == NBlocks(d0, ino)
    ensures root' != 0
    ensures forall h: nat, x: nat ::
      NodeAt(Hung(d, nl, pOff, pIdx, f), root', n, 0, h, x)
        == if h == nl && x == Up(o, nl) then f else NodeAt(d0, root, n, 0, h, x)
  {
    WalkAt(d0, owner, chain, ino, root, n, last, o, nl, pOff, pIdx);
    MidAlloc(d0, d, owner, chain, chain', ino, root, n, last, f);
    var owner1 := owner[f := Taken];
    assert owner1[f := Node(ino, nl, Up(o, nl))] == owner[f := Node(ino, nl, Up(o, nl))];
    if nl == n {
      root' := f;
      if n == 0 {
        assert o == 0;
        HangRoot(d, owner1, chain', ino, last, o, f);
      } else {
        HangTop(d, owner1, chain', ino, n, last, o, f);
      }
    } else {
      root' := root;
      HangNode(d, owner1, chain', ino, root, n, last, o, nl, pOff, f);
    }
    OthersTrans(d0, d, Hung(d, nl, pOff, pIdx, f), ino);
  }

  lemma HangNode(d: seq<Block>, owner: seq<Owner>, chain: seq<nat>, ino: nat, root: nat, n: nat, last: nat,
                 o: nat, nl: nat, pOff: nat, f: Word)
    requires Mid(d, owner, chain, ino, root, n, last, f) && f != 0
    requires nl < n && o <= last && Up(o, n) == 0 && pOff < |d|
    requires owner[pOff] == Node(ino, nl + 1, Up(o, nl + 1)) && d[pOff][Slot(Up(o, nl))] == 0
    requires InodeBlockNo(ino) < |d| && root == Root(d, ino)
    ensures var d' := Hung(d, nl, pOff, Slot(Up(o, nl)), f);
      && Mid(d', owner[f := Node(ino, nl, Up(o, nl))], chain, ino, root, n, last, 0)
      && OthersSame(d, d', ino) && DataSame(d, root, n, d', root, n, {o})
      && Root(d', ino) == root && NBlocks(d', ino) == NBlocks(d, ino)
      && forall h: nat, x: nat ::
           NodeAt(d', root, n, 0, h, x) == if h == nl && x == Up(o, nl) then f else NodeAt(d, root, n, 0, h, x)
  {
    hide FileInv, FileOk;
    var x := Up(o, nl);
    UpStep(o, nl);
    WalkIsUnder(o, nl, n);
    UpMonotone(o, last, nl);
    var z := if nl > 0 then NullBlock() else d[f];
    var d' := Hung(d, nl, pOff, Slot(x), f);
    assert d' == Linked(d, pOff, Slot(x), f, z);
    MidLink(d, owner, chain, ino, root, n, last, nl, x, pOff, f, z);
    InodesKept(d, d', owner);
  }

  lemma RangeOfInode(d: seq<Block>, owner: seq<Owner>, chain: seq<nat>, ino: nat, last: nat, f: nat)
    requires Mid(d, owner, chain, ino, 0, 0, last, f)
    ensures InodeBlockNo(ino) < |d|
  {
    InodeBlockInRange(d[0][0], ino);
  }

  /** An empty file gets its first block. */
  lemma HangRoot(d: seq<Block>, owner: seq<Owner>, chain: seq<nat>, ino: nat, last: nat, o: nat, f: Word)
    requires Mid(d, owner, chain, ino, 0, 0, last, f) && f != 0 && o == 0
    ensures InodeBlockNo(ino) < |d|
    ensures var d' := Hung(d, 0, InodeBlockNo(ino), InodeWord(ino), f);
      && Mid(d', owner[f := Node(ino, 0, 0)], chain, ino, f, 0, last, 0)
      && OthersSame(d, d', ino) && DataSame(d, 0, 0, d', f, 0, {0})
      && Root(d', ino) == f && NBlocks(d', ino) == NBlocks(d, ino)
  {
    hide OthersSame, FileInv, FileOk, FreeInv, Owns, SlotsOk, ChainOk;
    RangeOfInode(d, owner, chain, ino, last, f);
    var nb := NBlocks(d, ino);
    var d' := Hung(d, 0, InodeBlockNo(ino), InodeWord(ino), f);
    var ib, w := d[InodeBlockNo(ino)], InodeWord(ino);
    assert ib[w := f] == ib[w := f][w + 1 := nb];
    MidInode(d, owner, chain, ino, 0, 0, last, f, f, nb);
    InodeWritten(d, ino, f, nb, ino);
    MidFirst(d', owner, chain, ino, last, f);
  }

  /** An empty tree may be said to have any height. */
  lemma EmptyHeight(d: seq<Block>, owner: seq<Owner>, chain: seq<nat>, ino: nat, n: nat, last: nat, f: nat, n': nat)
    requires Mid(d, owner, chain, ino, 0, n, last, f)
    ensures Mid(d, owner, chain, ino, 0, n', last, f)
  {
    forall h: nat, x: nat ensures NodeAt(d, 0, n, 0, h, x) == 0 && NodeAt(d, 0, n', 0, h, x) == 0 {
      NoNodes(d, n, h, x);
      NoNodes(d, n', h, x);
    }
    forall c | 0 <= c < |owner| ensures !IsNode(owner[c], ino) {}
  }

  /** An empty file gets the root of a tree of height n. */
  lemma HangTop(d: seq<Block>, owner: seq<Owner>, chain: seq<nat>, ino: nat, n: nat, last: nat, o: nat, f: Word)
    requires Mid(d, owner, chain, ino, 0, n, last, f) && f != 0 && n > 0
    ensures InodeBlockNo(ino) < |d|
    ensures var d' := Hung(d, n, InodeBlockNo(ino), InodeWord(ino), f);
      && Mid(d', owner[f := Node(ino, n, 0)], chain, ino, f, n, last, 0)
      && OthersSame(d, d', ino) && DataSame(d, 0, n, d', f, n, {})
      && Root(d', ino) == f && NBlocks(d', ino) == NBlocks(d, ino)
      && forall h: nat, x: nat :: NodeAt(d', f, n, 0, h, x) == if h == n && x == 0 then f else NodeAt(d, 0, n, 0, h, x)
  {
    hide Mid;
    EmptyHeight(d, owner, chain, ino, n, last, f, n - 1);
    var nb := TopInode(d, owner, chain, ino, n - 1, last, f);
    var d1 := WithInode(d, ino, f, nb);
    MidGrow(d1, owner, chain, ino, 0, n - 1, last, f);
    assert NewRoot(0) == NullBlock();
    OthersTrans(d, d1, d1[f := NullBlock()], ino);
    forall h: nat, x: nat ensures NodeAt(d1[f := NullBlock()], f, n, 0, h, x) == if h == n && x == 0 then f else NodeAt(d, 0, n, 0, h, x) {
      NoNodes(d, n, h, x);
      TopAlone(d1, n, f, h, x);
    }
    forall o: nat ensures DataAt(d1[f := NullBlock()], f, n, o) == DataAt(d, 0, n, o) {
      NoNodes(d, n, 0, o);
      TopAlone(d1, n, f, 0, o);
    }
  }

  lemma TopInode(d: seq<Block>, owner: seq<Owner>, chain: seq<nat>, ino: nat, n: nat, last: nat, f: Word) returns (nb: Word)
    requires Mid(d, owner, chain, ino, 0, n, last, f) && f != 0
    ensures InodeBlockNo(ino) < |d| && nb == NBlocks(d, ino) && InodeBlockNo(ino) != f < |d| && owner[f] == Taken
    ensures var d1 := WithInode(d, ino, f, nb);
      && d1 == d[InodeBlockNo(ino) := d[InodeBlockNo(ino)][InodeWord(ino) := f]]
      && Mid(d1, owner, chain, ino, 0, n, last, f) && OthersSame(d, d1, ino) && Root(d1, ino) == f && NBlocks(d1, ino) == nb
  {
    InodeBlockInRange(d[0][0], ino);
    nb := NBlocks(d, ino);
    assert owner[InodeBlockNo(ino)] == Inodes && owner[f] == Taken;
    var ib, w := d[InodeBlockNo(ino)], InodeWord(ino);
    assert ib[w := f] == ib[w := f][w + 1 := nb];
    MidInode(d, owner, chain, ino, 0, n, last, f, f, nb);
    InodeWritten(d, ino, f, nb, ino);
  }

  /** The tree of an empty root block has no other node. */
  lemma {:induction false} TopAlone(d: seq<Block>, n: nat, f: nat, h: nat, x: nat)
    requires 0 < f < |d|
    ensures NodeAt(d[f := NullBlock()], f, n, 0, h, x) == if h == n && x == 0 then f else 0
    decreases n - h
  {
    if h < n { TopAlone(d, n, f, h + 1, Parent(x)); }
  }

  // ----- A whole write -----

  lemma BeyondEndIsNull(d: seq<Block>, owner: seq<Owner>, ino: nat, o: nat)
    requires |owner| == |d| && FileOk(d, owner, ino) && o >= NBlocks(d, ino)
    ensures DataAt(d, Root(d, ino), Height(d, ino), o) == NullBlock()
  {
    var b := NodeAt(d, Root(d, ino), Height(d, ino), 0, 0, o);
    if b != 0 {
      assert IsNode(owner[b], ino) && owner[b].x == o;
      NodeIsUnder(d, Root(d, ino), Height(d, ino), 0, 0, o);
      if NBlocks(d, ino) == 0 { NoNodes(d, Height(d, ino), 0, o); }
    }
  }

  lemma {:induction false} NoNodes(d: seq<Block>, n: nat, h: nat, x: nat)
    ensures NodeAt(d, 0, n, 0, h, x) == 0
    decreases n - h
  {
    if h < n { NoNodes(d, n, h + 1, Parent(x)); }
  }

  /** The disk after a write is that of the file with one block replaced. */
  lemma WriteDone(d0: seq<Block>, owner0: seq<Owner>, d: seq<Block>, ino: nat, o: nat, block: Block)
    requires |owner0| == |d0| >= 1 && 1 + d0[0][0] <= |d0| && ino < NInodes(d0)
    requires FileOk(d0, owner0, ino) && OthersSame(d0, d, ino)
    requires NBlocks(d, ino) == if o >= NBlocks(d0, ino) then o + 1 else NBlocks(d0, ino)
    requires DataSame(d0, Root(d0, ino), Height(d0, ino), d, Root(d, ino), Height(d, ino), {o})
    requires DataAt(d, Root(d, ino), Height(d, ino), o) == block
    ensures |Files(d)| == |Files(d0)| && Files(d) == Files(d0)[ino := WriteAt(Files(d0)[ino], o, block)]
  {
    FileWritten(d0, owner0, d, ino, o, block);
    forall k: nat | k < NInodes(d0) && k != ino ensures Files(d)[k] == Files(d0)[k] {
      InodeBlockInRange(d0[0][0], k);
      assert File(d, k) == File(d0, k);
    }
  }

  lemma FileWritten(d0: seq<Block>, owner0: seq<Owner>, d: seq<Block>, ino: nat, o: nat, block: Block)
    requires |owner0| == |d0| >= 1 && 1 + d0[0][0] <= |d0| && |d| == |d0|
    requires FileOk(d0, owner0, ino)
    requires NBlocks(d, ino) == if o >= NBlocks(d0, ino) then o + 1 else NBlocks(d0, ino)
    requires DataSame(d0, Root(d0, ino), Height(d0, ino), d, Root(d, ino), Height(d, ino), {o})
    requires DataAt(d, Root(d, ino), Height(d, ino), o) == block
    ensures File(d, ino) == WriteAt(File(d0, ino), o, block)
  {
    var f0, f := File(d0, ino), File(d, ino);
    var g := WriteAt(f0, o, block);
    forall i | 0 <= i < |f| ensures f[i] == g[i] {
      if i != o && i >= |f0| { BeyondEndIsNull(d0, owner0, ino, i); }
    }
  }

  lemma FilesAt(d: seq<Block>, owner: seq<Owner>, chain: seq<nat>, ino: nat)
    requires Inv(d, owner, chain) && ino < NInodes(d)
    ensures InodeBlockNo(ino) < |d| && Files(d)[ino] == File(d, ino)
    ensures FileOk(d, owner, ino)
  {
    InodeBlockInRange(d[0][0], ino);
  }
}
