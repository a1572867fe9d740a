/** What treedisk_write and treedisk_setsize do to the disk, as functions, and what they keep. */
module TreeOps {
  import opened Blocks
  import opened Index
  import opened TreeLayout
  import opened FreeList
  import opened TreeFS

  // ----- Stacking new roots -----

  datatype Tree = NoTree | Tree(super: Block, d: seq<Block>, root: Word)

  ghost function GrowOp(super: Block, d: seq<Block>, root: Word, n: nat, after: nat): Tree
    requires R >= 2 && |d| >= 1
    decreases after - n
  {
    if n >= after then Tree(super, d, root)
    else
      match AllocOp(super, d)
      case NoBlock => NoTree
      case Block(f, st) =>
        if st.Panic? || f >= |st.d| then NoTree
        else GrowOp(st.super, st.d[f := NewRoot(root)], f, n + 1, after)
  }

  /** The tree t, with its blocks owned by o', is that of (d, root, n) under new roots. */
  ghost predicate GrowOk(d: seq<Block>, o: seq<Owner>, root: nat, n: nat, ino: nat, last: nat, after: nat,
                         t: Tree, o': seq<Owner>, ch': seq<nat>) {
    && t.Tree? && |t.d| == |d| >= 1 && t.super == t.d[0]
    && Mid(t.d, o', ch', ino, t.root, after, last, 0)
    && n <= after && |FreeSet(o)| == |FreeSet(o')| + (after - n)
    && (after > n ==> t.root != 0)
    && (after == n ==> t.root == root && o' == o && t.d == d)
    && OthersSame(d, t.d, ino) && DataSame(d, root, n, t.d, t.root, after, {})
    && InodeBlockNo(ino) < |d| && t.d[InodeBlockNo(ino)] == d[InodeBlockNo(ino)]
  }

  lemma {:induction false} GrowKeeps(d: seq<Block>, o: seq<Owner>, ch: seq<nat>, ino: nat, root: Word, n: nat, last: nat, after: nat, t: Tree)
      returns (o': seq<Owner>, ch': seq<nat>)
    requires Mid(d, o, ch, ino, root, n, last, 0) && n <= after && t == GrowOp(d[0], d, root, n, after)
    ensures t.NoTree? <==> |FreeSet(o)| < after - n
    ensures t.Tree? ==> GrowOk(d, o, root, n, ino, last, after, t, o', ch')
    decreases after - n
  {
    o', ch' := o, ch;
    if n == after {
      InodeBlockInRange(d[0][0], ino);
      OthersRefl(d, ino);
    } else {
      var chA := AllocKeeps(d, o, ch);
      var a := AllocOp(d[0], d);
      if a.Block? {
        var d1, o1 := GrowStep(d, o, ch, ino, root, n, last, a.f, a.st, chA);
        assert OthersSame(d, d1, ino) && DataSame(d, root, n, d1, a.f, n + 1, {});
        o', ch' := GrowKeeps(d1, o1, chA, ino, a.f, n + 1, last, after, t);
        if t.Tree? { GrowCompose(d, d1, o, o1, root, n, ino, last, after, a.f, t, o', ch'); }
      }
    }
  }

  lemma GrowCompose(d: seq<Block>, d1: seq<Block>, o: seq<Owner>, o1: seq<Owner>, root: nat, n: nat, ino: nat, last: nat, after: nat,
                    f: nat, t: Tree, o': seq<Owner>, ch': seq<nat>)
    requires GrowOk(d1, o1, f, n + 1, ino, last, after, t, o', ch') && f != 0
    requires |FreeSet(o)| == |FreeSet(o1)| + 1
    requires OthersSame(d, d1, ino) && DataSame(d, root, n, d1, f, n + 1, {})
    requires InodeBlockNo(ino) < |d| && d1[InodeBlockNo(ino)] == d[InodeBlockNo(ino)]
    ensures GrowOk(d, o, root, n, ino, last, after, t, o', ch')
  {
    OthersTrans(d, d1, t.d, ino);
  }

  lemma GrowStep(d: seq<Block>, o: seq<Owner>, ch: seq<nat>, ino: nat, root: Word, n: nat, last: nat,
                 f: Word, st: Store, chA: seq<nat>) returns (d1: seq<Block>, o1: seq<Owner>)
    requires Mid(d, o, ch, ino, root, n, last, 0) && AllocOk(d, o, f, st, chA)
    ensures d1 == st.d[f := NewRoot(root)] && d1[0] == st.super
    ensures Mid(d1, o1, chA, ino, f, n + 1, last, 0)
    ensures |FreeSet(o)| == |FreeSet(o1)| + 1
    ensures OthersSame(d, d1, ino) && DataSame(d, root, n, d1, f, n + 1, {})
    ensures InodeBlockNo(ino) < |d| && d1[InodeBlockNo(ino)] == d[InodeBlockNo(ino)]
  {
    var oA := o[f := Taken];
    MidAlloc(d, st.d, o, ch, chA, ino, root, n, last, f);
    MidGrow(st.d, oA, chA, ino, root, n, last, f);
    d1, o1 := st.d[f := NewRoot(root)], oA[f := Node(ino, n + 1, 0)];
    OthersTrans(d, st.d, d1, ino);
    TakenToNode(o, f, Node(ino, n + 1, 0));
  }

  lemma TakenToNode(o: seq<Owner>, f: nat, node: Owner)
    requires f < |o| && IsFree(o[f]) && node.Node?
    ensures o[f := Taken][f := node] == o[f := node]
    ensures |FreeSet(o)| == |FreeSet(o[f := node])| + 1
  {
    assert FreeSet(o) - {f} == FreeSet(o[f := node]);
    SetOne(FreeSet(o), f);
  }

  // ----- Walking down and writing -----

  /** The loop of treedisk_write from the parent block in memory, which belongs in block pOff. */
  ghost function WalkOp(super: Block, d: seq<Block>, o: nat, nl: nat, pOff: nat, pBlock: Block, pIdx: nat, block: Block): Store
    requires R >= 2 && |d| >= 1 && pIdx < R
    decreases nl
  {
    if pBlock[pIdx] == 0 then
      match AllocOp(super, d)
      case NoBlock => Panic
      case Block(f, st) =>
        if st.Panic? || pOff >= |st.d| || f >= |st.d| then Panic
        else if nl == 0 then On(st.super, st.d[pOff := pBlock[pIdx := f]][f := block])
        else WalkOp(st.super, st.d[pOff := pBlock[pIdx := f]], o, nl - 1, f, NullBlock(), Slot(Up(o, nl - 1)), block)
    else if pBlock[pIdx] >= |d| then Panic
    else if nl == 0 then On(super, d[pBlock[pIdx] := block])
    else WalkOp(super, d, o, nl - 1, pBlock[pIdx], d[pBlock[pIdx]], Slot(Up(o, nl - 1)), block)
  }

  /** The disk st holds the files of v, but for block at offset o of file ino, and k blocks
      fewer are free. */
  ghost predicate WalkOk(v: seq<Block>, owner: seq<Owner>, ino: nat, root: nat, n: nat, last: nat, o: nat, k: nat, block: Block,
                         st: Store, root': nat, owner': seq<Owner>, ch': seq<nat>) {
    && st.On? && |st.d| == |v| >= 1 && st.super == st.d[0]
    && Mid(st.d, owner', ch', ino, root', n, last, 0)
    && |FreeSet(owner)| == |FreeSet(owner')| + k
    && OthersSame(v, st.d, ino) && DataSame(v, root, n, st.d, root', n, {o}) && DataAt(st.d, root', n, o) == block
    && InodeBlockNo(ino) < |v|
    && root' != 0 && Root(st.d, ino) == root' && NBlocks(st.d, ino) == NBlocks(v, ino)
  }

  /** An allocation does not notice a pending change of a block that is not free. */
  lemma AllocBeside(d: seq<Block>, v: seq<Block>, owner: seq<Owner>, chain: seq<nat>, p: nat)
    requires FreeInv(v, owner, chain) && |d| == |v|
    requires 0 < p < |d| && !IsFree(owner[p]) && v == d[p := v[p]]
    ensures AllocOp(v[0], d).NoBlock? <==> AllocOp(v[0], v).NoBlock?
    ensures AllocOp(v[0], d).Block? ==>
      var a, b := AllocOp(v[0], d), AllocOp(v[0], v);
      && a.f == b.f && a.st.On? && b.st.On? && a.st.super == b.st.super
      && |a.st.d| == |d| && b.st.d == a.st.d[p := v[p]]
  {
    NoneFree(v, owner, chain);
    var b := v[0][1];
    if b != 0 {
      assert owner[b].FreeList?;
      assert d[b] == v[b];
    }
  }

  /** v is the disk d with the parent block in memory written back, and st is what the walk
      makes of it. */
  lemma {:induction false} WalkKeeps(d: seq<Block>, v: seq<Block>, owner: seq<Owner>, ch: seq<nat>, ino: nat, root: nat, n: nat, last: nat,
                                     o: nat, nl: nat, pOff: nat, pIdx: nat, block: Block, st: Store, k: nat)
      returns (root': nat, owner': seq<Owner>, ch': seq<nat>)
    requires Walking(v, owner, ch, ino, root, n, last, o, nl, pOff, pIdx)
    requires |d| == |v| && v == d[pOff := v[pOff]] && (v[pOff][pIdx] != 0 ==> d == v)
    requires st == WalkOp(v[0], d, o, nl, pOff, v[pOff], pIdx, block) && k == Holes(v, root, n, o, nl)
    ensures st.Panic? <==> |FreeSet(owner)| < k
    ensures st.On? ==> WalkOk(v, owner, ino, root, n, last, o, k, block, st, root', owner', ch')
    decreases nl
  {
    root', owner', ch' := root, owner, ch;
    WalkAt(v, owner, ch, ino, root, n, last, o, nl, pOff, pIdx);
    var b := v[pOff][pIdx];
    if b != 0 && nl == 0 {
      WalkEnd(v, owner, ch, ino, root, n, last, o, pOff, pIdx, block);
    } else if b != 0 {
      WalkDown(v, owner, ch, ino, root, n, last, o, nl, pOff, pIdx);
      root', owner', ch' := WalkKeeps(v, v, owner, ch, ino, root, n, last, o, nl - 1, b, Slot(Up(o, nl - 1)), block, st, k);
    } else {
      root', owner', ch' := WalkMissing(d, v, owner, ch, ino, root, n, last, o, nl, pOff, pIdx, block, st, k);
    }
  }

  lemma {:induction false} WalkMissing(d: seq<Block>, v: seq<Block>, owner: seq<Owner>, ch: seq<nat>, ino: nat, root: nat, n: nat, last: nat,
                                       o: nat, nl: nat, pOff: nat, pIdx: nat, block: Block, st: Store, k: nat)
      returns (root': nat, owner': seq<Owner>, ch': seq<nat>)
    requires Walking(v, owner, ch, ino, root, n, last, o, nl, pOff, pIdx)
    requires |d| == |v| && v == d[pOff := v[pOff]] && v[pOff][pIdx] == 0
    requires st == WalkOp(v[0], d, o, nl, pOff, v[pOff], pIdx, block) && k == Holes(v, root, n, o, nl)
    ensures st.Panic? <==> |FreeSet(owner)| < k
    ensures st.On? ==> WalkOk(v, owner, ino, root, n, last, o, k, block, st, root', owner', ch')
    decreases nl, 1
  {
    root', owner', ch' := root, owner, ch;
    var chA, a, b := AllocPending(d, v, owner, ch, ino, root, n, last, o, nl, pOff, pIdx);
    AllHoles(v, root, n, o, nl);
    if a.NoBlock? {
      assert st.Panic? && |FreeSet(owner)| == 0;
    } else {
      var v1, owner1, root1 := HangStep(v, owner, ch, chA, ino, root, n, last, o, nl, pOff, pIdx, a.f, b.st);
      var d1 := a.st.d[pOff := v[pOff][pIdx := a.f]];
      HungOnDisk(a.st.d, b.st.d, nl, pOff, pIdx, a.f, v[pOff]);
      if nl == 0 {
        HangEnd(v, v1, owner, owner1, chA, ino, root, root1, n, last, o, a.f, block);
        root', owner', ch' := root1, owner1, chA;
      } else {
        assert OthersSame(v, v1, ino) && DataSame(v, root, n, v1, root1, n, {o});
        HangNext(v, v1, owner1, chA, ino, root, root1, n, last, o, nl, a.f);
        root', owner', ch' := WalkBelow(v, d1, v1, owner, owner1, chA, ino, root, root1, n, last, o, nl, a.f, block, st, k);
      }
    }
  }

  /** The rest of the walk once a missing indirect block f has been linked. */
  lemma {:induction false} WalkBelow(v: seq<Block>, d1: seq<Block>, v1: seq<Block>, owner: seq<Owner>, owner1: seq<Owner>, ch1: seq<nat>, ino: nat,
                                     root: nat, root1: nat, n: nat, last: nat, o: nat, nl: nat, f: Word, block: Block, st: Store, k: nat)
      returns (root': nat, owner': seq<Owner>, ch': seq<nat>)
    requires nl > 0 && k > 0 && f < |d1| == |v1| && v1 == d1[f := NullBlock()]
    requires Walking(v1, owner1, ch1, ino, root1, n, last, o, nl - 1, f, Slot(Up(o, nl - 1)))
    requires OthersSame(v, v1, ino) && DataSame(v, root, n, v1, root1, n, {o})
    requires InodeBlockNo(ino) < |v| && NBlocks(v1, ino) == NBlocks(v, ino)
    requires |FreeSet(owner)| == |FreeSet(owner1)| + 1
    requires st == WalkOp(v1[0], d1, o, nl - 1, f, NullBlock(), Slot(Up(o, nl - 1)), block)
    requires k - 1 == Holes(v1, root1, n, o, nl - 1)
    ensures st.Panic? <==> |FreeSet(owner)| < k
    ensures st.On? ==> WalkOk(v, owner, ino, root, n, last, o, k, block, st, root', owner', ch')
    decreases nl, 0
  {
    hide Walking, Mid, WalkOk, WalkOp, OthersSame, DataSame, FreeSet, Holes, Up, Slot;
    root', owner', ch' := WalkKeeps(d1, v1, owner1, ch1, ino, root1, n, last, o, nl - 1, f, Slot(Up(o, nl - 1)), block, st, k - 1);
    if st.On? {
      assert k - 1 >= 0;
      WalkCompose(v, v1, owner, owner1, ino, root, root1, n, last, o, k, block, st, root', owner', ch');
    }
  }

  /** The allocation of a missing node, on disk and with the parent written back. */
  lemma AllocPending(d: seq<Block>, v: seq<Block>, owner: seq<Owner>, ch: seq<nat>, ino: nat, root: nat, n: nat, last: nat,
                     o: nat, nl: nat, pOff: nat, pIdx: nat)
      returns (chA: seq<nat>, a: Allocation, b: Allocation)
    requires Walking(v, owner, ch, ino, root, n, last, o, nl, pOff, pIdx) && v[pOff][pIdx] == 0
    requires |d| == |v| && v == d[pOff := v[pOff]]
    ensures NodeAt(v, root, n, 0, nl, Up(o, nl)) == 0
    ensures a == AllocOp(v[0], d)
    ensures a.NoBlock? <==> FreeSet(owner) == {}
    ensures a.Block? ==> b.Block? && AllocOk(v, owner, a.f, b.st, chA)
    ensures a.Block? ==> a.st.On? && |a.st.d| == |d| && a.st.super == b.st.super && b.st.d == a.st.d[pOff := v[pOff]]
  {
    WalkAt(v, owner, ch, ino, root, n, last, o, nl, pOff, pIdx);
    AllocBeside(d, v, owner, ch, pOff);
    chA := AllocKeeps(v, owner, ch);
    a, b := AllocOp(v[0], d), AllocOp(v[0], v);
  }

  lemma HungOnDisk(d: seq<Block>, v: seq<Block>, nl: nat, pOff: nat, pIdx: nat, f: Word, p: Block)
    requires |d| == |v| && pOff < |d| && pIdx < R && f < |d| && f != pOff && v == d[pOff := p]
    ensures nl == 0 ==> Hung(v, nl, pOff, pIdx, f) == d[pOff := p[pIdx := f]]
    ensures nl > 0 ==> Hung(v, nl, pOff, pIdx, f) == d[pOff := p[pIdx := f]][f := NullBlock()]
  {}

  lemma WalkCompose(v: seq<Block>, v1: seq<Block>, owner: seq<Owner>, owner1: seq<Owner>, ino: nat,
                    root: nat, root1: nat, n: nat, last: nat, o: nat, k: nat, block: Block,
                    st: Store, root': nat, owner': seq<Owner>, ch': seq<nat>)
    requires k > 0 && WalkOk(v1, owner1, ino, root1, n, last, o, k - 1, block, st, root', owner', ch')
    requires OthersSame(v, v1, ino) && DataSame(v, root, n, v1, root1, n, {o})
    requires InodeBlockNo(ino) < |v| && NBlocks(v1, ino) == NBlocks(v, ino)
    requires |FreeSet(owner)| == |FreeSet(owner1)| + 1
    ensures WalkOk(v, owner, ino, root, n, last, o, k, block, st, root', owner', ch')
  {
    OthersTrans(v, v1, st.d, ino);
  }

  /** The data block is there: it is overwritten. */
  lemma WalkEnd(v: seq<Block>, owner: seq<Owner>, ch: seq<nat>, ino: nat, root: nat, n: nat, last: nat,
                o: nat, pOff: nat, pIdx: nat, block: Block)
    requires Walking(v, owner, ch, ino, root, n, last, o, 0, pOff, pIdx) && v[pOff][pIdx] != 0
    ensures v[pOff][pIdx] < |v| && Holes(v, root, n, o, 0) == 0
    ensures WalkOk(v, owner, ino, root, n, last, o, 0, block, On(v[0], v[v[pOff][pIdx] := block]), root, owner, ch)
  {
    WalkAt(v, owner, ch, ino, root, n, last, o, 0, pOff, pIdx);
    var b := v[pOff][pIdx];
    MidData(v, owner, ch, ino, root, n, last, o, b, block);
    InodesKept(v, v[b := block], owner);
    RootIsNode(v, owner, ino, root, n, last, o);
  }

  /** A tree with a node has a root. */
  lemma RootIsNode(v: seq<Block>, owner: seq<Owner>, ino: nat, root: nat, n: nat, last: nat, o: nat)
    requires NodeAt(v, root, n, 0, 0, o) != 0
    ensures root != 0
  {
    if root == 0 { NoNodes(v, n, 0, o); }
  }

  /** A missing node is allocated and linked. */
  lemma HangStep(v: seq<Block>, owner: seq<Owner>, ch: seq<nat>, chA: seq<nat>, ino: nat, root: nat, n: nat, last: nat,
                 o: nat, nl: nat, pOff: nat, pIdx: nat, f: Word, st: Store)
      returns (v1: seq<Block>, owner1: seq<Owner>, root1: nat)
    requires Walking(v, owner, ch, ino, root, n, last, o, nl, pOff, pIdx) && v[pOff][pIdx] == 0
    requires AllocOk(v, owner, f, st, chA)
    ensures st.d[pOff] == v[pOff] && f != pOff && v1 == Hung(st.d, nl, pOff, pIdx, f) && v1[0] == st.super
    ensures Mid(v1, owner1, chA, ino, root1, n, last, 0)
    ensures OthersSame(v, v1, ino) && DataSame(v, root, n, v1, root1, n, {o})
    ensures InodeBlockNo(ino) < |v| && Root(v1, ino) == root1 && NBlocks(v1, ino) == NBlocks(v, ino)
    ensures |FreeSet(owner)| == |FreeSet(owner1)| + 1
    ensures root1 != 0 && owner1 == owner[f := Node(ino, nl, Up(o, nl))]
    ensures forall h: nat, x: nat ::
      NodeAt(v1, root1, n, 0, h, x) == if h == nl && x == Up(o, nl) then f else NodeAt(v, root, n, 0, h, x)
  {
    WalkAt(v, owner, ch, ino, root, n, last, o, nl, pOff, pIdx);
    root1 := WalkHang(v, st.d, owner, ch, chA, ino, root, n, last, o, nl, pOff, pIdx, f);
    v1, owner1 := Hung(st.d, nl, pOff, pIdx, f), owner[f := Node(ino, nl, Up(o, nl))];
    TakenToNode(owner, f, Node(ino, nl, Up(o, nl)));
  }

  /** From there the walk goes on. */
  lemma HangNext(v: seq<Block>, v1: seq<Block>, owner1: seq<Owner>, ch: seq<nat>, ino: nat, root: nat, root1: nat, n: nat, last: nat,
                 o: nat, nl: nat, f: Word)
    requires Mid(v1, owner1, ch, ino, root1, n, last, 0) && 0 < nl <= n && o <= last && Up(o, n) == 0
    requires InodeBlockNo(ino) < |v1| && root1 == Root(v1, ino) && root1 != 0
    requires f < |v1| && owner1[f] == Node(ino, nl, Up(o, nl))
    requires NodeAt(v, root, n, 0, nl, Up(o, nl)) == 0
    requires forall h: nat, x: nat ::
      NodeAt(v1, root1, n, 0, h, x) == if h == nl && x == Up(o, nl) then f else NodeAt(v, root, n, 0, h, x)
    ensures Walking(v1, owner1, ch, ino, root1, n, last, o, nl - 1, f, Slot(Up(o, nl - 1)))
    ensures Holes(v, root, n, o, nl) == 1 + Holes(v1, root1, n, o, nl - 1)
  {
    HolesFrame(v, root, n, v1, root1, n, o, nl - 1);
  }

  /** A missing data block was allocated and linked: it is written. */
  lemma HangEnd(v: seq<Block>, v1: seq<Block>, owner: seq<Owner>, owner1: seq<Owner>, ch: seq<nat>, ino: nat,
                root: nat, root1: nat, n: nat, last: nat, o: nat, f: Word, block: Block)
    requires Mid(v1, owner1, ch, ino, root1, n, last, 0) && NodeAt(v1, root1, n, 0, 0, o) == f && f != 0 && root1 != 0
    requires |FreeSet(owner)| == |FreeSet(owner1)| + 1
    requires OthersSame(v, v1, ino) && DataSame(v, root, n, v1, root1, n, {o})
    requires InodeBlockNo(ino) < |v| && Root(v1, ino) == root1 && NBlocks(v1, ino) == NBlocks(v, ino)
    ensures f < |v|
    ensures WalkOk(v, owner, ino, root, n, last, o, 1, block, On(v1[0], v1[f := block]), root1, owner1, ch)
  {
    MidData(v1, owner1, ch, ino, root1, n, last, o, f, block);
    InodesKept(v1, v1[f := block], owner1);
    OthersTrans(v, v1, v1[f := block], ino);
  }

  // ----- A whole write -----

  ghost function WriteOp(d: seq<Block>, ino: nat, o: Word, block: Block): Store
    requires R >= 2 && |d| >= 1 && InodeBlockNo(ino) < |d| && o + 1 < WORD_LIMIT
  {
    match GrowOp(d[0], d, Root(d, ino), Height(d, ino), NewHeight(NBlocks(d, ino), o))
    case NoTree => Panic
    case Tree(super, d1, root) =>
      if |d1| != |d| then Panic
      else if o >= NBlocks(d, ino) then WalkFromInode(super, d1, ino, InodeBlock(d, ino, root, o + 1), o, Levels(o), block)
      else WalkOp(super, d1, o, Height(d, ino), InodeBlockNo(ino), d[InodeBlockNo(ino)], InodeWord(ino), block)
  }

  /** The inode block with the new root and size. */
  ghost function InodeBlock(d: seq<Block>, ino: nat, root: Word, nblocks: Word): Block
    requires InodeBlockNo(ino) < |d|
  {
    d[InodeBlockNo(ino)][InodeWord(ino) := root][InodeWord(ino) + 1 := nblocks]
  }

  /** The inode block is written back, then the walk starts there. */
  ghost function WalkFromInode(super: Block, d: seq<Block>, ino: nat, ib: Block, o: nat, n: nat, block: Block): Store
    requires R >= 2 && |d| >= 1 && InodeBlockNo(ino) < |d|
  {
    WalkOp(super, d[InodeBlockNo(ino) := ib], o, n, InodeBlockNo(ino), ib, InodeWord(ino), block)
  }

  /** After the write at offset o of file ino, the disk st is valid, with owners owner' and
      free list ch'; that file alone changed, as a sparse array does; and exactly the needed
      blocks were taken. */
  ghost predicate Written(d: seq<Block>, owner: seq<Owner>, ino: nat, o: nat, block: Block,
                          st: Store, owner': seq<Owner>, ch': seq<nat>)
    requires |d| >= 1 && 1 + d[0][0] <= |d| && ino < NInodes(d) && InodeBlockNo(ino) < |d|
  {
    && st.On? && Inv(st.d, owner', ch')
    && |Files(st.d)| == |Files(d)|
    && Files(st.d) == Files(d)[ino := WriteAt(Files(d)[ino], o, block)]
    && |FreeSet(owner)| == |FreeSet(owner')| + Need(d, ino, o)
  }

  /** Where the walk of a write starts: the tree is high enough for o and the inode is on disk. */
  ghost predicate WriteReady(d: seq<Block>, owner: seq<Owner>, ino: nat, o: nat,
                             v: seq<Block>, owner1: seq<Owner>, ch1: seq<nat>, root: nat, n: nat, last: nat)
    requires InodeBlockNo(ino) < |d|
  {
    && Walking(v, owner1, ch1, ino, root, n, last, o, n, InodeBlockNo(ino), InodeWord(ino))
    && WriteSame(d, owner, ino, o, v, owner1, root, n, last)
  }

  /** ... the files are as before, and the blocks needed so far have been taken. */
  ghost predicate WriteSame(d: seq<Block>, owner: seq<Owner>, ino: nat, o: nat,
                            v: seq<Block>, owner1: seq<Owner>, root: nat, n: nat, last: nat)
    requires InodeBlockNo(ino) < |d|
  {
    && n == NewHeight(NBlocks(d, ino), o)
    && |v| == |d|
    && NBlocks(v, ino) == (if o >= NBlocks(d, ino) then o + 1 else NBlocks(d, ino)) && last == NBlocks(v, ino) - 1
    && OthersSame(d, v, ino) && DataSame(d, Root(d, ino), Height(d, ino), v, root, n, {})
    && |FreeSet(owner)| - |FreeSet(owner1)| == n - Height(d, ino) >= 0
    && Need(d, ino, o) == n - Height(d, ino) + Holes(v, root, n, o, n)
  }

  /** A write inside the file. */
  lemma ReadyInside(d: seq<Block>, owner: seq<Owner>, ch: seq<nat>, ino: nat, o: Word)
    requires Inv(d, owner, ch) && ino < NInodes(d) && InodeBlockNo(ino) < |d| && o < NBlocks(d, ino)
    ensures WriteReady(d, owner, ino, o, d, owner, ch, Root(d, ino), Height(d, ino), NBlocks(d, ino) - 1)
  {
    MidStart(d, owner, ch, ino);
    FilesAt(d, owner, ch, ino);
    LevelsIsLeast(o, Height(d, ino));
    LevelsMonotone(o, NBlocks(d, ino) - 1);
    OthersRefl(d, ino);
  }

  /** A write beyond the end, after the new roots have been stacked. */
  lemma ReadyBeyond(d: seq<Block>, owner: seq<Owner>, ch: seq<nat>, ino: nat, o: Word, t: Tree, o1: seq<Owner>, ch1: seq<nat>)
    requires Inv(d, owner, ch) && ino < NInodes(d) && InodeBlockNo(ino) < |d| && o + 1 < WORD_LIMIT
    requires o >= NBlocks(d, ino)
    requires GrowOk(d, owner, Root(d, ino), Height(d, ino), ino, Last(NBlocks(d, ino)), Levels(o), t, o1, ch1)
    ensures var v := t.d[InodeBlockNo(ino) := InodeBlock(d, ino, t.root, o + 1)];
      v[0] == t.super && WriteReady(d, owner, ino, o, v, o1, ch1, t.root, Levels(o), o)
  {
    var n0, n, last := Height(d, ino), Levels(o), Last(NBlocks(d, ino));
    FilesAt(d, owner, ch, ino);
    var v := InodeStored(d, ino, o, t.d, o1, ch1, t.root, n, last);
    assert n > 0 ==> t.root != 0;
    LevelsIsLeast(o, n);
    OthersTrans(d, t.d, v, ino);
    HolesFrame(t.d, t.root, n, v, t.root, n, o, n);
    if n > n0 {
      GrownPathIsEmpty(t.d, o1, ino, t.root, n, last, o);
    }
  }

  /** Writing back the inode of a file that grew to end at offset o. */
  lemma InodeStored(d: seq<Block>, ino: nat, o: Word, td: seq<Block>, o1: seq<Owner>, ch1: seq<nat>, root: Word, n: nat, last: nat)
      returns (v: seq<Block>)
    requires Mid(td, o1, ch1, ino, root, n, last, 0) && last <= o && o + 1 < WORD_LIMIT
    requires InodeBlockNo(ino) < |d| == |td| && td[InodeBlockNo(ino)] == d[InodeBlockNo(ino)]
    ensures v == td[InodeBlockNo(ino) := InodeBlock(d, ino, root, o + 1)] && v[0] == td[0]
    ensures Mid(v, o1, ch1, ino, root, n, o, 0)
    ensures Root(v, ino) == root && NBlocks(v, ino) == o + 1
    ensures OthersSame(td, v, ino) && DataSame(td, root, n, v, root, n, {})
    ensures forall h: nat, x: nat :: NodeAt(v, root, n, 0, h, x) == NodeAt(td, root, n, 0, h, x)
  {
    v := WithInode(td, ino, root, o + 1);
    MidInode(td, o1, ch1, ino, root, n, last, 0, root, o + 1);
    InodeWritten(td, ino, root, o + 1, ino);
    MidExtend(v, o1, ch1, ino, root, n, last, o);
  }

  lemma WriteEnd(d: seq<Block>, owner: seq<Owner>, ch: seq<nat>, ino: nat, o: Word, block: Block,
                 v: seq<Block>, owner1: seq<Owner>, root: nat, n: nat, last: nat, k: nat,
                 st: Store, root': nat, owner': seq<Owner>, ch': seq<nat>)
    requires Inv(d, owner, ch) && ino < NInodes(d) && InodeBlockNo(ino) < |d| && o + 1 < WORD_LIMIT
    requires WriteSame(d, owner, ino, o, v, owner1, root, n, last) && k == Holes(v, root, n, o, n)
    requires WalkOk(v, owner1, ino, root, n, last, o, k, block, st, root', owner', ch')
    ensures Written(d, owner, ino, o, block, st, owner', ch')
  {
    assert OthersSame(d, v, ino) && OthersSame(v, st.d, ino);
    assert DataSame(d, Root(d, ino), Height(d, ino), v, root, n, {}) && DataSame(v, root, n, st.d, root', n, {o});
    WriteEndFiles(d, owner, ch, ino, o, block, v, root, n, st.d, root');
    assert n == Height(st.d, ino) && last == Last(NBlocks(st.d, ino));
    MidEnd(st.d, owner', ch', ino, root', n, last);
  }

  lemma WriteEndFiles(d: seq<Block>, owner: seq<Owner>, ch: seq<nat>, ino: nat, o: Word, block: Block,
                      v: seq<Block>, root: nat, n: nat, d': seq<Block>, root': nat)
    requires Inv(d, owner, ch) && ino < NInodes(d) && InodeBlockNo(ino) < |d|
    requires OthersSame(d, v, ino) && OthersSame(v, d', ino)
    requires DataSame(d, Root(d, ino), Height(d, ino), v, root, n, {})
    requires DataSame(v, root, n, d', root', n, {o}) && DataAt(d', root', n, o) == block
    requires root' == Root(d', ino) && n == Height(d', ino)
    requires NBlocks(d', ino) == if o >= NBlocks(d, ino) then o + 1 else NBlocks(d, ino)
    ensures 1 + d'[0][0] <= |d'| && |Files(d')| == |Files(d)|
    ensures Files(d') == Files(d)[ino := WriteAt(Files(d)[ino], o, block)]
  {
    FilesAt(d, owner, ch, ino);
    OthersTrans(d, v, d', ino);
    WriteDone(d, owner, d', ino, o, block);
  }

  /** The write panics exactly when too few blocks are free. */
  lemma WriteKeeps(d: seq<Block>, owner: seq<Owner>, ch: seq<nat>, ino: nat, o: Word, block: Block, st: Store)
      returns (owner': seq<Owner>, ch': seq<nat>)
    requires Inv(d, owner, ch) && ino < NInodes(d) && InodeBlockNo(ino) < |d| && o + 1 < WORD_LIMIT
    requires st == WriteOp(d, ino, o, block)
    ensures st.Panic? <==> |FreeSet(owner)| < Need(d, ino, o)
    ensures st.On? ==> Written(d, owner, ino, o, block, st, owner', ch')
  {
    var n0, n, last := Height(d, ino), NewHeight(NBlocks(d, ino), o), Last(NBlocks(d, ino));
    FilesAt(d, owner, ch, ino);
    MidStart(d, owner, ch, ino);
    if o < NBlocks(d, ino) {
      ReadyInside(d, owner, ch, ino, o);
      owner', ch' := WriteRest(d, owner, ch, ino, o, block, d, owner, ch, Root(d, ino), n, last, st);
    } else {
      LevelsMonotone(last, o);
      var t := GrowOp(d[0], d, Root(d, ino), n0, n);
      var o1, ch1 := GrowKeeps(d, owner, ch, ino, Root(d, ino), n0, last, n, t);
      owner', ch' := o1, ch1;
      if t.Tree? {
        ReadyBeyond(d, owner, ch, ino, o, t, o1, ch1);
        var v := t.d[InodeBlockNo(ino) := InodeBlock(d, ino, t.root, o + 1)];
        owner', ch' := WriteRest(d, owner, ch, ino, o, block, v, o1, ch1, t.root, n, o, st);
      } else {
        assert Need(d, ino, o) >= n - n0;
      }
    }
  }

  lemma WriteRest(d: seq<Block>, owner: seq<Owner>, ch: seq<nat>, ino: nat, o: Word, block: Block,
                  v: seq<Block>, owner1: seq<Owner>, ch1: seq<nat>, root: nat, n: nat, last: nat, st: Store)
      returns (owner': seq<Owner>, ch': seq<nat>)
    requires Inv(d, owner, ch) && ino < NInodes(d) && InodeBlockNo(ino) < |d| && o + 1 < WORD_LIMIT
    requires WriteReady(d, owner, ino, o, v, owner1, ch1, root, n, last)
    requires st == WalkOp(v[0], v, o, n, InodeBlockNo(ino), v[InodeBlockNo(ino)], InodeWord(ino), block)
    ensures st.Panic? <==> |FreeSet(owner)| < Need(d, ino, o)
    ensures st.On? ==> Written(d, owner, ino, o, block, st, owner', ch')
  {
    var k := Holes(v, root, n, o, n);
    var root';
    root', owner', ch' := WalkKeeps(v, v, owner1, ch1, ino, root, n, last, o, n, InodeBlockNo(ino), InodeWord(ino), block, st, k);
    if st.On? {
      WriteEnd(d, owner, ch, ino, o, block, v, owner1, root, n, last, k, st, root', owner', ch');
    }
  }

  // ----- Reading -----

  datatype Fetch = Bad | Got(block: Block)

  /** The walk of treedisk_read from block b at height nl. */
  ghost function ReadOp(d: seq<Block>, b: Word, o: nat, nl: nat): Fetch
    decreases nl
  {
    if b == 0 then Got(NullBlock())
    else if b >= |d| then Bad
    else if nl == 0 then Got(d[b])
    else ReadOp(d, d[b][Slot(Up(o, nl - 1))], o, nl - 1)
  }

  lemma {:induction false} ReadPathIsData(d: seq<Block>, owner: seq<Owner>, ino: nat, root: nat, n: nat, o: nat, b: Word, nl: nat)
    requires |owner| == |d| && Owns(d, owner, ino, root, n, 0)
    requires nl <= n && b == NodeAt(d, root, n, 0, nl, Up(o, nl))
    ensures ReadOp(d, b, o, nl) == Got(DataAt(d, root, n, o))
    decreases nl
  {
    if nl > 0 {
      UpStep(o, nl - 1);
      if b == 0 {
        HoleReads(d, root, n, o, nl);
      } else {
        ReadPathIsData(d, owner, ino, root, n, o, d[b][Slot(Up(o, nl - 1))], nl - 1);
      }
    }
  }

  /** Below a hole there are only holes, which read as zeros. */
  lemma {:induction false} HoleReads(d: seq<Block>, root: nat, n: nat, o: nat, h: nat)
    requires h <= n && NodeAt(d, root, n, 0, h, Up(o, h)) == 0
    ensures DataAt(d, root, n, o) == NullBlock()
  {
    if h > 0 {
      UpStep(o, h - 1);
      HoleReads(d, root, n, o, h - 1);
    }
  }

  /** A read inside a file finds the contents of the file. */
  lemma ReadIsFile(d: seq<Block>, owner: seq<Owner>, ch: seq<nat>, ino: nat, o: nat)
    requires Inv(d, owner, ch) && ino < NInodes(d)
    ensures InodeBlockNo(ino) < |d| && |Files(d)[ino]| == NBlocks(d, ino)
    ensures o < NBlocks(d, ino) ==> ReadOp(d, Root(d, ino), o, Height(d, ino)) == Got(Files(d)[ino][o])
  {
    FilesAt(d, owner, ch, ino);
    if o < NBlocks(d, ino) {
      var n := Height(d, ino);
      LevelsMonotone(o, NBlocks(d, ino) - 1);
      LevelsIsLeast(o, n);
      ReadPathIsData(d, owner, ino, Root(d, ino), n, o, Root(d, ino), n);
    }
  }
}
