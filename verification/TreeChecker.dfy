/** The integrity checker for tree file systems. */
module TreeChecker {
  import opened Blocks
  import opened Index
  import opened Clock
  import opened TreeLayout
  import opened TreeFS
  import opened TreeCheck

  datatype Info = UNKNOWN | SUPER | INODE | INDIR | DATA | FREELIST | FREE

  ghost function InfoOf(cl: Claim): Info {
    match cl
    case Unknown => UNKNOWN
    case By(o) =>
      match o
      case Super => SUPER
      case Inodes => INODE
      case Node(_, h, _) => if h == 0 then DATA else INDIR
      case FreeList(_) => FREELIST
      case FreeSlot(_, _) => FREE
      case Taken => UNKNOWN
  }

  /** binfo says what own says, but not who the owners are. */
  ghost predicate Shows(binfo: seq<Info>, own: seq<Claim>) {
    && |binfo| == |own|
    && (forall c :: 0 <= c < |own| ==> own[c] != By(Taken) && binfo[c] == InfoOf(own[c]))
  }

  lemma ShowOne(binfo: seq<Info>, own: seq<Claim>, b: nat, o: Owner)
    requires Shows(binfo, own) && b < |own| && o != Taken
    ensures Shows(binfo[b := InfoOf(By(o))], own[b := By(o)])
    ensures binfo[b] == UNKNOWN <==> own[b] == Unknown
  {
    assert own[b].By? ==> own[b].o != Taken;
  }

  /** treedisk_check either writes beyond the end of binfo, when the number of inode blocks is the
      largest 32-bit number, or comes to a verdict. */
  datatype Outcome = Overruns | Result(v: Verdict)

  ghost predicate Ready(below: ClockDisk, binfo: array<Info>)
    reads below, below.Repr(), binfo
  {
    below.Valid() && below.below.reliable && R >= 2 && binfo.Length == |below.Store()|
  }

  /** check_inode */
  method CheckInode(below: ClockDisk, nblocks: Word, node: Word, nlevels: nat, offset0: Word, binfo: array<Info>,
                    ghost ino: nat, ghost x: nat, ghost own: seq<Claim>) returns (ok: bool, ghost own': seq<Claim>)
    requires Ready(below, binfo) && |own| == binfo.Length && Shows(binfo[..], own)
    modifies below.Repr(), binfo
    ensures Ready(below, binfo) && below.Store() == old(below.Store())
    ensures ok <==> CheckOp(old(below.Store()), ino, nblocks, node, nlevels, x, offset0, own).Good?
    ensures ok ==> CheckOp(old(below.Store()), ino, nblocks, node, nlevels, x, offset0, own) == Good(own')
    ensures ok ==> Shows(binfo[..], own')
    decreases nlevels, 0
  {
    own' := own;
    if node == 0 {
      return true, own;
    }
    if node >= binfo.Length {
      return false, own;
    }
    ShowOne(binfo[..], own, node, Node(ino, nlevels, x));
    if binfo[node] != UNKNOWN {
      return false, own;
    }
    own' := own[node := By(Node(ino, nlevels, x))];
    ghost var was := binfo[..];
    if nlevels == 0 {
      binfo[node] := DATA;
      assert binfo[..] == was[node := DATA];
      return true, own';
    }
    binfo[node] := INDIR;
    assert binfo[..] == was[node := INDIR];
    var ib;
    ok, ib := below.Read(node);
    ok, own' := CheckRefs(below, nblocks, ib, nlevels - 1, offset0, binfo, ino, x, own');
  }

  /** The loop of check_inode; nlevels has been decremented. */
  method CheckRefs(below: ClockDisk, nblocks: Word, ib: Block, nlevels: nat, offset0: Word, binfo: array<Info>,
                   ghost ino: nat, ghost x: nat, ghost own: seq<Claim>) returns (ok: bool, ghost own': seq<Claim>)
    requires Ready(below, binfo) && |own| == binfo.Length && Shows(binfo[..], own)
    modifies below.Repr(), binfo
    ensures Ready(below, binfo) && below.Store() == old(below.Store())
    ensures ok <==> CheckRefsOp(old(below.Store()), ino, nblocks, ib, 0, nlevels, x, offset0, own).Good?
    ensures ok ==> CheckRefsOp(old(below.Store()), ino, nblocks, ib, 0, nlevels, x, offset0, own) == Good(own')
    ensures ok ==> Shows(binfo[..], own')
    decreases nlevels, 1
  {
    hide CheckOp, Shows, CheckRefsOp, Coherent, Hits, Misses, Child, Pow2, Size;
    SizeIsShift(nlevels);
    var size := Pow2(nlevels * LOG_RPB);
    ghost var d := below.Store();
    own', ok := own, true;
    var i, offset: Word := 0, offset0;
    while i < R
      invariant 0 <= i <= R && Ready(below, binfo) && below.Store() == d && |own'| == |d| && Shows(binfo[..], own')
      invariant CheckRefsOp(d, ino, nblocks, ib, i, nlevels, x, offset, own') == CheckRefsOp(d, ino, nblocks, ib, 0, nlevels, x, offset0, own)
    {
      RefsStep(d, ino, nblocks, ib, i, nlevels, x, offset, own');
      ok, own' := CheckInode(below, nblocks, ib[i], nlevels, offset, binfo, ino, Child(x, i), own');
      if !ok {
        return;
      }
      offset := (offset + size) % WORD_LIMIT;
      if offset >= nblocks {
        return true, own';
      }
      i := i + 1;
    }
    RefsStep(d, ino, nblocks, ib, i, nlevels, x, offset, own');
    ok := true;
  }

  lemma SizeIsShift(h: nat)
    ensures Pow2(h * LOG_RPB) == Size(h)
  {
    BitsIsProduct(h);
  }

  /** One turn of the loop of check_inode */
  lemma RefsStep(d: seq<Block>, ino: nat, n: Word, ib: Block, i: nat, h: nat, x: nat, offset: nat, own: seq<Claim>)
    requires |own| == |d| && R >= 2
    ensures CheckRefsOp(d, ino, n, ib, i, h, x, offset, own) ==
      if i >= R then Good(own)
      else
        match CheckOp(d, ino, n, ib[i], h, Child(x, i), offset, own)
        case Bad => Bad
        case Good(own1) =>
          if (offset + Size(h)) % WORD_LIMIT >= n then Good(own1)
          else CheckRefsOp(d, ino, n, ib, i + 1, h, x, (offset + Size(h)) % WORD_LIMIT, own1)
  {}

  /** The loop over the inode blocks. */
  method CheckInodes(below: ClockDisk, super: Block, binfo: array<Info>, ghost own: seq<Claim>)
      returns (ok: bool, ghost own': seq<Claim>)
    requires Ready(below, binfo) && |own| == binfo.Length && Shows(binfo[..], own)
    requires 1 <= |below.Store()| && super == below.Store()[0] && 1 + super[0] <= |below.Store()|
    modifies below.Repr(), binfo
    ensures Ready(below, binfo) && below.Store() == old(below.Store())
    ensures ok <==> InodesScan(old(below.Store()), 0, own).Good?
    ensures ok ==> InodesScan(old(below.Store()), 0, own) == Good(own')
    ensures ok ==> |own'| == binfo.Length && Shows(binfo[..], own')
  {
    hide InodesScan, Shows;
    ghost var d := below.Store();
    own', ok := own, true;
    var b: nat := 1;
    while b <= super[0]
      invariant 1 <= b && b - 1 <= super[0]
      invariant Ready(below, binfo) && below.Store() == d && |own'| == |d| && Shows(binfo[..], own')
      invariant InodesScan(d, InodesIn(b - 1), own') == InodesScan(d, 0, own)
    {
      var tib;
      ok, tib := below.Read(b);
      ok, own' := CheckInodeBlock(below, tib, b, binfo, own');
      if !ok {
        return;
      }
      b := b + 1;
    }
    NoMoreInodes(d, own');
    ok := true;
  }

  lemma NoMoreInodes(d: seq<Block>, own: seq<Claim>)
    requires R >= 2 && 1 <= |d| == |own| && 1 + d[0][0] <= |d|
    ensures InodesScan(d, InodesIn(d[0][0]), own) == Good(own)
  {}

  /** The loop over the inodes in a block. */
  method CheckInodeBlock(below: ClockDisk, tib: Block, b: nat, binfo: array<Info>, ghost own: seq<Claim>)
      returns (ok: bool, ghost own': seq<Claim>)
    requires Ready(below, binfo) && |own| == binfo.Length && Shows(binfo[..], own)
    requires 1 <= |below.Store()| && 1 + below.Store()[0][0] <= |below.Store()|
    requires 1 <= b <= below.Store()[0][0] && tib == below.Store()[b]
    modifies below.Repr(), binfo
    ensures Ready(below, binfo) && below.Store() == old(below.Store())
    ensures var d := old(below.Store());
      if ok then
        && |own'| == binfo.Length && Shows(binfo[..], own')
        && InodesScan(d, InodesIn(b - 1), own) == InodesScan(d, InodesIn(b), own')
      else InodesScan(d, InodesIn(b - 1), own) == Bad
  {
    hide CheckOp, Shows, InodesScan;
    ghost var d := below.Store();
    own', ok := own, true;
    ghost var ino := InodesIn(b - 1);
    var i := 0;
    while i < IPB
      invariant 0 <= i <= IPB && ino == InodesIn(b - 1) + i
      invariant Ready(below, binfo) && below.Store() == d && |own'| == |d| && Shows(binfo[..], own')
      invariant InodesScan(d, ino, own') == InodesScan(d, InodesIn(b - 1), own)
    {
      ScanInode(d, b, i, own');
      var root, nblocks := tib[2 * i], tib[2 * i + 1];
      if nblocks != 0 {
        var nlevels := CountLevels(nblocks - 1);
        ok, own' := CheckInode(below, nblocks, root, nlevels, 0, binfo, ino, 0, own');
        if !ok {
          return;
        }
      }
      i, ino := i + 1, ino + 1;
    }
    ok := true;
  }

  /** One step of the scan, with the inode found in its block. */
  lemma ScanInode(d: seq<Block>, b: nat, i: nat, own: seq<Claim>)
    requires R >= 2 && 1 <= |d| == |own| && 1 + d[0][0] <= |d| && 1 <= b <= d[0][0] && i < IPB
    ensures 2 * i + 1 < R
    ensures var ino, root, n := InodesIn(b - 1) + i, d[b][2 * i], d[b][2 * i + 1];
      InodesScan(d, ino, own) ==
        if n == 0 then InodesScan(d, ino + 1, own)
        else
          match CheckOp(d, ino, n, root, Levels(n - 1), 0, 0, own)
          case Bad => Bad
          case Good(own1) => InodesScan(d, ino + 1, own1)
  {
    hide CheckOp;
    InodeAt(b - 1, i);
    InodesInMonotone(b, d[0][0]);
  }

  /** Inode i of inode block q + 1. */
  lemma {:induction false} InodeAt(q: nat, i: nat)
    requires i < IPB
    ensures InodeBlockNo(InodesIn(q) + i) == q + 1 && InodeWord(InodesIn(q) + i) == 2 * i
    ensures InodesIn(q) + i < InodesIn(q + 1) && 2 * i + 1 < R
  {
    RefsBounds();
    if q > 0 { InodeAt(q - 1, i); }
  }

  lemma {:induction false} InodesInMonotone(a: nat, b: nat)
    requires a <= b
    ensures InodesIn(a) <= InodesIn(b)
    decreases b
  {
    if a < b { InodesInMonotone(a, b - 1); }
  }

  /** The loop over the free list. */
  method CheckFreeList(below: ClockDisk, freeList: Word, binfo: array<Info>, ghost own: seq<Claim>)
      returns (ok: bool, ghost own': seq<Claim>)
    requires Ready(below, binfo) && |own| == binfo.Length && Shows(binfo[..], own)
    modifies below.Repr(), binfo
    ensures Ready(below, binfo) && below.Store() == old(below.Store())
    ensures ok <==> ListScan(old(below.Store()), freeList, 0, own).Good?
    ensures ok ==> ListScan(old(below.Store()), freeList, 0, own) == Good(own')
    ensures ok ==> |own'| == binfo.Length && Shows(binfo[..], own')
  {
    hide SlotScan, Hits, Misses;
    ghost var d := below.Store();
    own', ok := own, true;
    ghost var k: nat := 0;
    var fl: Word := freeList;
    while fl != 0
      invariant Ready(below, binfo) && below.Store() == d && |own'| == |d| && Shows(binfo[..], own')
      invariant ListScan(d, fl, k, own') == ListScan(d, freeList, 0, own)
      decreases |UnknownSet(own')|
    {
      if fl >= binfo.Length {
        return false, own';
      }
      ShowOne(binfo[..], own', fl, FreeList(k));
      if binfo[fl] != UNKNOWN {
        return false, own';
      }
      ghost var own0 := own';
      own' := own'[fl := By(FreeList(k))];
      ghost var was := binfo[..];
      binfo[fl] := FREELIST;
      assert binfo[..] == was[fl := FREELIST];
      var tfb;
      ok, tfb := below.Read(fl);
      assert tfb == d[fl];
      ok, own' := CheckSlots(tfb, k, binfo, own');
      if !ok {
        return;
      }
      FewerUnknown(own0, own', fl, FreeList(k));
      fl, k := tfb[0], k + 1;
    }
  }

  /** The loop over the slots of a free list block. */
  method CheckSlots(tfb: Block, ghost k: nat, binfo: array<Info>, ghost own: seq<Claim>)
      returns (ok: bool, ghost own': seq<Claim>)
    requires R >= 2 && |own| == binfo.Length && Shows(binfo[..], own)
    modifies binfo
    ensures ok <==> SlotScan(tfb, 1, k, own).Good?
    ensures ok ==> SlotScan(tfb, 1, k, own) == Good(own')
    ensures ok ==> |own'| == binfo.Length && Shows(binfo[..], own')
  {
    own', ok := own, true;
    for i := 1 to R
      invariant |own'| == binfo.Length && Shows(binfo[..], own')
      invariant SlotScan(tfb, i, k, own') == SlotScan(tfb, 1, k, own)
    {
      if tfb[i] != 0 {
        if tfb[i] >= binfo.Length {
          continue;
        }
        ShowOne(binfo[..], own', tfb[i], FreeSlot(k, i));
        if binfo[tfb[i]] != UNKNOWN {
          return false, own';
        }
        ghost var was := binfo[..];
        binfo[tfb[i]] := FREE;
        own' := own'[tfb[i] := By(FreeSlot(k, i))];
        assert binfo[..] == was[tfb[i] := FREE];
      }
    }
  }

  /** The count of inode blocks is so large that one more, for the superblock, is 0. */
  ghost predicate OverrunsOn(d: seq<Block>)
    requires R >= 2
  {
    |d| > 0 && d[0][0] == WORD_LIMIT - 1 && d[0][1] < |d|
  }

  /** An image of one block, for which the first loop of treedisk_check goes on to entry 2^32 - 1 of binfo */
  lemma OverrunImage() returns (d: seq<Block>)
    ensures R >= 2 && |d| == 1 && OverrunsOn(d) && (1 + d[0][0]) % WORD_LIMIT <= |d| <= d[0][0]
  {
    RefsBounds();
    d := [NullBlock()[0 := WORD_LIMIT - 1]];
  }

  /** treedisk_check */
  method Check(below: ClockDisk) returns (r: Outcome)
    requires below.Valid() && below.below.reliable && R >= 2 && |below.Store()| < WORD_LIMIT
    modifies below.Repr()
    ensures below.Valid() && below.Store() == old(below.Store())
    ensures r == Overruns <==> OverrunsOn(old(below.Store()))
    ensures r.Result? ==> r.v == VerdictOf(old(below.Store()))
  {
    hide InodesScan, ListScan, Shows, UnknownSet, Coherent, Hits, Misses, StartClaims;
    ghost var d := below.Store();
    var n := below.NBlocks();
    if n == 0 {
      return Result(Rejected);
    }
    var ok, super := below.Read(0);
    if (1 + super[0]) % WORD_LIMIT > n || super[1] >= n {
      return Result(Rejected);
    }
    if super[0] == WORD_LIMIT - 1 {
      return Overruns;
    }
    ghost var own;
    var binfo;
    binfo, own := StartInfo(n, super[0], d);
    ok, own := CheckInodes(below, super, binfo, own);
    if !ok {
      return Result(Rejected);
    }
    ok, own := CheckFreeList(below, super[1], binfo, own);
    if !ok {
      return Result(Rejected);
    }
    var leak := AnyUnknown(binfo, own);
    r := Result(Accepted(leak));
  }

  /** The last loop of treedisk_check */
  method AnyUnknown(binfo: array<Info>, ghost own: seq<Claim>) returns (leak: bool)
    requires Shows(binfo[..], own)
    ensures leak <==> UnknownSet(own) != {}
  {
    hide Shows, UnknownSet;
    UnknownSeen(binfo[..], own);
    var b := 0;
    while b < binfo.Length && binfo[b] != UNKNOWN
      invariant 0 <= b <= binfo.Length
      invariant forall c :: 0 <= c < b ==> binfo[..][c] != UNKNOWN
    {
      b := b + 1;
    }
    assert b < binfo.Length ==> binfo[..][b] == UNKNOWN;
    leak := b < binfo.Length;
  }

  /** binfo at first: the superblock and the inode blocks are known. */
  method StartInfo(n: nat, nib: nat, ghost d: seq<Block>) returns (binfo: array<Info>, ghost own: seq<Claim>)
    requires 1 <= n == |d| && nib == d[0][0] && 1 + nib <= n
    ensures fresh(binfo) && binfo.Length == n && own == StartClaims(d) && Shows(binfo[..], own)
  {
    binfo := new Info[n](_ => UNKNOWN);
    binfo[0] := SUPER;
    var b: nat := 1;
    while b <= nib
      invariant 1 <= b <= 1 + nib
      invariant forall c :: 0 <= c < n ==> binfo[c] == if c == 0 then SUPER else if c < b then INODE else UNKNOWN
    {
      binfo[b] := INODE;
      b := b + 1;
    }
    own := StartClaims(d);
  }

  lemma UnknownSeen(binfo: seq<Info>, own: seq<Claim>)
    requires Shows(binfo, own)
    ensures UnknownSet(own) == {} <==> forall c :: 0 <= c < |binfo| ==> binfo[c] != UNKNOWN
  {
    forall c | 0 <= c < |own| ensures own[c] == Unknown <==> binfo[c] == UNKNOWN {
      assert own[c].By? ==> own[c].o != Taken;
    }
    forall c | 0 <= c < |own| && own[c] == Unknown ensures c in UnknownSet(own) {}
  }
}
