/** What treedisk_check accepts. */
module TreeCheck {
  import opened Blocks
  import opened Index
  import opened TreeLayout
  import opened FreeList
  import opened TreeFS
  import opened TreeFree
  import opened TreeCreate
  import opened TreeRuns

  /** What the scan has found out about a block: the role in which it met the block.  The
      blocks of the free list are numbered from its head here. */
  datatype Claim = Unknown | By(o: Owner)

  /** The state of the scan; Bad when it has met a block twice or a reference off the disk. */
  datatype Scan = Bad | Good(own: seq<Claim>)

  // ----- The scan of one tree -----

  /** The number of offsets below a node at height h. */
  ghost function Size(h: nat): nat {
    Pow2(Bits(h))
  }

  /** check_inode for node (h, x) in block b, whose first offset is offset in 32-bit arithmetic. */
  ghost function CheckOp(d: seq<Block>, ino: nat, n: Word, b: Word, h: nat, x: nat, offset: nat, own: seq<Claim>): (r: Scan)
    requires |own| == |d| && R >= 2
    ensures r.Good? ==> |r.own| == |own|
    decreases h, 0
  {
    if b == 0 then Good(own)
    else if b >= |d| || own[b] != Unknown then Bad
    else if h == 0 then Good(own[b := By(Node(ino, 0, x))])
    else CheckRefsOp(d, ino, n, d[b], 0, h - 1, x, offset, own[b := By(Node(ino, h, x))])
  }

  /** Its loop, over slots i.. of an indirect block; the subtrees are h high. */
  ghost function CheckRefsOp(d: seq<Block>, ino: nat, n: Word, ib: Block, i: nat, h: nat, x: nat, offset: nat, own: seq<Claim>): (r: Scan)
    requires |own| == |d| && R >= 2
    ensures r.Good? ==> |r.own| == |own|
    decreases h, 1, R - i
  {
    if i >= R then Good(own)
    else
      match CheckOp(d, ino, n, ib[i], h, Child(x, i), offset, own)
      case Bad => Bad
      case Good(own1) =>
        if (offset + Size(h)) % WORD_LIMIT >= n then Good(own1)
        else CheckRefsOp(d, ino, n, ib, i + 1, h, x, (offset + Size(h)) % WORD_LIMIT, own1)
  }

  // ----- Offsets of nodes -----

  /** The first offset below node (h, x): x * Size(h). */
  ghost function First(h: nat, x: nat): nat {
    if x == 0 then 0 else First(h, x - 1) + Size(h)
  }

  lemma {:induction false} FirstIsProduct(h: nat, x: nat)
    ensures First(h, x) == Size(h) * x
  {
    if x > 0 {
      FirstIsProduct(h, x - 1);
      assert Size(h) * x == Size(h) * (x - 1) + Size(h);
    }
  }

  /** Node (h, x) lies on or before the path to offset o exactly if it starts no later. */
  lemma FirstBound(h: nat, x: nat, o: nat)
    ensures First(h, x) <= o <==> x <= Up(o, h)
  {
    FirstIsProduct(h, x);
    UpIsDivision(o, h);
    FloorBound(o, Size(h), x);
    MulCommutes(Size(h), x);
  }

  lemma FirstChild(h: nat, x: nat)
    ensures R >= 1 && First(h, Child(x, 0)) == First(h + 1, x)
  {
    RefsBounds();
    FirstIsProduct(h + 1, x);
    FirstIsProduct(h, Child(x, 0));
    ChildIsProduct(x);
    Pow2Add(LOG_RPB, Bits(h));
    Reassociate(R, Size(h), x);
  }

  lemma Reassociate(a: nat, b: nat, x: nat)
    ensures b * (a * x) == (a * b) * x
  {}

  lemma {:induction false} ChildIsProduct(x: nat)
    ensures R >= 1 && Child(x, 0) == R * x
  {
    RefsBounds();
    if x > 0 {
      ChildIsProduct(x - 1);
      assert R * x == R * (x - 1) + R;
    }
  }

  /** The node covers an offset of a file of n blocks. */
  ghost predicate InRange(n: nat, h: nat, x: nat) {
    x <= Up(Last(n), h)
  }

  /** Everything below a node out of range is out of range. */
  lemma OutOfRange(n: nat, h: nat, x: nat, h2: nat, x2: nat)
    requires n >= 1 && First(h, x) >= n && Under(h2, x2, h, x)
    ensures !InRange(n, h2, x2)
  {
    FirstBound(h, x, n - 1);
    if InRange(n, h2, x2) {
      UpMonotone(x2, Up(n - 1, h2), h - h2);
      UpUp(n - 1, h2, h - h2);
    }
  }

  /** Where the loop over the children stops, the children left are out of range. */
  lemma StopsOutOfRange(n: Word, h: nat, x: nat, i: nat, j: nat, offset: nat)
    requires i < j < R && n >= 1
    requires offset == First(h, Child(x, i)) % WORD_LIMIT && (offset + Size(h)) % WORD_LIMIT >= n
    ensures First(h, Child(x, j)) >= n
  {
    NextOffset(h, x, i, offset);
    var f := First(h, Child(x, i + 1));
    var q, r := DivMod(f, WORD_LIMIT);
    ChildIndex(x, i + 1);
    ChildIndex(x, j);
    FirstMonotone(h, Child(x, i + 1), Child(x, j));
  }

  lemma NextOffset(h: nat, x: nat, i: nat, offset: nat)
    requires i + 1 < R && offset == First(h, Child(x, i)) % WORD_LIMIT
    ensures (offset + Size(h)) % WORD_LIMIT == First(h, Child(x, i + 1)) % WORD_LIMIT
  {
    ChildIndex(x, i);
    ChildIndex(x, i + 1);
    assert First(h, Child(x, i + 1)) == First(h, Child(x, i)) + Size(h);
  }

  lemma {:induction false} FirstMonotone(h: nat, x: nat, y: nat)
    requires x <= y
    ensures First(h, x) <= First(h, y)
    decreases y
  {
    if x < y { FirstMonotone(h, x, y - 1); }
  }

  // ----- What a scan of one tree finds -----

  /** Every node of the tree that is in range is on the disk and claimed in its role. */
  ghost predicate Covered(d: seq<Block>, own: seq<Claim>, ino: nat, n: nat, b: nat, h: nat, x: nat) {
    forall h2: nat, x2: nat :: NodeAt(d, b, h, x, h2, x2) != 0 && InRange(n, h2, x2) ==>
      NodeAt(d, b, h, x, h2, x2) < |own| && own[NodeAt(d, b, h, x, h2, x2)] == By(Node(ino, h2, x2))
  }

  ghost predicate Grew(own: seq<Claim>, own': seq<Claim>) {
    && |own'| == |own|
    && forall c :: 0 <= c < |own| && own[c] != Unknown ==> own'[c] == own[c]
  }

  /** What is newly claimed is a node of the tree. */
  ghost predicate NewAreNodes(d: seq<Block>, own: seq<Claim>, own': seq<Claim>, ino: nat, b: nat, h: nat, x: nat)
    requires |own'| == |own|
  {
    forall c :: 0 <= c < |own| && own'[c] != own[c] ==>
      c != 0 && IsNodeClaim(own'[c], ino) && NodeAt(d, b, h, x, own'[c].o.h, own'[c].o.x) == c
  }

  ghost predicate IsNodeClaim(cl: Claim, ino: nat) {
    cl.By? && IsNode(cl.o, ino)
  }

  ghost predicate Scanned(d: seq<Block>, own: seq<Claim>, own': seq<Claim>, ino: nat, n: nat, b: nat, h: nat, x: nat) {
    Grew(own, own') && Covered(d, own', ino, n, b, h, x) && NewAreNodes(d, own, own', ino, b, h, x)
  }

  lemma {:induction false} CheckSound(d: seq<Block>, ino: nat, n: Word, b: Word, h: nat, x: nat, offset: nat, own: seq<Claim>, own': seq<Claim>)
    requires |own| == |d| && R >= 2 && n >= 1
    requires offset == First(h, x) % WORD_LIMIT
    requires CheckOp(d, ino, n, b, h, x, offset, own) == Good(own')
    ensures Scanned(d, own, own', ino, n, b, h, x)
    decreases h, 0
  {
    hide Covered, NodeAt, NewAreNodes, First, CheckRefsOp;
    if b == 0 {
      HoleScanned(d, own, ino, n, h, x);
    } else if h > 0 {
      FirstChild(h - 1, x);
      var own1 := own[b := By(Node(ino, h, x))];
      CheckRefsSound(d, ino, n, b, 0, h - 1, x, offset, own1, own');
      TopCovered(d, own', ino, n, b, h - 1, x);
      TopIsNode(d, own, own', ino, b, h - 1, x);
    } else {
      LeafScanned(d, own, ino, n, b, x);
    }
  }

  lemma HoleScanned(d: seq<Block>, own: seq<Claim>, ino: nat, n: nat, h: nat, x: nat)
    ensures Scanned(d, own, own, ino, n, 0, h, x)
  {
    forall h2: nat, x2: nat ensures NodeAt(d, 0, h, x, h2, x2) == 0 { HoleNodeAt(d, h, x, h2, x2); }
  }

  lemma LeafScanned(d: seq<Block>, own: seq<Claim>, ino: nat, n: nat, b: nat, x: nat)
    requires 0 < b < |own| && own[b] == Unknown
    ensures Scanned(d, own, own[b := By(Node(ino, 0, x))], ino, n, b, 0, x)
  {
    hide InRange;
    assert forall h2: nat, x2: nat :: NodeAt(d, b, 0, x, h2, x2) != 0 ==> h2 == 0 && x2 == x;
  }

  /** All in-range nodes below children i.. of the node in block b are claimed. */
  ghost predicate RefsCovered(d: seq<Block>, own: seq<Claim>, ino: nat, n: nat, b: nat, i: nat, h: nat, x: nat)
    requires b < |d|
  {
    forall j {:trigger Child(x, j)} :: i <= j < R ==> Covered(d, own, ino, n, d[b][j], h, Child(x, j))
  }

  ghost predicate RefsAreNodes(d: seq<Block>, own: seq<Claim>, own': seq<Claim>, ino: nat, b: nat, h: nat, x: nat)
    requires |own'| == |own| && 0 < b < |d|
  {
    forall c :: 0 <= c < |own| && own'[c] != own[c] ==>
      c != 0 && IsNodeClaim(own'[c], ino) && NodeAt(d, b, h + 1, x, own'[c].o.h, own'[c].o.x) == c
  }

  lemma {:induction false} CheckRefsSound(d: seq<Block>, ino: nat, n: Word, b: Word, i: nat, h: nat, x: nat, offset: nat, own: seq<Claim>, own': seq<Claim>)
    requires |own| == |d| && R >= 2 && n >= 1 && 0 < b < |d| && i < R
    requires offset == First(h, Child(x, i)) % WORD_LIMIT
    requires CheckRefsOp(d, ino, n, d[b], i, h, x, offset, own) == Good(own')
    ensures Grew(own, own') && RefsCovered(d, own', ino, n, b, i, h, x)
    ensures RefsAreNodes(d, own, own', ino, b, h, x)
    decreases h, 1, R - i
  {
    hide Covered, NodeAt, First, Size, CheckOp, NewAreNodes;
    var own1 := CheckOp(d, ino, n, d[b][i], h, Child(x, i), offset, own).own;
    CheckSound(d, ino, n, d[b][i], h, Child(x, i), offset, own, own1);
    ChildIsNode(d, own, own1, ino, b, h, x, i);
    if (offset + Size(h)) % WORD_LIMIT >= n {
      forall j | i < j < R ensures Covered(d, own1, ino, n, d[b][j], h, Child(x, j)) {
        StopsOutOfRange(n, h, x, i, j, offset);
        OutOfRangeCovered(d, own1, ino, n, d[b][j], h, Child(x, j));
      }
    } else if i + 1 < R {
      NextOffset(h, x, i, offset);
      CheckRefsSound(d, ino, n, b, i + 1, h, x, (offset + Size(h)) % WORD_LIMIT, own1, own');
      CoveredGrows(d, own1, own', ino, n, d[b][i], h, Child(x, i));
    }
  }

  lemma OutOfRangeCovered(d: seq<Block>, own: seq<Claim>, ino: nat, n: nat, b: nat, h: nat, x: nat)
    requires n >= 1 && First(h, x) >= n
    ensures Covered(d, own, ino, n, b, h, x)
  {
    forall h2: nat, x2: nat | NodeAt(d, b, h, x, h2, x2) != 0 ensures !InRange(n, h2, x2) {
      NodeIsUnder(d, b, h, x, h2, x2);
      OutOfRange(n, h, x, h2, x2);
    }
  }

  lemma CoveredGrows(d: seq<Block>, own: seq<Claim>, own': seq<Claim>, ino: nat, n: nat, b: nat, h: nat, x: nat)
    requires Covered(d, own, ino, n, b, h, x) && Grew(own, own')
    ensures Covered(d, own', ino, n, b, h, x)
  {}

  lemma ChildIsNode(d: seq<Block>, own: seq<Claim>, own': seq<Claim>, ino: nat, b: nat, h: nat, x: nat, i: nat)
    requires 0 < b < |d| == |own| == |own'| && i < R && NewAreNodes(d, own, own', ino, d[b][i], h, Child(x, i))
    ensures RefsAreNodes(d, own, own', ino, b, h, x)
  {
    forall c | 0 <= c < |own| && own'[c] != own[c]
      ensures NodeAt(d, b, h + 1, x, own'[c].o.h, own'[c].o.x) == c
    {
      ChildNodeAt(d, b, h, x, i, own'[c].o.h, own'[c].o.x);
    }
  }

  lemma TopCovered(d: seq<Block>, own: seq<Claim>, ino: nat, n: nat, b: nat, h: nat, x: nat)
    requires 0 < b < |d| == |own| && own[b] == By(Node(ino, h + 1, x)) && RefsCovered(d, own, ino, n, b, 0, h, x)
    ensures Covered(d, own, ino, n, b, h + 1, x)
  {
    forall h2: nat, x2: nat | NodeAt(d, b, h + 1, x, h2, x2) != 0 && InRange(n, h2, x2)
      ensures NodeAt(d, b, h + 1, x, h2, x2) < |own|
      ensures own[NodeAt(d, b, h + 1, x, h2, x2)] == By(Node(ino, h2, x2))
    {
      if h2 <= h {
        NodeIsUnder(d, b, h + 1, x, h2, x2);
        var y := Up(x2, h - h2);
        UpStep(x2, h - h2);
        ChildOf(y);
        ChildNodeAt(d, b, h, x, Slot(y), h2, x2);
        assert Covered(d, own, ino, n, d[b][Slot(y)], h, Child(x, Slot(y)));
      }
    }
  }

  lemma TopIsNode(d: seq<Block>, own: seq<Claim>, own': seq<Claim>, ino: nat, b: nat, h: nat, x: nat)
    requires 0 < b < |d| == |own| == |own'| && own[b] == Unknown
    requires Grew(own[b := By(Node(ino, h + 1, x))], own')
    requires RefsAreNodes(d, own[b := By(Node(ino, h + 1, x))], own', ino, b, h, x)
    ensures NewAreNodes(d, own, own', ino, b, h + 1, x)
  {
    assert own'[b] == By(Node(ino, h + 1, x)) && NodeAt(d, b, h + 1, x, h + 1, x) == b;
  }

  // ----- The scan of a tree of a valid disk -----

  /** Exactly the blocks in s have been met, each in its role. */
  ghost function ClaimsOf(owner: seq<Owner>, s: set<nat>): (own: seq<Claim>)
    ensures |own| == |owner|
    ensures forall c: nat :: c < |own| ==> own[c] == if c in s then By(owner[c]) else Unknown
  {
    seq(|owner|, c requires 0 <= c < |owner| => if c in s then By(owner[c]) else Unknown)
  }

  ghost predicate NodesInRange(owner: seq<Owner>, ino: nat, n: nat) {
    forall c {:trigger IsNode(owner[c], ino)} :: 0 <= c < |owner| && IsNode(owner[c], ino) ==> InRange(n, owner[c].h, owner[c].x)
  }

  lemma {:induction false} CheckComplete(d: seq<Block>, owner: seq<Owner>, ino: nat, n: Word, b: Word, h: nat, x: nat, offset: nat, s: set<nat>)
    requires |owner| == |d| && R >= 2 && n >= 1 && offset == First(h, x) % WORD_LIMIT
    requires Owns(d, owner, ino, b, h, x) && NodesInRange(owner, ino, n) && s !! TreeSet(owner, ino, h, x)
    ensures CheckOp(d, ino, n, b, h, x, offset, ClaimsOf(owner, s)) == Good(ClaimsOf(owner, s + TreeSet(owner, ino, h, x)))
    decreases h, 0
  {
    hide Owns, TreeSet, RefsSet;
    if b == 0 {
      HoleHasNoNodes(d, owner, ino, h, x);
      assert s + TreeSet(owner, ino, h, x) == s;
    } else {
      TopNode(d, owner, ino, b, h, x);
      InTreeSet(owner, ino, b, h, x);
      ClaimOne(owner, s, b);
      if h == 0 {
        LeafTree(owner, ino, x, b);
      } else {
        FirstChild(h - 1, x);
        OwnsChildren(d, owner, ino, b, 0, h - 1, x);
        TreeIsRefs(owner, ino, h - 1, x, b);
        CheckRefsComplete(d, owner, ino, n, d[b], 0, h - 1, x, offset, s + {b});
        assert s + TreeSet(owner, ino, h, x) == s + {b} + RefsSet(owner, ino, h - 1, x, 0);
      }
    }
  }

  lemma InTreeSet(owner: seq<Owner>, ino: nat, b: nat, h: nat, x: nat)
    requires b < |owner| && owner[b] == Node(ino, h, x)
    ensures b in TreeSet(owner, ino, h, x)
  {}

  lemma ClaimOne(owner: seq<Owner>, s: set<nat>, b: nat)
    requires b < |owner|
    ensures ClaimsOf(owner, s)[b := By(owner[b])] == ClaimsOf(owner, s + {b})
  {}

  lemma {:induction false} CheckRefsComplete(d: seq<Block>, owner: seq<Owner>, ino: nat, n: Word, ib: Block, i: nat, h: nat, x: nat, offset: nat, s: set<nat>)
    requires |owner| == |d| && R >= 2 && n >= 1 && i <= R && (i < R ==> offset == First(h, Child(x, i)) % WORD_LIMIT)
    requires OwnsRefs(d, owner, ino, ib, i, h, x) && NodesInRange(owner, ino, n) && s !! RefsSet(owner, ino, h, x, i)
    ensures CheckRefsOp(d, ino, n, ib, i, h, x, offset, ClaimsOf(owner, s)) == Good(ClaimsOf(owner, s + RefsSet(owner, ino, h, x, i)))
    decreases h, 1, R - i
  {
    hide Owns, TreeSet, RefsSet, First, Size, NodesInRange, CheckOp;
    if i == R {
      NoRefsLeft(owner, ino, h, x);
      assert s + RefsSet(owner, ino, h, x, i) == s;
    } else {
      RefsSplit(owner, ino, h, x, i);
      var t := TreeSet(owner, ino, h, Child(x, i));
      CheckComplete(d, owner, ino, n, ib[i], h, Child(x, i), offset, s);
      assert s + RefsSet(owner, ino, h, x, i) == s + t + RefsSet(owner, ino, h, x, i + 1);
      if (offset + Size(h)) % WORD_LIMIT >= n {
        NoneInRange(owner, ino, n, h, x, i, offset);
        assert s + t + RefsSet(owner, ino, h, x, i + 1) == s + t;
      } else {
        if i + 1 < R { NextOffset(h, x, i, offset); }
        CheckRefsComplete(d, owner, ino, n, ib, i + 1, h, x, (offset + Size(h)) % WORD_LIMIT, s + t);
      }
    }
  }

  lemma NoRefsLeft(owner: seq<Owner>, ino: nat, h: nat, x: nat)
    ensures RefsSet(owner, ino, h, x, R) == {}
  {}

  /** A valid file has no nodes where the scan does not look. */
  lemma NoneInRange(owner: seq<Owner>, ino: nat, n: Word, h: nat, x: nat, i: nat, offset: nat)
    requires NodesInRange(owner, ino, n) && n >= 1 && i < R
    requires offset == First(h, Child(x, i)) % WORD_LIMIT && (offset + Size(h)) % WORD_LIMIT >= n
    ensures RefsSet(owner, ino, h, x, i + 1) == {}
  {
    hide First, Size, InRange;
    var s := RefsSet(owner, ino, h, x, i + 1);
    forall c: nat | c in s ensures false {
      var y := Up(owner[c].x, h - owner[c].h);
      ChildOf(y);
      StopsOutOfRange(n, h, x, i, Slot(y), offset);
      OutOfRange(n, h, y, owner[c].h, owner[c].x);
    }
  }

  // ----- The scan of the whole disk -----

  ghost function StartClaims(d: seq<Block>): (own: seq<Claim>)
    requires |d| >= 1
    ensures |own| == |d|
    ensures forall c :: 0 <= c < |own| ==> own[c] == if c == 0 then By(Super) else if c <= d[0][0] then By(Inodes) else Unknown
  {
    seq(|d|, c requires 0 <= c => if c == 0 then By(Super) else if c <= d[0][0] then By(Inodes) else Unknown)
  }

  /** The inodes from ino on. */
  ghost function InodesScan(d: seq<Block>, ino: nat, own: seq<Claim>): (r: Scan)
    requires R >= 2 && 1 <= |d| == |own| && 1 + d[0][0] <= |d|
    ensures r.Good? ==> |r.own| == |own|
    decreases NInodes(d) - ino
  {
    if ino >= NInodes(d) then Good(own)
    else (
      InodeBlockInRange(d[0][0], ino);
      if NBlocks(d, ino) == 0 then InodesScan(d, ino + 1, own)
      else
        match CheckOp(d, ino, NBlocks(d, ino), Root(d, ino), Height(d, ino), 0, 0, own)
        case Bad => Bad
        case Good(own1) => InodesScan(d, ino + 1, own1)
    )
  }

  ghost function UnknownSet(own: seq<Claim>): set<nat> {
    set c: nat | c < |own| && own[c] == Unknown
  }

  /** Slots i.. of block k of the free list. */
  ghost function SlotScan(fb: Block, i: nat, k: nat, own: seq<Claim>): (r: Scan)
    ensures r.Good? ==> |r.own| == |own| && UnknownSet(r.own) <= UnknownSet(own)
    decreases R - i
  {
    if i >= R then Good(own)
    else if fb[i] == 0 || fb[i] >= |own| then SlotScan(fb, i + 1, k, own)
    else if own[fb[i]] != Unknown then Bad
    else SlotScan(fb, i + 1, k, own[fb[i] := By(FreeSlot(k, i))])
  }

  /** The free list from its block k, fl, on.  Every step meets a new block: even a cyclic
      list is left in the end. */
  ghost function ListScan(d: seq<Block>, fl: Word, k: nat, own: seq<Claim>): (r: Scan)
    requires |own| == |d| && R >= 2
    ensures r.Good? ==> |r.own| == |own|
    decreases |UnknownSet(own)|
  {
    if fl == 0 then Good(own)
    else if fl >= |d| || own[fl] != Unknown then Bad
    else
      var own1 := own[fl := By(FreeList(k))];
      match SlotScan(d[fl], 1, k, own1)
      case Bad => Bad
      case Good(own2) =>
        FewerUnknown(own, own2, fl, FreeList(k));
        ListScan(d, d[fl][0], k + 1, own2)
  }

  lemma FewerUnknown(own: seq<Claim>, own2: seq<Claim>, fl: nat, o: Owner)
    requires fl < |own| && own[fl] == Unknown && UnknownSet(own2) <= UnknownSet(own[fl := By(o)])
    ensures |UnknownSet(own2)| < |UnknownSet(own)|
  {
    SubsetSize(UnknownSet(own2), UnknownSet(own) - {fl});
    assert fl in UnknownSet(own);
    SetOne(UnknownSet(own), fl);
  }

  lemma {:induction false} SubsetSize<T>(a: set<T>, b: set<T>)
    requires a <= b
    ensures |a| <= |b|
    decreases a
  {
    if a != {} {
      var x :| x in a;
      SubsetSize(a - {x}, b - {x});
      SetOne(b, x);
    }
  }

  ghost function ScanAll(d: seq<Block>): (r: Scan)
    requires R >= 2 && |d| >= 1 && 1 + d[0][0] <= |d|
    ensures r.Good? ==> |r.own| == |d|
  {
    match InodesScan(d, 0, StartClaims(d))
    case Bad => Bad
    case Good(own) => ListScan(d, d[0][1], 0, own)
  }

  /** What treedisk_check returns, and whether it reports a leak. */
  datatype Verdict = Rejected | Accepted(leak: bool)

  ghost function VerdictOf(d: seq<Block>): Verdict
    requires R >= 2
  {
    if |d| == 0 || 1 + d[0][0] > |d| || d[0][1] >= |d| then Rejected
    else
      match ScanAll(d)
      case Bad => Rejected
      case Good(own) => Accepted(UnknownSet(own) != {})
  }

  // ----- What acceptance means -----

  /** Only the in-range nodes of files that are not empty are looked at. */
  ghost predicate Live(d: seq<Block>, role: Owner)
    requires |d| >= 1 && 1 + d[0][0] <= |d|
  {
    role.Node? ==>
      && role.ino < NInodes(d) && InodeBlockNo(role.ino) < |d|
      && NBlocks(d, role.ino) > 0 && InRange(NBlocks(d, role.ino), role.h, role.x)
  }

  /** The live nodes of the inodes lo .. hi have been met. */
  ghost predicate InodesMet(d: seq<Block>, own: seq<Claim>, lo: nat)
    requires 1 <= |d| == |own| && 1 + d[0][0] <= |d|
  {
    forall ino: nat :: lo <= ino < NInodes(d) && InodeBlockNo(ino) < |d| && NBlocks(d, ino) > 0 ==>
      Covered(d, own, ino, NBlocks(d, ino), Root(d, ino), Height(d, ino), 0)
  }

  /** Whatever is newly claimed is a node of some file. */
  ghost predicate NewInFiles(d: seq<Block>, own: seq<Claim>, own': seq<Claim>)
    requires 1 <= |d| == |own| == |own'|
  {
    forall c: nat :: c < |own| && own'[c] != own[c] ==>
      own'[c].By? && own'[c].o.Node? && HasRole(d, [], c, own'[c].o)
  }

  lemma {:induction false} InodesSound(d: seq<Block>, ino: nat, own: seq<Claim>, own': seq<Claim>)
    requires R >= 2 && 1 <= |d| == |own| && 1 + d[0][0] <= |d|
    requires InodesScan(d, ino, own) == Good(own')
    ensures Grew(own, own') && InodesMet(d, own', ino) && NewInFiles(d, own, own')
    decreases NInodes(d) - ino
  {
    hide Covered, NodeAt, CheckOp, First;
    if ino < NInodes(d) {
      InodeBlockInRange(d[0][0], ino);
      var n := NBlocks(d, ino);
      if n == 0 {
        InodesSound(d, ino + 1, own, own');
      } else {
        var own1 := CheckOp(d, ino, n, Root(d, ino), Height(d, ino), 0, 0, own).own;
        FirstOfRoot(Height(d, ino));
        CheckSound(d, ino, n, Root(d, ino), Height(d, ino), 0, 0, own, own1);
        InodesSound(d, ino + 1, own1, own');
        CoveredGrows(d, own1, own', ino, n, Root(d, ino), Height(d, ino), 0);
      }
    }
  }

  lemma FirstOfRoot(h: nat)
    ensures First(h, 0) % WORD_LIMIT == 0
  {}

  /** walk is the free list that starts at block fl. */
  ghost predicate ListFrom(d: seq<Block>, fl: nat, walk: seq<nat>)
    requires R >= 2
    decreases |walk|
  {
    if fl == 0 then walk == []
    else walk != [] && walk[0] == fl < |d| && ListFrom(d, d[fl][0], walk[1..])
  }

  ghost predicate SlotsMet(fb: Block, i: nat, k: nat, own: seq<Claim>) {
    forall j :: i <= j < R && 0 < fb[j] < |own| ==> own[fb[j]] == By(FreeSlot(k, j))
  }

  ghost predicate NewInSlots(fb: Block, i: nat, k: nat, own: seq<Claim>, own': seq<Claim>)
    requires |own'| == |own|
  {
    forall c :: 0 <= c < |own| && own'[c] != own[c] ==>
      && c != 0 && own'[c].By? && own'[c].o.FreeSlot?
      && own'[c].o.j == k && i <= own'[c].o.i < R && fb[own'[c].o.i] == c
  }

  lemma {:induction false} SlotsSound(fb: Block, i: nat, k: nat, own: seq<Claim>, own': seq<Claim>)
    requires SlotScan(fb, i, k, own) == Good(own')
    ensures Grew(own, own') && SlotsMet(fb, i, k, own') && NewInSlots(fb, i, k, own, own')
    decreases R - i
  {
    if i < R {
      if fb[i] == 0 || fb[i] >= |own| {
        SlotsSound(fb, i + 1, k, own, own');
      } else {
        SlotsSound(fb, i + 1, k, own[fb[i] := By(FreeSlot(k, i))], own');
      }
    }
  }

  /** The list blocks, numbered from k, and their slots have been met. */
  ghost predicate ListMet(d: seq<Block>, walk: seq<nat>, k: nat, own: seq<Claim>) {
    forall j :: 0 <= j < |walk| ==>
      walk[j] < |d| && walk[j] < |own| && own[walk[j]] == By(FreeList(k + j)) && SlotsMet(d[walk[j]], 1, k + j, own)
  }

  ghost predicate NewInList(d: seq<Block>, walk: seq<nat>, k: nat, own: seq<Claim>, own': seq<Claim>)
    requires |own'| == |own|
  {
    forall c :: 0 <= c < |own| && own'[c] != own[c] ==>
      && c != 0 && own'[c].By? && (own'[c].o.FreeList? || own'[c].o.FreeSlot?)
      && k <= own'[c].o.j < k + |walk| && walk[own'[c].o.j - k] < |d|
      && (own'[c].o.FreeList? ==> walk[own'[c].o.j - k] == c)
      && (own'[c].o.FreeSlot? ==> 1 <= own'[c].o.i < R && d[walk[own'[c].o.j - k]][own'[c].o.i] == c)
  }

  lemma {:induction false} ListSound(d: seq<Block>, fl: Word, k: nat, own: seq<Claim>, own': seq<Claim>) returns (walk: seq<nat>)
    requires |own| == |d| && R >= 2 && ListScan(d, fl, k, own) == Good(own')
    ensures ListFrom(d, fl, walk) && Grew(own, own')
    ensures ListMet(d, walk, k, own') && NewInList(d, walk, k, own, own')
    decreases |UnknownSet(own)|
  {
    hide SlotScan, UnknownSet;
    walk := [];
    if fl != 0 {
      var own1 := own[fl := By(FreeList(k))];
      var own2 := SlotScan(d[fl], 1, k, own1).own;
      SlotsSound(d[fl], 1, k, own1, own2);
      FewerUnknown(own, own2, fl, FreeList(k));
      var rest := ListSound(d, d[fl][0], k + 1, own2, own');
      walk := [fl] + rest;
      assert walk[1..] == rest;
      HeadMet(d, fl, rest, k, own, own2, own');
    }
  }

  lemma HeadMet(d: seq<Block>, fl: nat, rest: seq<nat>, k: nat, own: seq<Claim>, own2: seq<Claim>, own': seq<Claim>)
    requires |own| == |d| == |own2| && 0 < fl < |d| && own[fl] == Unknown
    requires Grew(own[fl := By(FreeList(k))], own2) && Grew(own2, own')
    requires SlotsMet(d[fl], 1, k, own2) && NewInSlots(d[fl], 1, k, own[fl := By(FreeList(k))], own2)
    requires ListMet(d, rest, k + 1, own') && NewInList(d, rest, k + 1, own2, own')
    ensures ListMet(d, [fl] + rest, k, own') && NewInList(d, [fl] + rest, k, own, own')
  {
    var walk := [fl] + rest;
    forall j | 0 <= j < |walk|
      ensures walk[j] < |d| && own'[walk[j]] == By(FreeList(k + j)) && SlotsMet(d[walk[j]], 1, k + j, own')
    {
      if j > 0 { assert walk[j] == rest[j - 1]; }
    }
    forall c | 0 <= c < |own| && own'[c] != own[c] && own'[c] != own2[c]
      ensures own'[c].By? && own'[c].o.j > k && walk[own'[c].o.j - k] == rest[own'[c].o.j - k - 1]
    {}
  }

  /** An accepted image: no live reference leads off the disk, no block has two roles, and if no
      leak was reported every block has one. */
  lemma AcceptedMeans(d: seq<Block>) returns (walk: seq<nat>)
    requires R >= 2 && VerdictOf(d).Accepted?
    ensures |d| >= 1 && 1 + d[0][0] <= |d| && ListFrom(d, d[0][1], walk)
    ensures forall ino: nat, h: nat, x: nat :: Live(d, Node(ino, h, x)) ==> OnDisk(d, ino, h, x)
    ensures forall c: nat, a, b :: c < |d| && LiveRole(d, walk, c, a) && LiveRole(d, walk, c, b) ==> a == b
    ensures !VerdictOf(d).leak ==> forall c: nat :: c < |d| ==> InUse(d, walk, c)
    ensures VerdictOf(d).leak ==> exists c: nat :: c < |d| && !InLiveUse(d, walk, c)
  {
    hide InodesScan, ListScan;
    var own0 := StartClaims(d);
    var own1 := InodesScan(d, 0, own0).own;
    var own := ListScan(d, d[0][1], 0, own1).own;
    InodesSound(d, 0, own0, own1);
    walk := ListSound(d, d[0][1], 0, own1, own);
    RolesMet(d, walk, own0, own1, own);
    ClaimsAreRoles(d, walk, own0, own1, own);
    forall ino: nat, h: nat, x: nat | Live(d, Node(ino, h, x)) ensures OnDisk(d, ino, h, x) {
      assert Covered(d, own1, ino, NBlocks(d, ino), Root(d, ino), Height(d, ino), 0);
    }
    if VerdictOf(d).leak {
      var c: nat :| c in UnknownSet(own);
      assert !InLiveUse(d, walk, c);
    } else {
      forall c: nat | c < |d| ensures InUse(d, walk, c) {
        assert c !in UnknownSet(own);
        assert HasRole(d, walk, c, own[c].o);
      }
    }
  }

  ghost predicate OnDisk(d: seq<Block>, ino: nat, h: nat, x: nat)
    requires InodeBlockNo(ino) < |d|
  {
    NodeAt(d, Root(d, ino), Height(d, ino), 0, h, x) < |d|
  }

  ghost predicate LiveRole(d: seq<Block>, walk: seq<nat>, c: nat, role: Owner)
    requires |d| >= 1 && 1 + d[0][0] <= |d|
  {
    HasRole(d, walk, c, role) && Live(d, role)
  }

  ghost predicate InUse(d: seq<Block>, walk: seq<nat>, c: nat)
    requires |d| >= 1
  {
    exists role :: HasRole(d, walk, c, role)
  }

  ghost predicate InLiveUse(d: seq<Block>, walk: seq<nat>, c: nat)
    requires |d| >= 1 && 1 + d[0][0] <= |d|
  {
    exists role :: LiveRole(d, walk, c, role)
  }

  lemma RolesMet(d: seq<Block>, walk: seq<nat>, own0: seq<Claim>, own1: seq<Claim>, own: seq<Claim>)
    requires 1 <= |d| == |own0| && 1 + d[0][0] <= |d| && own0 == StartClaims(d)
    requires Grew(own0, own1) && Grew(own1, own) && InodesMet(d, own1, 0) && ListMet(d, walk, 0, own)
    ensures forall c: nat, role :: c < |d| && LiveRole(d, walk, c, role) ==> own[c] == By(role)
  {
    forall c: nat, role | c < |d| && LiveRole(d, walk, c, role) ensures own[c] == By(role) {
      if role.Node? {
        assert Covered(d, own1, role.ino, NBlocks(d, role.ino), Root(d, role.ino), Height(d, role.ino), 0);
      }
    }
  }

  lemma ClaimsAreRoles(d: seq<Block>, walk: seq<nat>, own0: seq<Claim>, own1: seq<Claim>, own: seq<Claim>)
    requires 1 <= |d| == |own0| == |own1| == |own| && 1 + d[0][0] <= |d| && own0 == StartClaims(d)
    requires NewInFiles(d, own0, own1) && NewInList(d, walk, 0, own1, own)
    ensures forall c: nat :: c < |d| && own[c].By? ==> HasRole(d, walk, c, own[c].o)
  {
    forall c: nat | c < |d| && own[c].By? ensures HasRole(d, walk, c, own[c].o) {
      if own[c] == own1[c] && own1[c] != own0[c] {
        assert HasRole(d, [], c, own1[c].o);
      }
    }
  }

  // ----- Valid disks are accepted -----

  /** The owners, with the blocks of the free list numbered from its head. */
  ghost function FromHead(owner: seq<Owner>, m: nat): (o: seq<Owner>)
    requires forall c :: 0 <= c < |owner| && IsFree(owner[c]) ==> owner[c].j < m
    ensures |o| == |owner|
    ensures forall c :: 0 <= c < |owner| ==> o[c] == Flip(owner[c], m)
  {
    seq(|owner|, c requires 0 <= c < |owner| => Flip(owner[c], m))
  }

  ghost function Flip(o: Owner, m: nat): Owner
    requires IsFree(o) ==> o.j < m
  {
    match o
    case FreeList(j) => FreeList(m - 1 - j)
    case FreeSlot(j, i) => FreeSlot(m - 1 - j, i)
    case _ => o
  }

  ghost function FixedSet(o: seq<Owner>): set<nat> {
    set c: nat | c < |o| && (o[c].Super? || o[c].Inodes?)
  }

  ghost function NodesFrom(o: seq<Owner>, lo: nat): set<nat> {
    set c: nat | c < |o| && o[c].Node? && o[c].ino >= lo
  }

  lemma {:induction false} InodesComplete(d: seq<Block>, o: seq<Owner>, ino: nat, s: set<nat>)
    requires R >= 2 && 1 <= |d| == |o| && 1 + d[0][0] <= |d|
    requires forall k: nat :: k < NInodes(d) ==> FileOk(d, o, k)
    requires forall c :: 0 <= c < |o| && o[c].Node? ==> o[c].ino < NInodes(d)
    requires s !! NodesFrom(o, ino)
    ensures InodesScan(d, ino, ClaimsOf(o, s)) == Good(ClaimsOf(o, s + NodesFrom(o, ino)))
    decreases NInodes(d) - ino
  {
    hide CheckOp, Owns;
    if ino >= NInodes(d) {
      assert s + NodesFrom(o, ino) == s;
    } else {
      InodeBlockInRange(d[0][0], ino);
      assert FileOk(d, o, ino);
      var n, t := NBlocks(d, ino), TreeSet(o, ino, Height(d, ino), 0);
      AllUnderRoot(d, o, ino, Root(d, ino), Height(d, ino), Last(n));
      NodesFromNext(o, ino);
      assert s + NodesFrom(o, ino) == s + t + NodesFrom(o, ino + 1);
      if n == 0 {
        HoleHasNoNodes(d, o, ino, Height(d, ino), 0);
        assert s + t == s;
      } else {
        FirstOfRoot(Height(d, ino));
        CheckComplete(d, o, ino, n, Root(d, ino), Height(d, ino), 0, 0, s);
      }
      InodesComplete(d, o, ino + 1, s + t);
    }
  }

  lemma NodesFromNext(o: seq<Owner>, ino: nat)
    ensures NodesFrom(o, ino) == NodesOf(o, ino) + NodesFrom(o, ino + 1)
    ensures NodesOf(o, ino) !! NodesFrom(o, ino + 1)
  {}

  ghost function SlotsFrom(o: seq<Owner>, k: nat, i: nat): set<nat> {
    set c: nat | c < |o| && o[c].FreeSlot? && o[c].j == k && o[c].i >= i
  }

  /** The slots of list block k name exactly the blocks that are owned by them. */
  ghost predicate SlotsAgree(fb: Block, k: nat, o: seq<Owner>) {
    && (forall j :: 1 <= j < R && fb[j] != 0 ==> fb[j] < |o| && o[fb[j]] == FreeSlot(k, j))
    && (forall c :: 0 <= c < |o| && o[c].FreeSlot? && o[c].j == k ==> 1 <= o[c].i < R && fb[o[c].i] == c && c != 0)
  }

  lemma {:induction false} SlotsComplete(fb: Block, i: nat, k: nat, o: seq<Owner>, s: set<nat>)
    requires 1 <= i && SlotsAgree(fb, k, o) && s !! SlotsFrom(o, k, i)
    ensures SlotScan(fb, i, k, ClaimsOf(o, s)) == Good(ClaimsOf(o, s + SlotsFrom(o, k, i)))
    decreases R - i
  {
    if i >= R {
      assert s + SlotsFrom(o, k, i) == s;
    } else if fb[i] == 0 {
      assert SlotsFrom(o, k, i) == SlotsFrom(o, k, i + 1);
      SlotsComplete(fb, i + 1, k, o, s);
    } else {
      assert SlotsFrom(o, k, i) == {fb[i] as nat} + SlotsFrom(o, k, i + 1);
      ClaimOne(o, s, fb[i]);
      SlotsComplete(fb, i + 1, k, o, s + {fb[i] as nat});
      assert s + SlotsFrom(o, k, i) == s + {fb[i] as nat} + SlotsFrom(o, k, i + 1);
    }
  }

  /** The free blocks in list blocks k.. and the list blocks themselves. */
  ghost function ListFromK(o: seq<Owner>, k: nat): set<nat> {
    set c: nat | c < |o| && IsFree(o[c]) && o[c].j >= k
  }

  /** The list blocks of chain, which is kept from its end, are owned as such ... */
  ghost predicate ListLinks(d: seq<Block>, o: seq<Owner>, chain: seq<nat>)
    requires |o| == |d| && R >= 2
  {
    && (forall j :: 0 <= j < |chain| ==>
          0 < chain[j] < |d| && o[chain[j]] == FreeList(|chain| - 1 - j) && SlotsAgree(d[chain[j]], |chain| - 1 - j, o))
    && (forall j {:trigger d[chain[j]]} :: 0 <= j < |chain| ==> d[chain[j]][0] == if j == 0 then 0 else chain[j - 1])
  }

  /** ... and no other block is. */
  ghost predicate ListBacks(o: seq<Owner>, chain: seq<nat>) {
    forall c :: 0 <= c < |o| && IsFree(o[c]) ==>
      o[c].j < |chain| && (o[c].FreeList? ==> chain[|chain| - 1 - o[c].j] == c)
  }

  ghost predicate ListAgrees(d: seq<Block>, o: seq<Owner>, chain: seq<nat>)
    requires |o| == |d| && R >= 2
  {
    ListLinks(d, o, chain) && ListBacks(o, chain)
  }

  lemma {:induction false} ListComplete(d: seq<Block>, o: seq<Owner>, chain: seq<nat>, k: nat, fl: Word, s: set<nat>)
    requires |o| == |d| && R >= 2 && ListAgrees(d, o, chain) && k <= |chain|
    requires fl == (if k == |chain| then 0 else chain[|chain| - 1 - k]) && s !! ListFromK(o, k)
    ensures ListScan(d, fl, k, ClaimsOf(o, s)) == Good(ClaimsOf(o, s + ListFromK(o, k)))
    decreases |chain| - k
  {
    hide SlotScan, SlotsAgree, ListAgrees, ListFromK, SlotsFrom;
    if k == |chain| {
      NothingListed(d, o, chain);
      assert s + ListFromK(o, k) == s;
    } else {
      ListBlock(d, o, chain, k);
      var s1, t := s + {fl as nat}, SlotsFrom(o, k, 1);
      ClaimOne(o, s, fl);
      ListSplit(d, o, chain, k, fl);
      SlotsComplete(d[fl], 1, k, o, s1);
      ListComplete(d, o, chain, k + 1, d[fl][0], s1 + t);
      assert s + ListFromK(o, k) == s1 + t + ListFromK(o, k + 1);
    }
  }

  lemma NothingListed(d: seq<Block>, o: seq<Owner>, chain: seq<nat>)
    requires |o| == |d| && R >= 2 && ListAgrees(d, o, chain)
    ensures ListFromK(o, |chain|) == {}
  {}

  lemma ListBlock(d: seq<Block>, o: seq<Owner>, chain: seq<nat>, k: nat)
    requires |o| == |d| && R >= 2 && ListAgrees(d, o, chain) && k < |chain|
    ensures var fl := chain[|chain| - 1 - k];
      && 0 < fl < |d| && o[fl] == FreeList(k) && SlotsAgree(d[fl], k, o)
      && d[fl][0] == (if k + 1 == |chain| then 0 else chain[|chain| - 2 - k])
  {
    hide SlotsAgree;
    assert 0 < chain[|chain| - 1 - k] < |d|;
  }

  lemma ListSplit(d: seq<Block>, o: seq<Owner>, chain: seq<nat>, k: nat, fl: nat)
    requires |o| == |d| && R >= 2 && ListAgrees(d, o, chain) && k < |chain| && fl == chain[|chain| - 1 - k]
    ensures ListFromK(o, k) == {fl} + SlotsFrom(o, k, 1) + ListFromK(o, k + 1)
    ensures fl !in SlotsFrom(o, k, 1) && ({fl} + SlotsFrom(o, k, 1)) !! ListFromK(o, k + 1)
  {
    OneListBlock(d, o, chain, k);
    SplitSets(o, k, fl);
  }

  lemma OneListBlock(d: seq<Block>, o: seq<Owner>, chain: seq<nat>, k: nat)
    requires |o| == |d| && R >= 2 && ListAgrees(d, o, chain) && k < |chain|
    ensures var fl := chain[|chain| - 1 - k];
      fl < |d| && o[fl] == FreeList(k) && SlotsAgree(d[fl], k, o) && forall c :: 0 <= c < |o| && o[c] == FreeList(k) ==> c == fl
  {
    hide ListLinks, SlotsAgree;
    ListBlock(d, o, chain, k);
  }

  lemma SplitSets(o: seq<Owner>, k: nat, fl: nat)
    requires fl < |o| && o[fl] == FreeList(k) && forall c :: 0 <= c < |o| && o[c] == FreeList(k) ==> c == fl
    requires forall c :: 0 <= c < |o| && o[c].FreeSlot? && o[c].j == k ==> o[c].i >= 1
    ensures ListFromK(o, k) == {fl} + SlotsFrom(o, k, 1) + ListFromK(o, k + 1)
    ensures fl !in SlotsFrom(o, k, 1) && ({fl} + SlotsFrom(o, k, 1)) !! ListFromK(o, k + 1)
  {
  }

  ghost predicate Flipped(d: seq<Block>, owner: seq<Owner>, chain: seq<nat>, o: seq<Owner>) {
    && |o| == |owner| == |d|
    && forall c :: 0 <= c < |d| ==> (IsFree(owner[c]) ==> owner[c].j < |chain|) && o[c] == Flip(owner[c], |chain|)
  }

  /** Flipping the numbers of the free list leaves the files alone. */
  lemma FlippedFiles(d: seq<Block>, owner: seq<Owner>, chain: seq<nat>, o: seq<Owner>)
    requires Inv(d, owner, chain)
    requires Flipped(d, owner, chain, o)
    ensures forall k: nat :: k < NInodes(d) ==> FileOk(d, o, k)
  {
    forall k: nat | k < NInodes(d) ensures FileOk(d, o, k) {
      assert FileOk(d, owner, k);
      FileOkFrame(d, d, owner, o, k);
    }
  }

  lemma FlippedSlots(d: seq<Block>, owner: seq<Owner>, chain: seq<nat>, o: seq<Owner>, j: nat)
    requires FreeInv(d, owner, chain) && Flipped(d, owner, chain, o) && j < |chain|
    ensures chain[j] < |d| && SlotsAgree(d[chain[j]], |chain| - 1 - j, o)
  {
    hide Layout, ChainOk;
    ChainAt(d, owner, chain, j);
    var k, fb := |chain| - 1 - j, d[chain[j]];
    forall i | 1 <= i < R && fb[i] != 0 ensures fb[i] < |o| && o[fb[i]] == FreeSlot(k, i) {
      assert owner[d[chain[j]][i]] == FreeSlot(j, i);
    }
    forall c | 0 <= c < |o| && o[c].FreeSlot? && o[c].j == k ensures 1 <= o[c].i < R && fb[o[c].i] == c {
      assert owner[c] == FreeSlot(j, o[c].i);
    }
    assert owner[0] == Super && o[0] == Super by { SuperIsSuper(d, owner); }
  }

  lemma ChainAt(d: seq<Block>, owner: seq<Owner>, chain: seq<nat>, j: nat)
    requires Layout(d, owner) && ChainOk(d, owner, chain) && j < |chain|
    ensures 0 < chain[j] < |d| && owner[chain[j]] == FreeList(j)
    ensures d[chain[j]][0] == if j == 0 then 0 else chain[j - 1]
  {}

  lemma ChainBack(d: seq<Block>, owner: seq<Owner>, chain: seq<nat>, c: nat)
    requires FreeInv(d, owner, chain) && c < |d|
    ensures IsFree(owner[c]) ==> owner[c].j < |chain|
    ensures owner[c].FreeList? ==> chain[owner[c].j] == c
  {}

  lemma SuperIsSuper(d: seq<Block>, owner: seq<Owner>)
    requires Layout(d, owner)
    ensures owner[0] == Super
  {}

  lemma FlippedList(d: seq<Block>, owner: seq<Owner>, chain: seq<nat>, o: seq<Owner>)
    requires FreeInv(d, owner, chain) && Flipped(d, owner, chain, o)
    ensures ListAgrees(d, o, chain)
  {
    hide SlotsAgree, SlotsOk, ChainOk, Layout;
    forall j | 0 <= j < |chain|
      ensures 0 < chain[j] < |d| && o[chain[j]] == FreeList(|chain| - 1 - j) && SlotsAgree(d[chain[j]], |chain| - 1 - j, o)
      ensures d[chain[j]][0] == if j == 0 then 0 else chain[j - 1]
    {
      ChainAt(d, owner, chain, j);
      FlippedSlots(d, owner, chain, o, j);
    }
    forall c | 0 <= c < |o|
      ensures IsFree(o[c]) ==> o[c].j < |chain|
      ensures o[c].FreeList? ==> chain[|chain| - 1 - o[c].j] == c
    {
      ChainBack(d, owner, chain, c);
    }
  }

  /** A valid disk is accepted, and no block is reported as unaccounted for. */
  lemma ValidIsAccepted(d: seq<Block>, owner: seq<Owner>, chain: seq<nat>)
    requires Inv(d, owner, chain)
    ensures R >= 2 && VerdictOf(d) == Accepted(false)
  {
    hide ListScan, InodesScan, ChainOk, SlotsOk, FileOk, ListAgrees, NodesFrom, ListFromK;
    NumbersInChain(d, owner, chain);
    var o := FromHead(owner, |chain|);
    FlippedFiles(d, owner, chain, o);
    FlippedList(d, owner, chain, o);
    var s := FixedSet(o);
    StartOwners(d, owner, o, |chain|, s);
    InodesComplete(d, o, 0, s);
    ListComplete(d, o, chain, 0, d[0][1], s + NodesFrom(o, 0));
    AllMet(d, owner, o, |chain|, s);
  }

  lemma NumbersInChain(d: seq<Block>, owner: seq<Owner>, chain: seq<nat>)
    requires FreeInv(d, owner, chain)
    ensures forall c :: 0 <= c < |owner| && IsFree(owner[c]) ==> owner[c].j < |chain|
    ensures d[0][1] == (if chain == [] then 0 else chain[|chain| - 1]) && d[0][1] < |d|
  {}

  lemma StartOwners(d: seq<Block>, owner: seq<Owner>, o: seq<Owner>, m: nat, s: set<nat>)
    requires Layout(d, owner) && |o| == |d| && s == FixedSet(o)
    requires forall c :: 0 <= c < |owner| ==> (IsFree(owner[c]) ==> owner[c].j < m) && o[c] == Flip(owner[c], m)
    ensures StartClaims(d) == ClaimsOf(o, s)
    ensures s !! NodesFrom(o, 0) && s + NodesFrom(o, 0) !! ListFromK(o, 0)
    ensures forall c :: 0 <= c < |o| && o[c].Node? ==> o[c].ino < NInodes(d)
  {}

  lemma AllMet(d: seq<Block>, owner: seq<Owner>, o: seq<Owner>, m: nat, s: set<nat>)
    requires Layout(d, owner) && NoneTaken(owner) && |o| == |d| && s == FixedSet(o)
    requires forall c :: 0 <= c < |owner| ==> (IsFree(owner[c]) ==> owner[c].j < m) && o[c] == Flip(owner[c], m)
    ensures UnknownSet(ClaimsOf(o, s + NodesFrom(o, 0) + ListFromK(o, 0))) == {}
  {
    forall c: nat | c < |d| ensures c in s || c in NodesFrom(o, 0) || c in ListFromK(o, 0) {}
  }

  /** So is every disk that any run of calls can make of a new one. */
  lemma ReachableIsAccepted(d: seq<Block>, nib: nat, es: seq<Event>, d': seq<Block>)
    requires IsFresh(d, nib) && Reaches(d, es, d')
    ensures R >= 2 && VerdictOf(d') == Accepted(false)
  {
    var owner, chain := AnyRun(d, nib, es, d');
    ValidIsAccepted(d', owner, chain);
  }
}
