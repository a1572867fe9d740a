/** What treedisk_check rejects: only images in which a reference leads off the disk or a block has two roles. */
module TreeReject {
  import opened Blocks
  import opened Index
  import opened TreeLayout
  import opened FreeList
  import opened TreeFS
  import opened TreeFree
  import opened TreeCreate
  import opened TreeCheck

  // ----- One tree -----

  /** The block of node (h, x) is that of another node of the tree, too. */
  ghost predicate Twice(d: seq<Block>, b: nat, H: nat, I: nat, h: nat, x: nat) {
    exists h2: nat, x2: nat :: IsOther(d, b, H, I, h, x, h2, x2)
  }

  ghost predicate IsOther(d: seq<Block>, b: nat, H: nat, I: nat, h: nat, x: nat, h2: nat, x2: nat) {
    (h2 != h || x2 != x) && NodeAt(d, b, H, I, h2, x2) == NodeAt(d, b, H, I, h, x)
  }

  /** Node (h, x) of the tree is a reason to reject it: its block is off the disk, or was met before. */
  ghost predicate IsTrouble(d: seq<Block>, own: seq<Claim>, b: nat, H: nat, I: nat, h: nat, x: nat) {
    var c := NodeAt(d, b, H, I, h, x);
    c != 0 && (c >= |d| || (c < |own| && own[c] != Unknown) || Twice(d, b, H, I, h, x))
  }

  /** Trouble below a child is trouble below the node. */
  lemma {:induction false} ChildTrouble(d: seq<Block>, own: seq<Claim>, b: nat, h: nat, x: nat, i: nat, h2: nat, x2: nat)
    requires 0 < b < |d| && i < R && IsTrouble(d, own, d[b][i], h, Child(x, i), h2, x2)
    ensures IsTrouble(d, own, b, h + 1, x, h2, x2) && Under(h2, x2, h, Child(x, i))
  {
    hide NodeAt, Child;
    NodeIsUnder(d, d[b][i], h, Child(x, i), h2, x2);
    ChildNodeAt(d, b, h, x, i, h2, x2);
    if Twice(d, d[b][i], h, Child(x, i), h2, x2) {
      var h3: nat, x3: nat :| IsOther(d, d[b][i], h, Child(x, i), h2, x2, h3, x3);
      NodeIsUnder(d, d[b][i], h, Child(x, i), h3, x3);
      ChildNodeAt(d, b, h, x, i, h3, x3);
      assert IsOther(d, b, h + 1, x, h2, x2, h3, x3);
    }
  }

  lemma {:induction false} BadTree(d: seq<Block>, ino: nat, n: Word, b: Word, h: nat, x: nat, offset: nat, own: seq<Claim>) returns (h2: nat, x2: nat)
    requires |own| == |d| && R >= 2 && n >= 1 && offset == First(h, x) % WORD_LIMIT
    requires CheckOp(d, ino, n, b, h, x, offset, own) == Bad
    ensures IsTrouble(d, own, b, h, x, h2, x2)
    decreases h, 0
  {
    hide First, CheckRefsOp;
    h2, x2 := h, x;
    if b < |d| && own[b] == Unknown {
      FirstChild(h - 1, x);
      var own1 := own[b := By(Node(ino, h, x))];
      var j;
      h2, x2, j := BadRefs(d, ino, n, b, 0, h - 1, x, offset, own1);
      if NodeAt(d, b, h, x, h2, x2) == b { assert IsOther(d, b, h, x, h2, x2, h, x); }
    }
  }

  lemma {:induction false} BadRefs(d: seq<Block>, ino: nat, n: Word, b: Word, i: nat, h: nat, x: nat, offset: nat, own: seq<Claim>)
      returns (h2: nat, x2: nat, j: nat)
    requires |own| == |d| && R >= 2 && n >= 1 && 0 < b < |d| && i < R && offset == First(h, Child(x, i)) % WORD_LIMIT
    requires CheckRefsOp(d, ino, n, d[b], i, h, x, offset, own) == Bad
    ensures IsTrouble(d, own, b, h + 1, x, h2, x2) && i <= j < R && Under(h2, x2, h, Child(x, j))
    decreases h, 1, R - i
  {
    hide First, Size, CheckOp, NodeAt, IsTrouble, Child, Covered;
    j := i;
    match CheckOp(d, ino, n, d[b][i], h, Child(x, i), offset, own)
    case Bad =>
      h2, x2 := BadTree(d, ino, n, d[b][i], h, Child(x, i), offset, own);
      ChildTrouble(d, own, b, h, x, i, h2, x2);
    case Good(own1) =>
      CheckSound(d, ino, n, d[b][i], h, Child(x, i), offset, own, own1);
      LastChild(d, ino, n, d[b], i, h, x, offset, own, own1);
      NextOffset(h, x, i, offset);
      h2, x2, j := BadRefs(d, ino, n, b, i + 1, h, x, (offset + Size(h)) % WORD_LIMIT, own1);
      LaterTrouble(d, own, own1, ino, b, h, x, i, j, h2, x2);
  }

  lemma LastChild(d: seq<Block>, ino: nat, n: Word, ib: Block, i: nat, h: nat, x: nat, offset: nat, own: seq<Claim>, own1: seq<Claim>)
    requires |own| == |d| && R >= 2 && i < R && CheckRefsOp(d, ino, n, ib, i, h, x, offset, own) == Bad
    requires CheckOp(d, ino, n, ib[i], h, Child(x, i), offset, own) == Good(own1)
    ensures i + 1 < R && CheckRefsOp(d, ino, n, ib, i + 1, h, x, (offset + Size(h)) % WORD_LIMIT, own1) == Bad
  {
    hide CheckOp;
  }

  /** What the scan of child i has claimed was met before it, or is in the tree of child i. */
  lemma {:induction false} LaterTrouble(d: seq<Block>, own: seq<Claim>, own1: seq<Claim>, ino: nat, b: nat, h: nat, x: nat, i: nat, j: nat, h2: nat, x2: nat)
    requires 0 < b < |d| == |own| == |own1| && i < j < R && NewAreNodes(d, own, own1, ino, d[b][i], h, Child(x, i))
    requires IsTrouble(d, own1, b, h + 1, x, h2, x2) && Under(h2, x2, h, Child(x, j))
    ensures IsTrouble(d, own, b, h + 1, x, h2, x2)
  {
    hide NodeAt, Child;
    var c := NodeAt(d, b, h + 1, x, h2, x2);
    if c < |d| && own1[c] != own[c] {
      var h3, x3 := own1[c].o.h, own1[c].o.x;
      NodeIsUnder(d, d[b][i], h, Child(x, i), h3, x3);
      ChildNodeAt(d, b, h, x, i, h3, x3);
      assert IsOther(d, b, h + 1, x, h2, x2, h3, x3);
    }
  }

  // ----- All inodes -----

  /** Block c, which has a role, is off the disk or has another one. */
  ghost predicate IsConflict(d: seq<Block>, walk: seq<nat>, c: nat, role: Owner)
    requires |d| >= 1
  {
    HasRole(d, walk, c, role) && (c >= |d| || HasOther(d, walk, c, role))
  }

  ghost predicate HasOther(d: seq<Block>, walk: seq<nat>, c: nat, role: Owner)
    requires |d| >= 1
  {
    exists r :: r != role && HasRole(d, walk, c, r)
  }

  /** Every claim is a role, and those of nodes are of inodes before ino. */
  ghost predicate ClaimsOk(d: seq<Block>, own: seq<Claim>, walk: seq<nat>, ino: nat)
    requires |d| >= 1
  {
    |own| == |d| && forall c: nat :: c < |own| && own[c].By? ==> HasRole(d, walk, c, own[c].o) && (own[c].o.Node? ==> own[c].o.ino < ino)
  }

  lemma {:induction false} TreeConflict(d: seq<Block>, own: seq<Claim>, ino: nat, h: nat, x: nat) returns (c: nat)
    requires |d| >= 1 && ino < NInodes(d) && InodeBlockNo(ino) < |d| && ClaimsOk(d, own, [], ino)
    requires IsTrouble(d, own, Root(d, ino), Height(d, ino), 0, h, x)
    ensures IsConflict(d, [], c, Node(ino, h, x))
  {
    hide NodeAt;
    c := NodeAt(d, Root(d, ino), Height(d, ino), 0, h, x);
    if c < |d| && own[c] == Unknown {
      var h2: nat, x2: nat :| IsOther(d, Root(d, ino), Height(d, ino), 0, h, x, h2, x2);
      assert HasRole(d, [], c, Node(ino, h2, x2));
    } else if c < |d| {
      assert HasRole(d, [], c, own[c].o) && own[c].o != Node(ino, h, x);
    }
  }

  lemma {:induction false} InodesConflict(d: seq<Block>, ino: nat, own: seq<Claim>) returns (c: nat, role: Owner)
    requires R >= 2 && |d| >= 1 && 1 + d[0][0] <= |d| && ClaimsOk(d, own, [], ino) && InodesScan(d, ino, own) == Bad
    ensures IsConflict(d, [], c, role)
    decreases NInodes(d) - ino
  {
    hide CheckOp, NodeAt, IsConflict, IsTrouble, Covered;
    InodeBlockInRange(d[0][0], ino);
    var n := NBlocks(d, ino);
    if n == 0 {
      c, role := InodesConflict(d, ino + 1, own);
    } else {
      FirstOfRoot(Height(d, ino));
      var r := CheckOp(d, ino, n, Root(d, ino), Height(d, ino), 0, 0, own);
      if r == Bad {
        var h, x := BadTree(d, ino, n, Root(d, ino), Height(d, ino), 0, 0, own);
        c := TreeConflict(d, own, ino, h, x);
        role := Node(ino, h, x);
      } else {
        CheckSound(d, ino, n, Root(d, ino), Height(d, ino), 0, 0, own, r.own);
        ClaimsMore(d, own, r.own, ino);
        c, role := InodesConflict(d, ino + 1, r.own);
      }
    }
  }

  lemma {:induction false} ClaimsMore(d: seq<Block>, own: seq<Claim>, own1: seq<Claim>, ino: nat)
    requires |d| >= 1 && ino < NInodes(d) && InodeBlockNo(ino) < |d| && ClaimsOk(d, own, [], ino) && |own1| == |own|
    requires NewAreNodes(d, own, own1, ino, Root(d, ino), Height(d, ino), 0)
    ensures ClaimsOk(d, own1, [], ino + 1)
  {
    hide NodeAt;
  }

  // ----- The free list -----

  /** walk is the free list from its head on, or the beginning of it; its last block may be off the disk. */
  ghost predicate IsWalk(d: seq<Block>, walk: seq<nat>)
    requires |d| >= 1 && R >= 2
  {
    && (walk != [] ==> walk[0] == d[0][1] != 0)
    && forall j: nat :: IsLink(d, walk, j)
  }

  /** Block j of the list is named by the one before it. */
  ghost predicate IsLink(d: seq<Block>, walk: seq<nat>, j: nat)
    requires R >= 2
  {
    0 < j < |walk| ==> walk[j - 1] < |d| && walk[j] == d[walk[j - 1]][0] != 0
  }

  /** The list goes on with block fl. */
  ghost predicate GoesOn(d: seq<Block>, walk: seq<nat>, fl: nat)
    requires |d| >= 1 && R >= 2
  {
    IsWalk(d, walk) && (forall j :: 0 <= j < |walk| ==> walk[j] < |d|) && fl == if walk == [] then d[0][1] else d[walk[|walk| - 1]][0]
  }

  /** Slot j is a reason to reject: its block was met before, or is in another slot. */
  ghost predicate SlotTrouble(fb: Block, own: seq<Claim>, j: nat) {
    0 < j < R && 0 < fb[j] < |own| && (own[fb[j]] != Unknown || exists l :: 0 < l < R && l != j && fb[l] == fb[j])
  }

  lemma {:induction false} BadSlots(fb: Block, i: nat, k: nat, own: seq<Claim>) returns (j: nat)
    requires 0 < i && SlotScan(fb, i, k, own) == Bad
    ensures i <= j && SlotTrouble(fb, own, j)
    decreases R - i
  {
    if fb[i] == 0 || fb[i] >= |own| {
      j := BadSlots(fb, i + 1, k, own);
    } else if own[fb[i]] != Unknown {
      j := i;
    } else {
      j := BadSlots(fb, i + 1, k, own[fb[i] := By(FreeSlot(k, i))]);
    }
  }

  lemma {:induction false} ListConflict(d: seq<Block>, fl: Word, own: seq<Claim>, done: seq<nat>, ino: nat)
      returns (walk: seq<nat>, c: nat, role: Owner)
    requires |d| >= 1 && R >= 2 && |own| == |d| && ListScan(d, fl, |done|, own) == Bad
    requires GoesOn(d, done, fl) && ClaimsOk(d, own, done, ino)
    ensures IsWalk(d, walk) && IsConflict(d, walk, c, role)
    decreases |UnknownSet(own)|
  {
    hide UnknownSet, SlotScan, IsConflict, ClaimsOk;
    var k := |done|;
    walk := done + [fl as nat];
    WalkMore(d, done, fl);
    ClaimsSize(d, own, done, ino);
    if fl >= |d| || own[fl] != Unknown {
      c, role := fl, FreeList(k);
      HeadConflict(d, own, done, fl, ino);
    } else {
      var own1 := own[fl := By(FreeList(k))];
      HeadClaimed(d, own, done, fl, ino);
      match SlotScan(d[fl], 1, k, own1)
      case Bad =>
        var j := BadSlots(d[fl], 1, k, own1);
        c, role := d[fl][j], FreeSlot(k, j);
        SlotConflict(d, own1, walk, fl, j, ino);
      case Good(own2) =>
        FewerUnknown(own, own2, fl, FreeList(k));
        SlotsSound(d[fl], 1, k, own1, own2);
        SlotsClaimed(d, own1, own2, walk, fl, ino);
        walk, c, role := ListConflict(d, d[fl][0], own2, walk, ino);
    }
  }

  lemma ClaimsSize(d: seq<Block>, own: seq<Claim>, walk: seq<nat>, ino: nat)
    requires |d| >= 1 && ClaimsOk(d, own, walk, ino)
    ensures |own| == |d|
  {}

  lemma WalkMore(d: seq<Block>, done: seq<nat>, fl: nat)
    requires |d| >= 1 && R >= 2 && GoesOn(d, done, fl) && fl != 0
    ensures IsWalk(d, done + [fl]) && (fl < |d| ==> GoesOn(d, done + [fl], d[fl][0]))
  {
    var walk := done + [fl];
    forall j: nat ensures IsLink(d, walk, j) {
      if 0 < j < |done| {
        assert IsLink(d, done, j) && walk[j - 1] == done[j - 1] && walk[j] == done[j];
      } else if 0 < j == |done| {
        assert walk[j - 1] == done[|done| - 1] && walk[j] == fl;
      }
    }
  }

  /** A role in a part of the list is a role in more of it. */
  lemma RoleMore(d: seq<Block>, done: seq<nat>, fl: nat, c: nat, role: Owner)
    requires |d| >= 1 && HasRole(d, done, c, role)
    ensures HasRole(d, done + [fl], c, role)
  {}

  lemma {:induction false} HeadConflict(d: seq<Block>, own: seq<Claim>, done: seq<nat>, fl: nat, ino: nat)
    requires |d| >= 1 && ClaimsOk(d, own, done, ino) && (fl >= |d| || own[fl] != Unknown)
    ensures IsConflict(d, done + [fl], fl, FreeList(|done|))
  {
    if fl < |d| { RoleMore(d, done, fl, fl, own[fl].o); }
  }

  lemma {:induction false} HeadClaimed(d: seq<Block>, own: seq<Claim>, done: seq<nat>, fl: nat, ino: nat)
    requires |d| >= 1 && ClaimsOk(d, own, done, ino) && fl < |d|
    ensures ClaimsOk(d, own[fl := By(FreeList(|done|))], done + [fl], ino)
    ensures NoSlotsYet(own[fl := By(FreeList(|done|))], |done|)
  {
    var own1 := own[fl := By(FreeList(|done|))];
    forall c: nat | c < |own| && own1[c].By? ensures HasRole(d, done + [fl], c, own1[c].o) {
      if c != fl { RoleMore(d, done, fl, c, own[c].o); }
    }
  }

  lemma {:induction false} SlotConflict(d: seq<Block>, own: seq<Claim>, walk: seq<nat>, fl: nat, j: nat, ino: nat)
    requires |d| >= 1 && R >= 2 && ClaimsOk(d, own, walk, ino) && walk != [] && fl == walk[|walk| - 1] < |d|
    requires SlotTrouble(d[fl], own, j) && NoSlotsYet(own, |walk| - 1)
    ensures IsConflict(d, walk, d[fl][j], FreeSlot(|walk| - 1, j))
  {
    var k, c := |walk| - 1, d[fl][j];
    if own[c] != Unknown {
      assert HasRole(d, walk, c, own[c].o);
    } else {
      var l :| 0 < l < R && l != j && d[fl][l] == c;
      assert HasRole(d, walk, c, FreeSlot(k, l));
    }
  }

  ghost predicate NoSlotsYet(own: seq<Claim>, k: nat) {
    forall c :: 0 <= c < |own| && own[c].By? && own[c].o.FreeSlot? ==> own[c].o.j < k
  }

  lemma {:induction false} SlotsClaimed(d: seq<Block>, own: seq<Claim>, own2: seq<Claim>, walk: seq<nat>, fl: nat, ino: nat)
    requires |d| >= 1 && R >= 2 && ClaimsOk(d, own, walk, ino) && walk != [] && fl == walk[|walk| - 1] < |d| && |own2| == |own|
    requires NewInSlots(d[fl], 1, |walk| - 1, own, own2)
    ensures ClaimsOk(d, own2, walk, ino)
  {}

  // ----- The whole disk -----

  lemma StartOk(d: seq<Block>)
    requires |d| >= 1 && 1 + d[0][0] <= |d|
    ensures ClaimsOk(d, StartClaims(d), [], 0)
  {}

  /** An image that is rejected, though its superblock is in order: some reference, in a tree or in the free list, leads off
      the disk, or some block has two roles.  In particular nothing is rejected for leaking blocks. */
  lemma {:induction false} RejectedMeans(d: seq<Block>) returns (walk: seq<nat>, c: nat, role: Owner)
    requires R >= 2 && |d| >= 1 && 1 + d[0][0] <= |d| && d[0][1] < |d| && VerdictOf(d) == Rejected
    ensures IsWalk(d, walk) && IsConflict(d, walk, c, role)
  {
    hide InodesScan, ListScan, IsConflict, ClaimsOk;
    StartOk(d);
    match InodesScan(d, 0, StartClaims(d))
    case Bad =>
      walk := [];
      c, role := InodesConflict(d, 0, StartClaims(d));
    case Good(own) =>
      InodesSound(d, 0, StartClaims(d), own);
      InodesClaimed(d, own);
      walk, c, role := ListConflict(d, d[0][1], own, [], NInodes(d));
  }

  lemma {:induction false} InodesClaimed(d: seq<Block>, own: seq<Claim>)
    requires |d| >= 1 && 1 + d[0][0] <= |d| && |own| == |d| && NewInFiles(d, StartClaims(d), own)
    ensures ClaimsOk(d, own, [], NInodes(d))
  {}
}
