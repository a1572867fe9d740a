/** Whole runs of treedisk_write and treedisk_setsize(0) over all the inodes of a new disk. */
module TreeRuns {
  import opened Blocks
  import opened Index
  import opened TreeLayout
  import opened FreeList
  import opened TreeFS
  import opened TreeOps
  import opened TreeFree
  import opened TreeCreate

  datatype Event =
    | Wrote(ino: nat, o: Word, block: Block)
    | Emptied(ino: nat)

  /** The disk after one call; Stopped if the call panics, never ends, or writes at the largest
      32-bit offset. */
  datatype Run = Stopped | At(d: seq<Block>)

  ghost function StepOp(d: seq<Block>, e: Event): Run
    requires R >= 2 && |d| >= 1 && 1 + d[0][0] <= |d|
  {
    if e.ino >= NInodes(d) then At(d) else (
      InodeBlockInRange(d[0][0], e.ino);
      match e
      case Wrote(ino, o, block) =>
        if o + 1 == WORD_LIMIT || WriteOp(d, ino, o, block).Panic? then Stopped
        else At(WriteOp(d, ino, o, block).d)
      case Emptied(ino) =>
        if NBlocks(d, ino) == 0 then At(d)
        else if NBlocks(d, ino) > MaxFreeable() then Stopped
        else EmptyOp(d, ino)
    )
  }

  ghost function EmptyOp(d: seq<Block>, ino: nat): Run
    requires R >= 2 && InodeBlockNo(ino) < |d|
  {
    match FreeTreeOp(d[0], d, Root(d, ino), Height(d, ino))
    case Panic => Stopped
    case On(super, d1) =>
      if |d1| != |d| then Stopped
      else At(d1[InodeBlockNo(ino) := EmptyInode(d[InodeBlockNo(ino)], ino)])
  }

  ghost predicate IsDisk(d: seq<Block>) {
    R >= 2 && |d| >= 1 && 1 + d[0][0] <= |d|
  }

  /** d' is reached from d by the calls es, none of which stopped. */
  ghost predicate Reaches(d: seq<Block>, es: seq<Event>, d': seq<Block>)
    decreases |es|
  {
    if es == [] then d' == d
    else exists v :: Reaches(d, es[..|es| - 1], v) && IsDisk(v) && StepOp(v, es[|es| - 1]) == At(d')
  }

  // ----- What the files hold after a run, told from the calls alone -----

  /** Inode ino was not emptied by call k or later. */
  ghost predicate KeptSince(es: seq<Event>, k: nat, ino: nat) {
    forall j :: k <= j < |es| ==> es[j] != Emptied(ino)
  }

  /** Call k wrote b at offset o of the file, and that is what is there now. */
  ghost predicate WroteLast(es: seq<Event>, k: nat, ino: nat, o: nat, b: Block) {
    && k < |es| && es[k].Wrote? && es[k].ino == ino && es[k].o == o && es[k].block == b
    && KeptSince(es, k, ino)
    && forall j :: k < j < |es| && es[j].Wrote? && es[j].ino == ino ==> es[j].o != o
  }

  /** Call k wrote at or beyond offset o, and the file was not emptied since. */
  ghost predicate Covers(es: seq<Event>, k: nat, ino: nat, o: nat) {
    k < |es| && es[k].Wrote? && es[k].ino == ino && es[k].o >= o && KeptSince(es, k, ino)
  }

  ghost predicate InFile(es: seq<Event>, ino: nat, o: nat) {
    exists k: nat :: Covers(es, k, ino, o)
  }

  /** The file is as long as the last writes since it was emptied made it; an offset holds the
      last block written there since, or zeros. */
  ghost predicate FileIs(es: seq<Event>, ino: nat, f: seq<Block>) {
    && (forall o: nat :: o < |f| <==> InFile(es, ino, o))
    && (forall o: nat, k: nat, b: Block :: WroteLast(es, k, ino, o, b) ==> o < |f| && f[o] == b)
    && (forall o: nat :: o < |f| && (forall k: nat, b: Block :: !WroteLast(es, k, ino, o, b)) ==> f[o] == NullBlock())
  }

  // ----- One call -----

  ghost function FileAfter(f: seq<Block>, ino: nat, e: Event): seq<Block> {
    if e.ino != ino then f
    else match e
      case Wrote(_, o, block) => WriteAt(f, o, block)
      case Emptied(_) => []
  }

  lemma NothingYet(ino: nat)
    ensures FileIs([], ino, [])
  {}

  lemma StepKeeps(d: seq<Block>, owner: seq<Owner>, ch: seq<nat>, e: Event, d': seq<Block>)
      returns (owner': seq<Owner>, ch': seq<nat>)
    requires Inv(d, owner, ch) && IsDisk(d) && StepOp(d, e) == At(d')
    ensures IsDisk(d') && Inv(d', owner', ch') && |Files(d')| == |Files(d)|
    ensures forall ino: nat :: ino < |Files(d)| ==> Files(d')[ino] == FileAfter(Files(d)[ino], ino, e)
  {
    owner', ch' := owner, ch;
    if e.ino < NInodes(d) {
      InodeBlockInRange(d[0][0], e.ino);
      match e
      case Wrote(ino, o, block) =>
        owner', ch' := WriteKeeps(d, owner, ch, ino, o, block, WriteOp(d, ino, o, block));
      case Emptied(ino) =>
        if NBlocks(d, ino) == 0 {
          FilesAt(d, owner, ch, ino);
        } else {
          owner', ch' := TruncateKeeps(d, owner, ch, ino, FreeTreeOp(d[0], d, Root(d, ino), Height(d, ino)));
        }
    }
  }

  // ----- What the next call does to the history -----

  lemma KeptAfter(es: seq<Event>, e: Event, k: nat, ino: nat)
    requires k < |es|
    ensures KeptSince(es + [e], k, ino) <==> KeptSince(es, k, ino) && e != Emptied(ino)
  {
    var es' := es + [e];
    assert es'[|es|] == e && forall j :: 0 <= j < |es| ==> es'[j] == es[j];
  }

  lemma CoversAfter(es: seq<Event>, e: Event, k: nat, ino: nat, o: nat)
    ensures Covers(es + [e], k, ino, o) <==>
      if k < |es| then Covers(es, k, ino, o) && e != Emptied(ino)
      else k == |es| && e.Wrote? && e.ino == ino && e.o >= o
  {
    if k < |es| { KeptAfter(es, e, k, ino); }
  }

  lemma WroteLastAfter(es: seq<Event>, e: Event, k: nat, ino: nat, o: nat, b: Block)
    ensures WroteLast(es + [e], k, ino, o, b) <==>
      if k < |es| then
        WroteLast(es, k, ino, o, b) && e != Emptied(ino) && !(e.Wrote? && e.ino == ino && e.o == o)
      else k == |es| && e.Wrote? && e.ino == ino && e.o == o && e.block == b
  {
    var es' := es + [e];
    assert forall j :: 0 <= j < |es| ==> es'[j] == es[j];
    if k < |es| {
      KeptAfter(es, e, k, ino);
      assert es'[|es|] == e;
    }
  }

  lemma FileIsAfter(es: seq<Event>, e: Event, ino: nat, f: seq<Block>)
    requires FileIs(es, ino, f)
    ensures FileIs(es + [e], ino, FileAfter(f, ino, e))
  {
    var g, es' := FileAfter(f, ino, e), es + [e];
    SizeAfter(es, e, ino, f);
    forall o: nat, k: nat, b: Block | WroteLast(es', k, ino, o, b) ensures o < |g| && g[o] == b {
      WroteLastAfter(es, e, k, ino, o, b);
    }
    forall o: nat | o < |g| && (forall k: nat, b: Block :: !WroteLast(es', k, ino, o, b)) ensures g[o] == NullBlock() {
      forall k: nat, b: Block ensures WroteLast(es, k, ino, o, b) ==> e == Emptied(ino) || (e.Wrote? && e.ino == ino && e.o == o) {
        WroteLastAfter(es, e, k, ino, o, b);
      }
      if e.Wrote? { WroteLastAfter(es, e, |es|, ino, o, e.block); }
    }
  }

  lemma SizeAfter(es: seq<Event>, e: Event, ino: nat, f: seq<Block>)
    requires FileIs(es, ino, f)
    ensures forall o: nat :: o < |FileAfter(f, ino, e)| <==> InFile(es + [e], ino, o)
  {
    var g, es' := FileAfter(f, ino, e), es + [e];
    forall o: nat ensures o < |g| <==> InFile(es', ino, o) {
      assert o < |f| <==> InFile(es, ino, o);
      if o < |g| {
        var k: nat;
        if e.Wrote? && e.ino == ino && e.o >= o {
          k := |es|;
        } else {
          k :| Covers(es, k, ino, o);
        }
        CoversAfter(es, e, k, ino, o);
        assert Covers(es', k, ino, o);
      }
      if InFile(es', ino, o) {
        var k: nat :| Covers(es', k, ino, o);
        CoversAfter(es, e, k, ino, o);
        if k < |es| { assert InFile(es, ino, o); }
      }
    }
  }

  /** Over any run, every block keeps exactly one role, and each file holds what the calls
      that named its inode put there. */
  lemma {:induction false} AnyRun(d: seq<Block>, nib: nat, es: seq<Event>, d': seq<Block>)
      returns (owner: seq<Owner>, ch: seq<nat>)
    requires IsFresh(d, nib) && Reaches(d, es, d')
    ensures IsDisk(d') && Inv(d', owner, ch) && |Files(d')| == InodesIn(nib)
    ensures forall ino: nat :: ino < |Files(d')| ==> FileIs(es, ino, Files(d')[ino])
    decreases |es|
  {
    hide IsFresh, Inv, Files, StepOp, FileIs, FileAfter, IsFree;
    FreshSize(d, nib);
    if es == [] {
      owner, ch := FreshOwners(nib + 1, |d|), FreshChain(nib + 1, |d|);
      FreshInv(d, nib, owner, ch);
      forall ino: nat | ino < |Files(d)| ensures FileIs(es, ino, Files(d)[ino]) { NothingYet(ino); }
    } else {
      var es0, e := es[..|es| - 1], es[|es| - 1];
      var v :| Reaches(d, es0, v) && IsDisk(v) && StepOp(v, e) == At(d');
      assert es == es0 + [e];
      var owner0, ch0 := AnyRun(d, nib, es0, v);
      owner, ch := StepKeeps(v, owner0, ch0, e, d');
      forall ino: nat | ino < |Files(d')| ensures FileIs(es, ino, Files(d')[ino]) {
        FileIsAfter(es0, e, ino, Files(v)[ino]);
      }
    }
  }

  /** What stops a run: a full disk, the largest offset, a file too large to be freed. */
  lemma StopsOnly(d: seq<Block>, owner: seq<Owner>, ch: seq<nat>, e: Event)
    requires Inv(d, owner, ch) && IsDisk(d) && e.ino < NInodes(d) && InodeBlockNo(e.ino) < |d|
    ensures StepOp(d, e) == Stopped <==>
      match e
      case Wrote(ino, o, _) => o + 1 == WORD_LIMIT || |FreeSet(owner)| < Need(d, ino, o)
      case Emptied(ino) => |Files(d)[ino]| > MaxFreeable()
  {
    FilesAt(d, owner, ch, e.ino);
    match e
    case Wrote(ino, o, block) =>
      if o + 1 < WORD_LIMIT {
        var _, _ := WriteKeeps(d, owner, ch, ino, o, block, WriteOp(d, ino, o, block));
      }
    case Emptied(ino) =>
      if NBlocks(d, ino) != 0 {
        var _, _ := TruncateKeeps(d, owner, ch, ino, FreeTreeOp(d[0], d, Root(d, ino), Height(d, ino)));
      }
  }

  /** On a new disk with room enough, a file whose one block is at offset MaxFreeable() cannot be emptied: the
      depth loop of treedisk_free_file never ends. */
  lemma {:induction false} NeverEnds(d: seq<Block>, nib: nat, block: Block) returns (o: Word, v: seq<Block>)
    requires IsFresh(d, nib) && nib >= 1 && |d| > nib + 2 * Levels(MaxFreeable())
    ensures o == MaxFreeable() && Reaches(d, [Wrote(0, o, block)], v)
    ensures IsDisk(v) && NInodes(v) > 0 && |Files(v)[0]| == MaxFreeable() + 1 && StepOp(v, Emptied(0)) == Stopped
  {
    hide IsFresh, Inv, StepOp, Files, FreshOwners, FreshChain, IsFree, Need;
    MaxFreeableSmall();
    o := MaxFreeable();
    var owner, ch := FreshOwners(nib + 1, |d|), FreshChain(nib + 1, |d|);
    FreshRoom(d, nib, owner, ch, o);
    StopsOnly(d, owner, ch, Wrote(0, o, block));
    v := StepOp(d, Wrote(0, o, block)).d;
    OneStep(d, Wrote(0, o, block), v);
    var owner1, ch1 := StepKeeps(d, owner, ch, Wrote(0, o, block), v);
    FileGrown(v, owner1, ch1, o, block);
    StopsOnly(v, owner1, ch1, Emptied(0));
  }

  lemma OneStep(d: seq<Block>, e: Event, v: seq<Block>)
    requires IsDisk(d) && StepOp(d, e) == At(v)
    ensures Reaches(d, [e], v)
  {
    hide StepOp;
    assert [e][..0] == [] && Reaches(d, [], d);
  }

  lemma FileGrown(v: seq<Block>, owner: seq<Owner>, ch: seq<nat>, o: nat, block: Block)
    requires Inv(v, owner, ch) && IsDisk(v) && |Files(v)| > 0 && Files(v)[0] == WriteAt([], o, block)
    ensures NInodes(v) > 0 && InodeBlockNo(0) < |v| && |Files(v)[0]| == o + 1
  {
    FilesAt(v, owner, ch, 0);
  }

  /** A new disk has room for a block at any offset, if it has twice as many blocks as the tree has levels. */
  lemma {:induction false} FreshRoom(d: seq<Block>, nib: nat, owner: seq<Owner>, ch: seq<nat>, o: nat)
    requires IsFresh(d, nib) && nib >= 1 && |d| > nib + 2 * Levels(o) && o > 0
    requires owner == FreshOwners(nib + 1, |d|) && ch == FreshChain(nib + 1, |d|)
    ensures Inv(d, owner, ch) && IsDisk(d) && 0 < NInodes(d) && InodeBlockNo(0) < |d|
    ensures |Files(d)| > 0 && Files(d)[0] == [] && |FreeSet(owner)| >= Need(d, 0, o)
  {
    hide IsFresh, Inv, FreshOwners, FreshChain, IsFree;
    RefsBounds();
    FreshInv(d, nib, owner, ch);
    FreshSize(d, nib);
    FilesAt(d, owner, ch, 0);
    assert FreeSet(owner) == Range(nib + 1, |d|);
  }

  ghost function Range(lo: nat, hi: nat): (s: set<nat>)
    requires lo <= hi
    ensures |s| == hi - lo && forall c :: c in s <==> lo <= c < hi
    decreases hi - lo
  {
    if lo == hi then {} else {lo} + Range(lo + 1, hi)
  }
}
