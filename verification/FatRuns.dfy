/** Whole runs of fatdisk_write and fatdisk_setsize(0) over all the files of a new table. */
module FatRuns {
  import opened Blocks
  import opened Index
  import opened TreeLayout
  import opened TreeRuns
  import opened FatTable
  import opened FatSpace

  // ----- One write -----

  /** The last entry of a file, as the table leads to it, or 0 if the file is empty */
  ghost function LastEntry(v: Fat, ino: nat): nat
    requires HasInode(v, ino)
  {
    if Size(v, ino) == 0 then 0 else Follow(v, Head(v, ino), Size(v, ino) - 1)
  }

  /** How many entries a write at offset o appends to a file of n blocks */
  function Missing(n: nat, o: nat): nat {
    if o >= n then o + 1 - n else 0
  }

  ghost predicate IsWrite(v: Fat, ino: nat, o: Word) {
    && ino < NFiles(v) && o + 1 < WORD_LIMIT && HasInode(v, ino)
    && IsTable(v.fat, v.nfat) && v.freeList < |v.fat| && (Size(v, ino) > 0 ==> LastEntry(v, ino) < |v.fat|)
  }

  /** What a write at offset o does to the table; nothing for a write that is not made. */
  ghost function Grows(v: Fat, ino: nat, o: Word): Growth {
    if IsWrite(v, ino, o)
    then Grow(v, ino, o + 1, Size(v, ino) == 0, LastEntry(v, ino), Missing(Size(v, ino), o))
    else Grown(v, [])
  }

  /** Entry 0 is among those that a write at offset o needs. */
  ghost predicate ZeroInTheWay(v: Fat, ino: nat, o: Word) {
    IsWrite(v, ino, o) && MeetsZero(v.fat, v.freeList, Size(v, ino) == 0, Missing(Size(v, ino), o))
  }

  /** The search for free entries does not get to as many as a write at offset o needs, and one more. */
  ghost predicate NoRoom(v: Fat, ino: nat, o: Word) {
    IsWrite(v, ino, o) && 0 < Missing(Size(v, ino), o) && Room(v.fat, v.freeList) <= Missing(Size(v, ino), o)
  }

  lemma {:induction false} LastIs(v: Fat, cs: seq<seq<nat>>, ino: nat)
    requires Inv(v, cs) && ino < |cs|
    ensures HasInode(v, ino) && InodeOk(v, ino, cs[ino]) && IsChain(v, cs[ino])
    ensures LastEntry(v, ino) == if cs[ino] == [] then 0 else cs[ino][|cs[ino]| - 1]
    ensures cs[ino] != [] ==> LastEntry(v, ino) < |v.fat| && v.fat[LastEntry(v, ino)] != 0
    ensures IsTable(v.fat, v.nfat) && v.freeList < |v.fat| && v.fat[v.freeList] == 0 && NFiles(v) == |cs|
  {
    hide Disjoint, NoneLost, IsTable;
    var c := cs[ino];
    assert InodeOk(v, ino, c);
    if c != [] {
      FollowChain(v, c, 0, |c| - 1);
      UsedNotFree(v, c, |c| - 1);
    }
  }

  lemma {:induction false} OutcomeOfWrite(v: Fat, cs: seq<seq<nat>>, ino: nat, o: Word)
    requires Inv(v, cs) && ino < |cs|
    ensures Grows(v, ino, o) == ZeroNext <==> ZeroInTheWay(v, ino, o)
    ensures Grows(v, ino, o) == NoSpace <==> !ZeroInTheWay(v, ino, o) && NoRoom(v, ino, o)
  {
    hide Grow, Room, MeetsZero, IsTable, Inv, IsChain;
    LastIs(v, cs, ino);
    if o + 1 < WORD_LIMIT {
      GrowOutcome(v, ino, o + 1, Size(v, ino) == 0, LastEntry(v, ino), Missing(Size(v, ino), o));
      RoomLeft(v.fat, v.freeList, Size(v, ino) == 0);
    }
  }

  // ----- One call -----

  /** The table after one call; Ended if the call panics, gets entry 0 as a successor, or writes at the largest
      32-bit offset. */
  datatype Outcome = Ended | Now(v: Fat)

  ghost function StepOp(v: Fat, e: Event): Outcome {
    if e.ino >= NFiles(v) then Now(v)
    else match e
      case Wrote(ino, o, block) => WriteOp(v, ino, o, block)
      case Emptied(ino) => EmptyOp(v, ino)
  }

  ghost function WriteOp(v: Fat, ino: nat, o: Word, block: Block): Outcome {
    if o + 1 == WORD_LIMIT || !Grows(v, ino, o).Grown? then Ended
    else
      var v1 := Grows(v, ino, o).v;
      if !HasInode(v1, ino) || Follow(v1, Head(v1, ino), o) >= |v1.data| then Ended
      else Now(v1.(data := v1.data[Follow(v1, Head(v1, ino), o) := block]))
  }

  ghost function EmptyOp(v: Fat, ino: nat): Outcome
  {
    if !HasInode(v, ino) then Ended
    else if Size(v, ino) == 0 then Now(v)
    else
      var v1 := FreeChain(v, Head(v, ino), Size(v, ino));
      if !HasInode(v1, ino) then Ended else Now(WithInode(v1, ino, 0, 0))
  }

  ghost predicate Reaches(v: Fat, es: seq<Event>, v': Fat)
    decreases |es|
  {
    if es == [] then v' == v
    else exists u :: Reaches(v, es[..|es| - 1], u) && IsTable(u.fat, u.nfat) && StepOp(u, es[|es| - 1]) == Now(v')
  }

  /** The write in terms of the chains */
  lemma {:induction false} WriteOpIs(v: Fat, cs: seq<seq<nat>>, ino: nat, o: Word, block: Block)
    requires Inv(v, cs) && ino < |cs| && o + 1 < WORD_LIMIT && Grows(v, ino, o).Grown?
    ensures HasInode(v, ino) && GrownBy(v, cs, ino, o + 1, Grows(v, ino, o).v, Grows(v, ino, o).added, Missing(|cs[ino]|, o))
    ensures var v1, c := Grows(v, ino, o).v, cs[ino] + Grows(v, ino, o).added;
      && o < |c| && c[o] < |v1.data| && WriteOp(v, ino, o, block) == Now(v1.(data := v1.data[c[o] := block]))
      && FatTable.Wrote(v, cs, ino, o, block, v1.(data := v1.data[c[o] := block]), cs[ino := c])
  {
    hide Inv, IsChain, Grow, GrownBy, Follow, IsTable;
    LastIs(v, cs, ino);
    var n := Missing(|cs[ino]|, o);
    HeadSmall(v, cs, ino);
    GrowKeeps(v, cs, ino, o + 1, cs[ino] == [], LastEntry(v, ino), n);
    var v1, added := Grows(v, ino, o).v, Grows(v, ino, o).added;
    WriteKeeps(v, cs, ino, o, block, v1, added, n);
    GrownChain(v, cs, ino, o + 1, v1, added, n);
    FollowChain(v1, cs[ino] + added, 0, o);
  }

  lemma HeadSmall(v: Fat, cs: seq<seq<nat>>, ino: nat)
    requires Inv(v, cs) && ino < |cs|
    ensures Core(v, cs) && (cs[ino] != [] ==> cs[ino][0] < WORD_LIMIT)
  {
    assert IsChain(v, cs[ino]);
  }

  lemma {:induction false} StepKeeps(v: Fat, cs: seq<seq<nat>>, e: Event, v': Fat) returns (cs': seq<seq<nat>>)
    requires Inv(v, cs) && StepOp(v, e) == Now(v')
    ensures Inv(v', cs') && |cs'| == |cs|
    ensures forall ino: nat :: ino < |cs| ==> Files(v', cs')[ino] == FileAfter(Files(v, cs)[ino], ino, e)
  {
    hide Inv, IsChain, Grows, Files, FreeChain, WithInode, IsTable;
    cs' := cs;
    CountFiles(v, cs);
    if e.ino < NFiles(v) {
      LastIs(v, cs, e.ino);
      match e
      case Wrote(ino, o, block) =>
        WriteOpIs(v, cs, ino, o, block);
        cs' := cs[ino := cs[ino] + Grows(v, ino, o).added];
      case Emptied(ino) =>
        if cs[ino] == [] {
          EmptyFile(v, cs, ino);
        } else {
          EmptyKeeps(v, cs, ino);
          cs' := cs[ino := []];
        }
    }
  }

  lemma CountFiles(v: Fat, cs: seq<seq<nat>>)
    requires Inv(v, cs)
    ensures NFiles(v) == |cs|
  {}

  lemma EmptyFile(v: Fat, cs: seq<seq<nat>>, k: nat)
    requires k < |cs| && cs[k] == []
    ensures Files(v, cs)[k] == []
  {}

  // ----- A run -----

  /** A new table: as many entries as data blocks, all of them free and zero, and empty files */
  ghost predicate IsNew(v: Fat) {
    && v.nfat >= 1 && IsTable(v.fat, v.nfat) && |v.data| == |v.fat| && v.freeList == 0
    && (forall e: nat :: e < |v.fat| ==> v.fat[e] == 0) && (forall e :: 0 <= e < |v.data| ==> v.data[e] == NullBlock())
    && (forall b :: 0 <= b < |v.inodes| ==> v.inodes[b] == NullBlock())
  }

  ghost function NoChains(n: nat): (cs: seq<seq<nat>>)
    ensures |cs| == n && forall k :: 0 <= k < n ==> cs[k] == []
  {
    seq(n, k => [])
  }

  lemma {:induction false} NewInv(v: Fat)
    requires IsNew(v)
    ensures Inv(v, NoChains(NFiles(v)))
  {
    hide InodeBlockNo, InodeWord, InodesIn;
    NextChild(v.nfat - 1);
    forall k: nat | k < NFiles(v) ensures InodeOk(v, k, []) { InodeBlockInRange(|v.inodes|, k); }
  }

  /** Over any run, every entry with a block is free or in one place of one chain, and each file holds what the
      calls that named it put there. */
  lemma {:induction false} AnyRun(v: Fat, es: seq<Event>, v': Fat) returns (cs: seq<seq<nat>>)
    requires IsNew(v) && Reaches(v, es, v')
    ensures Inv(v', cs) && |cs| == NFiles(v)
    ensures forall ino: nat :: ino < |cs| ==> FileIs(es, ino, Files(v', cs)[ino])
    decreases |es|
  {
    hide IsNew, Inv, Files, StepOp, FileIs, FileAfter;
    if es == [] {
      cs := NoChains(NFiles(v));
      NewInv(v);
      forall ino: nat | ino < |cs| ensures FileIs(es, ino, Files(v, cs)[ino]) {
        EmptyFile(v, cs, ino);
        NothingYet(ino);
      }
    } else {
      var es0, e := es[..|es| - 1], es[|es| - 1];
      var u :| Reaches(v, es0, u) && IsTable(u.fat, u.nfat) && StepOp(u, e) == Now(v');
      assert es == es0 + [e];
      var cs0 := AnyRun(v, es0, u);
      cs := StepKeeps(u, cs0, e, v');
      forall ino: nat | ino < |cs| ensures FileIs(es, ino, Files(v', cs)[ino]) {
        FileIsAfter(es0, e, ino, Files(u, cs0)[ino]);
      }
    }
  }

  /** What ends a run: entry 0 where a successor is needed, too few free entries, or the largest offset. */
  lemma {:induction false} EndsOnly(v: Fat, cs: seq<seq<nat>>, e: Event)
    requires Inv(v, cs) && e.ino < |cs|
    ensures StepOp(v, e) == Ended <==> e.Wrote? && (e.o + 1 == WORD_LIMIT || ZeroInTheWay(v, e.ino, e.o) || NoRoom(v, e.ino, e.o))
  {
    hide Inv, IsChain, Grow, FreeChain, ZeroInTheWay, NoRoom, IsTable, FatTable.Wrote, GrownBy;
    CountFiles(v, cs);
    LastIs(v, cs, e.ino);
    match e
    case Wrote(ino, o, block) =>
      OutcomeOfWrite(v, cs, ino, o);
      if o + 1 < WORD_LIMIT && Grows(v, ino, o).Grown? { WriteOpIs(v, cs, ino, o, block); }
    case Emptied(ino) =>
      if cs[ino] != [] { EmptyKeeps(v, cs, ino); }
  }
}
