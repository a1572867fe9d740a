/** Dining philosophers, n of them, under any scheduler: a step is a semaphore operation of any
    philosopher who does not wait, and the code up to it. */
module Philosophers {
  import opened Sequences
  import opened Threads

  type Diners = n: nat | n >= 2 witness 5
  const N: Diners

  /** Where a philosopher is: about to make the semaphore operation that the name tells, or waiting in it;
      HoldsBoth is about to put down the first fork. */
  datatype Pc = TakeFirst | WaitFirst | TakeSecond | WaitSecond | HoldsBoth | PutSecond | Over

  /** The fork that philosopher num takes first: the last philosopher reverses the order. */
  function First(num: nat): (f: nat)
    requires num < N
    ensures f < N
  {
    if num == N - 1 then (num + 1) % N else num
  }

  function Second(num: nat): (f: nat)
    requires num < N
    ensures f < N
  {
    if num == N - 1 then num else (num + 1) % N
  }

  /** So everybody takes the fork with the smaller number first, of the two beside him. */
  lemma Ascending(num: nat)
    requires num < N
    ensures First(num) < Second(num)
    ensures {First(num), Second(num)} == {num, (num + 1) % N}
  {}

  datatype Table = Table(pcs: seq<Pc>, forks: seq<Sema>)

  predicate Shape(b: Table) {
    && |b.pcs| == |b.forks| == N
    && forall f :: 0 <= f < N && Wakes(b.forks[f]) ==> b.forks[f].waiting[0] < N
  }

  predicate IsWait(pc: Pc) {
    pc == WaitFirst || pc == WaitSecond
  }

  function WaitsOn(b: Table, i: nat): (f: nat)
    requires |b.pcs| == N && i < N
    ensures f < N
  {
    if b.pcs[i] == WaitFirst then First(i) else Second(i)
  }

  function Granted(pc: Pc): Pc {
    match pc
    case TakeFirst => TakeSecond case WaitFirst => TakeSecond
    case TakeSecond => HoldsBoth case WaitSecond => HoldsBoth
    case _ => pc
  }

  function DecBy(b: Table, f: nat, i: nat): Table
    requires Shape(b) && f < N && i < N
  {
    b.(forks := b.forks[f := Dec(b.forks[f], i)],
       pcs := b.pcs[i := if Blocks(b.forks[f]) then (if b.pcs[i] == TakeFirst then WaitFirst else WaitSecond) else Granted(b.pcs[i])])
  }

  function IncBy(b: Table, f: nat, i: nat, pc: Pc): Table
    requires Shape(b) && f < N && i < N
  {
    var s, pcs := b.forks[f], b.pcs[i := pc];
    b.(forks := b.forks[f := Inc(s)],
       pcs := if Wakes(s) then pcs[s.waiting[0] := Granted(pcs[s.waiting[0]])] else pcs)
  }

  /** The next step of philosopher i; ends says whether it is the last meal. */
  function Step(b: Table, i: nat, ends: bool): Table
    requires Shape(b) && i < N
  {
    match b.pcs[i]
    case TakeFirst => DecBy(b, First(i), i)
    case TakeSecond => DecBy(b, Second(i), i)
    case HoldsBoth => IncBy(b, First(i), i, PutSecond)
    case PutSecond => IncBy(b, Second(i), i, if ends then Over else TakeFirst)
    case _ => b
  }

  // ----- The invariant -----

  predicate Holds(b: Table, i: nat, f: nat)
    requires |b.pcs| == N && i < N
  {
    match b.pcs[i]
    case TakeSecond | WaitSecond => f == First(i)
    case HoldsBoth => f == First(i) || f == Second(i)
    case PutSecond => f == Second(i)
    case _ => false
  }

  /** A fork is free or held by one philosopher. */
  ghost predicate ForksOk(b: Table)
    requires |b.pcs| == |b.forks| == N
  {
    && (forall f: nat :: f < N ==> b.forks[f].count <= 1)
    && (forall f: nat, i: nat :: f < N && i < N && Holds(b, i, f) ==> b.forks[f].count == 0)
    && (forall f: nat :: f < N && b.forks[f].count == 0 ==> exists i: nat :: i < N && Holds(b, i, f))
    && (forall f: nat, i: nat, j: nat :: f < N && i < j < N && Holds(b, i, f) ==> !Holds(b, j, f))
  }

  ghost predicate QueuesOk(b: Table)
    requires |b.pcs| == |b.forks| == N
  {
    && (forall f :: 0 <= f < N ==> SemaOk(b.forks[f]))
    && (forall f, i {:trigger i in b.forks[f].waiting} :: 0 <= f < N && i in b.forks[f].waiting ==>
          i < N && IsWait(b.pcs[i]) && WaitsOn(b, i) == f)
    && (forall i: nat :: i < N && IsWait(b.pcs[i]) ==> i in b.forks[WaitsOn(b, i)].waiting)
  }

  ghost predicate Inv(b: Table) {
    |b.pcs| == |b.forks| == N && ForksOk(b) && QueuesOk(b)
  }

  lemma InRange(b: Table)
    requires Inv(b)
    ensures Shape(b)
  {
    forall f | 0 <= f < N && Wakes(b.forks[f]) ensures b.forks[f].waiting[0] < N {
      assert b.forks[f].waiting[0] in b.forks[f].waiting;
    }
  }

  // ----- Steps -----

  /** Philosopher i is about to take fork f. */
  ghost predicate Takes(b: Table, i: nat, f: nat)
    requires |b.pcs| == N && i < N
  {
    (b.pcs[i] == TakeFirst && f == First(i)) || (b.pcs[i] == TakeSecond && f == Second(i))
  }

  /** Philosopher i puts fork f down and is at pc then. */
  ghost predicate Puts(b: Table, i: nat, f: nat, pc: Pc)
    requires |b.pcs| == N && i < N
  {
    (b.pcs[i] == HoldsBoth && f == First(i) && pc == PutSecond) || (b.pcs[i] == PutSecond && f == Second(i) && (pc == TakeFirst || pc == Over))
  }

  lemma {:induction false} DecQueues(b: Table, i: nat, f: nat)
    requires Inv(b) && Shape(b) && i < N && f < N && Takes(b, i, f)
    ensures QueuesOk(DecBy(b, f, i))
  {
    hide ForksOk;
    var b' := DecBy(b, f, i);
    assert i !in b.forks[f].waiting;
    Appended(b.forks[f].waiting, i);
    forall g, j {:trigger j in b'.forks[g].waiting} | 0 <= g < N && j in b'.forks[g].waiting
      ensures j < N && IsWait(b'.pcs[j]) && WaitsOn(b', j) == g
    {
      assert g != f || j != i ==> j in b.forks[g].waiting;
    }
  }

  lemma {:induction false} DecForks(b: Table, i: nat, f: nat)
    requires Inv(b) && Shape(b) && i < N && f < N && Takes(b, i, f)
    ensures ForksOk(DecBy(b, f, i))
  {
    hide QueuesOk;
    var b' := DecBy(b, f, i);
    Ascending(i);
    forall g: nat, j: nat | g < N && j < N
      ensures Holds(b', j, g) <==> Holds(b, j, g) || (j == i && g == f && b.forks[f].count == 1)
    {}
    forall g: nat | g < N && b'.forks[g].count == 0 ensures exists j: nat :: j < N && Holds(b', j, g) {
      if b.forks[g].count == 0 {
        var j: nat :| j < N && Holds(b, j, g);
        assert Holds(b', j, g);
      } else {
        assert Holds(b', i, g);
      }
    }
  }

  /** The first in the queue, if any, waits for fork f; it is not i, who has it. */
  lemma {:induction false} FirstWaits(b: Table, i: nat, f: nat)
    requires Inv(b) && Shape(b) && i < N && f < N && !IsWait(b.pcs[i]) && Wakes(b.forks[f])
    ensures var h := b.forks[f].waiting[0];
      h != i && IsWait(b.pcs[h]) && WaitsOn(b, h) == f && !Holds(b, h, f)
  {
    var h := b.forks[f].waiting[0];
    assert h in b.forks[f].waiting;
    Ascending(h);
  }

  lemma {:induction false} IncQueues(b: Table, i: nat, f: nat, pc: Pc)
    requires Inv(b) && Shape(b) && i < N && f < N && Puts(b, i, f, pc)
    ensures QueuesOk(IncBy(b, f, i, pc))
  {
    var b' := IncBy(b, f, i, pc);
    if Wakes(b.forks[f]) {
      FirstWaits(b, i, f);
      Head(b.forks[f].waiting);
    }
    hide ForksOk;
    forall g, j {:trigger j in b'.forks[g].waiting} | 0 <= g < N && j in b'.forks[g].waiting
      ensures j < N && IsWait(b'.pcs[j]) && WaitsOn(b', j) == g
    {
      assert j in b.forks[g].waiting;
    }
  }

  lemma {:induction false} IncForks(b: Table, i: nat, f: nat, pc: Pc)
    requires Inv(b) && Shape(b) && i < N && f < N && Puts(b, i, f, pc)
    ensures ForksOk(IncBy(b, f, i, pc))
  {
    hide First, Second;
    var b' := IncBy(b, f, i, pc);
    Ascending(i);
    assert Holds(b, i, f);
    if Wakes(b.forks[f]) {
      FirstWaits(b, i, f);
      Ascending(b.forks[f].waiting[0]);
    }
    hide QueuesOk;
    forall g: nat, j: nat | g < N && j < N
      ensures Holds(b', j, g) <==> (Holds(b, j, g) && !(j == i && g == f)) || (Wakes(b.forks[f]) && j == b.forks[f].waiting[0] && g == f)
    {}
    forall g: nat | g < N && b'.forks[g].count == 0 ensures exists j: nat :: j < N && Holds(b', j, g) {
      if g == f {
        assert Holds(b', b.forks[f].waiting[0], g);
      } else {
        var j: nat :| j < N && Holds(b, j, g);
        assert Holds(b', j, g);
      }
    }
  }

  lemma {:induction false} StepKeeps(b: Table, i: nat, ends: bool)
    requires Inv(b) && i < N
    ensures Shape(b) && Inv(Step(b, i, ends))
  {
    hide ForksOk, QueuesOk;
    InRange(b);
    match b.pcs[i]
    case TakeFirst =>
      DecForks(b, i, First(i));
      DecQueues(b, i, First(i));
    case TakeSecond =>
      DecForks(b, i, Second(i));
      DecQueues(b, i, Second(i));
    case HoldsBoth =>
      IncForks(b, i, First(i), PutSecond);
      IncQueues(b, i, First(i), PutSecond);
    case PutSecond =>
      var pc := if ends then Over else TakeFirst;
      IncForks(b, i, Second(i), pc);
      IncQueues(b, i, Second(i), pc);
    case _ =>
  }

  // ----- No deadlock -----

  predicate CanStep(pc: Pc) {
    !IsWait(pc) && pc != Over
  }

  /** Whoever waits for fork f waits, in the end, for somebody who can go on. */
  lemma {:induction false} WaitEnds(b: Table, i: nat) returns (j: nat)
    requires Inv(b) && i < N && IsWait(b.pcs[i])
    ensures j < N && CanStep(b.pcs[j])
    decreases N - WaitsOn(b, i)
  {
    var f := WaitsOn(b, i);
    assert i in b.forks[f].waiting;
    assert b.forks[f].count == 0;
    var h: nat :| h < N && Holds(b, h, f);
    if IsWait(b.pcs[h]) {
      Ascending(h);
      j := WaitEnds(b, h);
    } else {
      j := h;
    }
  }

  /** Unless everybody has finished, somebody can go on. */
  lemma {:induction false} NoDeadlock(b: Table) returns (j: nat)
    requires Inv(b) && exists i: nat :: i < N && b.pcs[i] != Over
    ensures j < N && CanStep(b.pcs[j])
  {
    var i: nat :| i < N && b.pcs[i] != Over;
    j := i;
    if IsWait(b.pcs[i]) { j := WaitEnds(b, i); }
  }

  // ----- Runs -----

  datatype Event = Event(i: nat, ends: bool)

  ghost predicate IsStart(b: Table) {
    && |b.pcs| == |b.forks| == N
    && (forall i :: 0 <= i < N ==> b.pcs[i] == TakeFirst)
    && (forall f :: 0 <= f < N ==> b.forks[f] == Sema(1, []))
  }

  ghost predicate TakesLast(b: Table, es: seq<Event>, b': Table) {
    es != [] && Shape(b) && es[|es| - 1].i < N && b' == Step(b, es[|es| - 1].i, es[|es| - 1].ends)
  }

  ghost predicate Reaches(b: Table, es: seq<Event>, b': Table)
    decreases |es|
  {
    if es == [] then b' == b else exists c :: Reaches(b, es[..|es| - 1], c) && TakesLast(c, es, b')
  }

  /** In every run: no fork is ever held by two philosophers, one who eats holds both his forks, and as
      long as somebody has not finished, somebody can go on. */
  lemma {:induction false} AnyRun(b: Table, es: seq<Event>, b': Table)
    requires IsStart(b) && Reaches(b, es, b')
    ensures Inv(b')
    ensures forall f: nat, i: nat, j: nat :: f < N && i < j < N && Holds(b', i, f) ==> !Holds(b', j, f)
    ensures (exists i: nat :: i < N && b'.pcs[i] != Over) ==> exists j: nat :: j < N && CanStep(b'.pcs[j])
    decreases |es|
  {
    if es == [] {
      assert Inv(b);
    } else {
      var c :| Reaches(b, es[..|es| - 1], c) && TakesLast(c, es, b');
      AnyRun(b, es[..|es| - 1], c);
      StepKeeps(c, es[|es| - 1].i, es[|es| - 1].ends);
    }
    if exists i: nat :: i < N && b'.pcs[i] != Over {
      var j := NoDeadlock(b');
    }
  }

  // ----- Progress -----

  /** How many forks philosopher i has: none, one, or both */
  ghost predicate HoldsJust(b: Table, i: nat, forks: set<nat>)
    requires |b.pcs| == N && i < N
  {
    forall f: nat :: f < N ==> (Holds(b, i, f) <==> f in forks)
  }

  /** Philosopher i is the last of those who wait for fork f. */
  ghost predicate Queued(b: Table, b': Table, i: nat, f: nat)
    requires |b.forks| == |b'.forks| == N && f < N
  {
    b'.forks[f] == Sema(0, b.forks[f].waiting + [i])
  }

  /** Whoever can go on does: he takes the fork that he is about to take if it is free, and queues for it if not, or he puts
      down the one that he is about to put down, and the first who waits for it gets it. */
  lemma {:induction false} StepMoves(b: Table, i: nat, ends: bool)
    requires Inv(b) && i < N && CanStep(b.pcs[i])
    ensures Shape(b) && |Step(b, i, ends).pcs| == |Step(b, i, ends).forks| == N
    ensures var b' := Step(b, i, ends);
      match b.pcs[i]
      case TakeFirst =>
        if b.forks[First(i)].count > 0 then b'.pcs[i] == TakeSecond && HoldsJust(b', i, {First(i)})
        else b'.pcs[i] == WaitFirst && Queued(b, b', i, First(i)) && HoldsJust(b', i, {})
      case TakeSecond =>
        if b.forks[Second(i)].count > 0 then b'.pcs[i] == HoldsBoth && HoldsJust(b', i, {First(i), Second(i)})
        else b'.pcs[i] == WaitSecond && Queued(b, b', i, Second(i)) && HoldsJust(b', i, {First(i)})
      case HoldsBoth => b'.pcs[i] == PutSecond && HoldsJust(b', i, {Second(i)}) && Passed(b, b', First(i))
      case PutSecond => b'.pcs[i] == (if ends then Over else TakeFirst) && HoldsJust(b', i, {}) && Passed(b, b', Second(i))
  {
    hide ForksOk, QueuesOk;
    InRange(b);
    Ascending(i);
    match b.pcs[i]
    case TakeFirst =>
    case TakeSecond =>
    case HoldsBoth => if Wakes(b.forks[First(i)]) { FirstWaits(b, i, First(i)); }
    case PutSecond => if Wakes(b.forks[Second(i)]) { FirstWaits(b, i, Second(i)); }
  }

  /** Fork f is free afterwards, or it is held by the philosopher who waited longest for it. */
  ghost predicate Passed(b: Table, b': Table, f: nat)
    requires |b.pcs| == |b.forks| == |b'.pcs| == |b'.forks| == N && f < N
  {
    if b.forks[f].waiting == [] then b'.forks[f] == Sema(b.forks[f].count + 1, [])
    else
      && b'.forks[f] == Sema(b.forks[f].count, b.forks[f].waiting[1..])
      && b.forks[f].waiting[0] < N && Holds(b', b.forks[f].waiting[0], f)
  }

  /** Nobody else moves, but the one who gets the fork that is put down. */
  lemma {:induction false} OthersStay(b: Table, i: nat, ends: bool, j: nat)
    requires Inv(b) && i < N && j < N && j != i
    ensures Shape(b) && |Step(b, i, ends).pcs| == N
    ensures Step(b, i, ends).pcs[j] == b.pcs[j] || (IsWait(b.pcs[j]) && Step(b, i, ends).pcs[j] == Granted(b.pcs[j]))
  {
    hide ForksOk, QueuesOk;
    InRange(b);
    match b.pcs[i]
    case HoldsBoth => if Wakes(b.forks[First(i)]) { FirstWaits(b, i, First(i)); }
    case PutSecond => if Wakes(b.forks[Second(i)]) { FirstWaits(b, i, Second(i)); }
    case _ =>
  }

  /** The semaphore operations that a philosopher has before him until he has eaten and gone home */
  function WorkLeft(pc: Pc): nat {
    match pc
    case TakeFirst => 6 case WaitFirst => 5 case TakeSecond => 4 case WaitSecond => 3
    case HoldsBoth => 2 case PutSecond => 1 case Over => 0
  }

  function AllWork(pcs: seq<Pc>): nat {
    if pcs == [] then 0 else AllWork(pcs[..|pcs| - 1]) + WorkLeft(pcs[|pcs| - 1])
  }

  /** One philosopher gets further, and nobody is set back. */
  lemma {:induction false} WorkLess(a: seq<Pc>, b: seq<Pc>, i: nat)
    requires |a| == |b| && i < |a| && WorkLeft(b[i]) < WorkLeft(a[i])
    requires forall j: nat :: j < |a| ==> WorkLeft(b[j]) <= WorkLeft(a[j])
    ensures AllWork(b) < AllWork(a)
  {
    var n := |a| - 1;
    if i < n { WorkLess(a[..n], b[..n], i); } else { WorkNotMore(a[..n], b[..n]); }
  }

  lemma {:induction false} WorkNotMore(a: seq<Pc>, b: seq<Pc>)
    requires |a| == |b| && forall j: nat :: j < |a| ==> WorkLeft(b[j]) <= WorkLeft(a[j])
    ensures AllWork(b) <= AllWork(a)
  {
    if a != [] { WorkNotMore(a[..|a| - 1], b[..|b| - 1]); }
  }

  /** A step of somebody who goes home after his meal leaves less to do. */
  lemma {:induction false} StepWorks(b: Table, i: nat)
    requires Inv(b) && i < N && CanStep(b.pcs[i])
    ensures Shape(b) && |Step(b, i, true).pcs| == N && AllWork(Step(b, i, true).pcs) < AllWork(b.pcs)
  {
    hide Inv, Step;
    StepMoves(b, i, true);
    InvSize(b);
    forall j: nat | j < N ensures WorkLeft(Step(b, i, true).pcs[j]) <= WorkLeft(b.pcs[j]) {
      if j != i { OthersStay(b, i, true, j); }
    }
    WorkLess(b.pcs, Step(b, i, true).pcs, i);
  }

  lemma InvSize(b: Table)
    requires Inv(b)
    ensures |b.pcs| == |b.forks| == N
  {}

  /** One event, and then the others */
  lemma {:induction false} ReachesFirst(b: Table, e: Event, es: seq<Event>, b': Table)
    requires Shape(b) && e.i < N && Reaches(Step(b, e.i, e.ends), es, b')
    ensures Reaches(b, [e] + es, b')
    decreases |es|
  {
    hide Step;
    var all := [e] + es;
    if es == [] {
      assert all[..0] == [] && Reaches(b, [], b) && TakesLast(b, all, b');
    } else {
      var c :| Reaches(Step(b, e.i, e.ends), es[..|es| - 1], c) && TakesLast(c, es, b');
      ReachesFirst(b, e, es[..|es| - 1], c);
      assert all[..|all| - 1] == [e] + es[..|es| - 1];
      assert TakesLast(c, all, b');
    }
  }

  /** From every table with a philosopher who has not gone home there is a run in which he holds both his forks. */
  lemma {:induction false} EveryoneCanEat(b: Table, i: nat) returns (es: seq<Event>, b': Table)
    requires Inv(b) && i < N && b.pcs[i] != Over
    ensures Reaches(b, es, b') && Inv(b') && b'.pcs[i] == HoldsBoth && HoldsJust(b', i, {First(i), Second(i)})
  {
    hide Inv, Step;
    InvSize(b);
    if b.pcs[i] == PutSecond {
      StepKeeps(b, i, false);
      StepMoves(b, i, false);
      es, b' := GetsBoth(Step(b, i, false), i);
      ReachesFirst(b, Event(i, false), es, b');
      es := [Event(i, false)] + es;
    } else {
      es, b' := GetsBoth(b, i);
    }
    Ascending(i);
  }

  lemma {:induction false} GetsBoth(b: Table, i: nat) returns (es: seq<Event>, b': Table)
    requires Inv(b) && |b.pcs| == N && i < N && b.pcs[i] != Over && b.pcs[i] != PutSecond
    ensures Reaches(b, es, b') && Inv(b') && |b'.pcs| == N && b'.pcs[i] == HoldsBoth
    decreases AllWork(b.pcs)
  {
    hide Inv, Step, AllWork;
    if b.pcs[i] == HoldsBoth {
      es, b' := [], b;
    } else {
      var j := i;
      if IsWait(b.pcs[i]) { j := WaitEnds(b, i) by { InvSize(b); } }
      StepKeeps(b, j, true);
      StepWorks(b, j);
      InvSize(Step(b, j, true));
      if j == i { StepMoves(b, i, true); } else { OthersStay(b, j, true, i); }
      es, b' := GetsBoth(Step(b, j, true), i);
      ReachesFirst(b, Event(j, true), es, b');
      es := [Event(j, true)] + es;
    }
  }

  /** One run after the other */
  lemma {:induction false} ReachesBoth(a: Table, es: seq<Event>, b: Table, fs: seq<Event>, c: Table)
    requires Reaches(a, es, b) && Reaches(b, fs, c)
    ensures Reaches(a, es + fs, c)
    decreases |fs|
  {
    hide Step;
    if fs == [] {
      assert es + fs == es;
    } else {
      var v :| Reaches(b, fs[..|fs| - 1], v) && TakesLast(v, fs, c);
      ReachesBoth(a, es, b, fs[..|fs| - 1], v);
      var all := es + fs;
      assert all[..|all| - 1] == es + fs[..|fs| - 1];
      assert TakesLast(v, all, c);
    }
  }

  /** In no run is anybody locked out for good: whatever has happened, it can go on so that he eats. */
  lemma {:induction false} NobodyLockedOut(a: Table, es: seq<Event>, b: Table, i: nat) returns (fs: seq<Event>, c: Table)
    requires IsStart(a) && Reaches(a, es, b) && |b.pcs| == N && i < N && b.pcs[i] != Over
    ensures Reaches(a, es + fs, c) && |c.pcs| == N && c.pcs[i] == HoldsBoth && HoldsJust(c, i, {First(i), Second(i)})
  {
    hide Inv;
    AnyRun(a, es, b);
    fs, c := EveryoneCanEat(b, i);
    InvSize(c);
    ReachesBoth(a, es, b, fs, c);
  }
}
