/** Producers and consumers on a buffer of NSLOTS slots, with any number of both, and with any
    scheduler: a step is a semaphore operation of any thread that does not wait, and the code up to it. */
module BoundedBuffer {
  import opened Sequences
  import opened Threads

  type Slots = n: nat | n >= 1 witness 3
  const NSLOTS: Slots
  type Item = int

  /** Where a thread is: about to make the semaphore operation that its name tells, or waiting in it. */
  datatype Pc =
    | DecEmpty | WaitEmpty | DecLockIn | WaitLockIn | IncLockIn | IncFull       // producers
    | DecFull | WaitFull | DecLockOut | WaitLockOut | IncLockOut | IncEmpty     // consumers
    | Over

  datatype SemaId = Empty | Full | Lock

  /** produced and consumed are all the items put in and taken out so far. */
  datatype B = B(pcs: seq<Pc>, empty: Sema, full: Sema, lock: Sema, slots: seq<Item>, inx: nat, outx: nat,
                 ghost produced: seq<Item>, ghost consumed: seq<Item>)

  function Get(b: B, k: SemaId): Sema {
    match k case Empty => b.empty case Full => b.full case Lock => b.lock
  }

  function Set(b: B, k: SemaId, s: Sema): B {
    match k case Empty => b.(empty := s) case Full => b.(full := s) case Lock => b.(lock := s)
  }

  predicate IsWait(pc: Pc) {
    pc == WaitEmpty || pc == WaitLockIn || pc == WaitFull || pc == WaitLockOut
  }

  function WaitsOn(pc: Pc): SemaId
    requires IsWait(pc)
  {
    match pc case WaitEmpty => Empty case WaitFull => Full case _ => Lock
  }

  /** Where a thread is once it has the permit that it asked or waited for. */
  function Granted(pc: Pc): Pc {
    match pc
    case DecEmpty => DecLockIn case WaitEmpty => DecLockIn
    case DecLockIn => IncLockIn case WaitLockIn => IncLockIn
    case DecFull => DecLockOut case WaitFull => DecLockOut
    case DecLockOut => IncLockOut case WaitLockOut => IncLockOut
    case _ => pc
  }

  function Waiting(pc: Pc): Pc {
    match pc
    case DecEmpty => WaitEmpty case DecLockIn => WaitLockIn case DecFull => WaitFull case DecLockOut => WaitLockOut
    case _ => pc
  }

  /** sema_dec by thread t */
  function DecBy(b: B, k: SemaId, t: nat): B
    requires t < |b.pcs|
  {
    Set(b, k, Dec(Get(b, k), t)).(pcs := b.pcs[t := if Blocks(Get(b, k)) then Waiting(b.pcs[t]) else Granted(b.pcs[t])])
  }

  /** sema_inc, after which thread t is at pc */
  function IncBy(b: B, k: SemaId, t: nat, pc: Pc): B
    requires t < |b.pcs| && InRange(Get(b, k), |b.pcs|)
  {
    var pcs := b.pcs[t := pc];
    var s := Get(b, k);
    Set(b, k, Inc(s)).(pcs := if Wakes(s) then pcs[s.waiting[0] := Granted(pcs[s.waiting[0]])] else pcs)
  }

  function Wrap(i: nat): nat {
    if i == NSLOTS then 0 else i
  }

  /** A producer stores v. */
  function Put(b: B, v: Item): B
    requires |b.slots| == NSLOTS && b.inx < NSLOTS
  {
    b.(slots := b.slots[b.inx := v], inx := Wrap(b.inx + 1), produced := b.produced + [v])
  }

  /** A consumer takes what is in its slot. */
  function Take(b: B): B
    requires |b.slots| == NSLOTS && b.outx < NSLOTS
  {
    b.(outx := Wrap(b.outx + 1), consumed := b.consumed + [b.slots[b.outx]])
  }

  predicate Shape(b: B) {
    && |b.slots| == NSLOTS && b.inx < NSLOTS && b.outx < NSLOTS
    && InRange(b.empty, |b.pcs|) && InRange(b.full, |b.pcs|) && InRange(b.lock, |b.pcs|)
  }

  predicate InRange(s: Sema, n: nat) {
    Wakes(s) ==> s.waiting[0] < n
  }

  /** The next step of thread t; v is what a producer stores, and ends says whether a consumer stops. */
  function Step(b: B, t: nat, v: Item, ends: bool): B
    requires Shape(b) && t < |b.pcs|
  {
    match b.pcs[t]
    case DecEmpty => DecBy(b, Empty, t)
    case DecLockIn => DecBy(b, Lock, t)
    case IncLockIn => IncBy(Put(b, v), Lock, t, IncFull)
    case IncFull => IncBy(b, Full, t, DecEmpty)
    case DecFull => DecBy(b, Full, t)
    case DecLockOut => DecBy(b, Lock, t)
    case IncLockOut => IncBy(Take(b), Lock, t, IncEmpty)
    case IncEmpty => IncBy(b, Empty, t, if ends then Over else DecFull)
    case _ => b
  }

  // ----- Counting -----

  function Count(pcs: seq<Pc>, s: set<Pc>): nat {
    if pcs == [] then 0 else Count(pcs[..|pcs| - 1], s) + if pcs[|pcs| - 1] in s then 1 else 0
  }

  lemma {:induction false} CountUpdate(pcs: seq<Pc>, s: set<Pc>, i: nat, p: Pc)
    requires i < |pcs|
    ensures Count(pcs[i := p], s) == Count(pcs, s) - (if pcs[i] in s then 1 else 0) + (if p in s then 1 else 0)
  {
    var n := |pcs| - 1;
    if i < n {
      assert pcs[i := p][..n] == pcs[..n][i := p];
      CountUpdate(pcs[..n], s, i, p);
    } else {
      assert pcs[i := p][..n] == pcs[..n];
    }
  }

  lemma {:induction false} CountPositive(pcs: seq<Pc>, s: set<Pc>, i: nat)
    requires i < |pcs| && pcs[i] in s
    ensures Count(pcs, s) >= 1
  {
    if i < |pcs| - 1 { CountPositive(pcs[..|pcs| - 1], s, i); }
  }

  lemma {:induction false} CountTwo(pcs: seq<Pc>, s: set<Pc>, i: nat, j: nat)
    requires i < j < |pcs| && pcs[i] in s && pcs[j] in s
    ensures Count(pcs, s) >= 2
  {
    if j < |pcs| - 1 {
      CountTwo(pcs[..|pcs| - 1], s, i, j);
    } else {
      CountPositive(pcs[..|pcs| - 1], s, i);
    }
  }

  // ----- The invariant -----

  /** Producers that hold a permit of s_empty, and consumers that are about to give one back */
  const HAVE_SLOT: set<Pc> := {DecLockIn, WaitLockIn, IncLockIn}
  const GIVE_SLOT: set<Pc> := {IncEmpty}
  const HAVE_ITEM: set<Pc> := {DecLockOut, WaitLockOut, IncLockOut}
  const GIVE_ITEM: set<Pc> := {IncFull}
  const IN_CRITICAL: set<Pc> := {IncLockIn, IncLockOut}

  ghost function InBuffer(b: B): int {
    |b.produced| - |b.consumed|
  }

  /** Every slot is accounted for by a permit, or by a thread that holds one or owes one. */
  ghost predicate PermitsOk(b: B) {
    && b.empty.count + Count(b.pcs, HAVE_SLOT) + Count(b.pcs, GIVE_SLOT) + InBuffer(b) == NSLOTS
    && b.full.count + Count(b.pcs, HAVE_ITEM) + Count(b.pcs, GIVE_ITEM) == InBuffer(b)
    && b.lock.count + Count(b.pcs, IN_CRITICAL) == 1
  }

  /** A thread waits for a semaphore exactly if it is in its queue. */
  ghost predicate QueuesOk(b: B) {
    && (forall k :: SemaOk(Get(b, k)))
    && (forall k, t {:trigger t in Get(b, k).waiting} :: t in Get(b, k).waiting ==> t < |b.pcs| && IsWait(b.pcs[t]) && WaitsOn(b.pcs[t]) == k)
    && (forall t: nat :: t < |b.pcs| && IsWait(b.pcs[t]) ==> t in Get(b, WaitsOn(b.pcs[t])).waiting)
  }

  /** The i-th slot after the one to be read next */
  function Slot(b: B, i: nat): nat
    requires b.outx < NSLOTS && i <= NSLOTS
  {
    if b.outx + i < NSLOTS then b.outx + i else b.outx + i - NSLOTS
  }

  /** What was consumed is what was produced first, and the rest of that is in the slots, in order. */
  ghost predicate DataOk(b: B) {
    && |b.slots| == NSLOTS && b.inx < NSLOTS && b.outx < NSLOTS
    && 0 <= InBuffer(b) <= NSLOTS && b.inx == Slot(b, InBuffer(b))
    && b.consumed == b.produced[..|b.consumed|]
    && (forall i: nat :: i < InBuffer(b) ==> b.slots[Slot(b, i)] == b.produced[|b.consumed| + i])
  }

  ghost predicate Inv(b: B) {
    PermitsOk(b) && QueuesOk(b) && DataOk(b)
  }

  // ----- Semaphore operations keep the queues -----

  lemma {:induction false} DecQueues(b: B, k: SemaId, t: nat)
    requires QueuesOk(b) && t < |b.pcs| && !IsWait(b.pcs[t]) && IsWait(Waiting(b.pcs[t])) && WaitsOn(Waiting(b.pcs[t])) == k
    ensures QueuesOk(DecBy(b, k, t))
  {
    var s, b' := Get(b, k), DecBy(b, k, t);
    assert !IsWait(Granted(b.pcs[t]));
    assert t !in s.waiting;
    Appended(s.waiting, t);
    forall j ensures Get(b', j) == if j == k then Dec(s, t) else Get(b, j) {}
  }

  lemma {:induction false} IncQueues(b: B, k: SemaId, t: nat, pc: Pc)
    requires QueuesOk(b) && Shape(b) && t < |b.pcs| && !IsWait(b.pcs[t]) && !IsWait(pc)
    ensures QueuesOk(IncBy(b, k, t, pc))
  {
    var s, b' := Get(b, k), IncBy(b, k, t, pc);
    forall j ensures Get(b', j) == if j == k then Inc(s) else Get(b, j) {}
    if Wakes(s) {
      var h := s.waiting[0];
      assert h in s.waiting;
      Head(s.waiting);
      assert !IsWait(Granted(b.pcs[h]));
    }
  }

  lemma QueuesInRange(b: B)
    requires QueuesOk(b) && DataOk(b)
    ensures Shape(b)
  {
    forall k ensures InRange(Get(b, k), |b.pcs|) {
      if Wakes(Get(b, k)) { assert Get(b, k).waiting[0] in Get(b, k).waiting; }
    }
    assert InRange(Get(b, Empty), |b.pcs|) && InRange(Get(b, Full), |b.pcs|) && InRange(Get(b, Lock), |b.pcs|);
  }

  // ----- Steps keep the accounts -----

  lemma {:induction false} Counts(pcs: seq<Pc>, i: nat, p: Pc)
    requires i < |pcs|
    ensures forall s :: s in {HAVE_SLOT, GIVE_SLOT, HAVE_ITEM, GIVE_ITEM, IN_CRITICAL} ==>
      Count(pcs[i := p], s) == Count(pcs, s) - (if pcs[i] in s then 1 else 0) + (if p in s then 1 else 0)
  {
    CountUpdate(pcs, HAVE_SLOT, i, p);
    CountUpdate(pcs, GIVE_SLOT, i, p);
    CountUpdate(pcs, HAVE_ITEM, i, p);
    CountUpdate(pcs, GIVE_ITEM, i, p);
    CountUpdate(pcs, IN_CRITICAL, i, p);
  }

  lemma {:induction false} DecPermits(b: B, k: SemaId, t: nat)
    requires PermitsOk(b) && t < |b.pcs| && !IsWait(b.pcs[t]) && IsWait(Waiting(b.pcs[t])) && WaitsOn(Waiting(b.pcs[t])) == k
    ensures PermitsOk(DecBy(b, k, t))
  {
    hide Count;
    Counts(b.pcs, t, DecBy(b, k, t).pcs[t]);
  }

  /** A producer stores, or a consumer takes, and leaves the critical section. */
  lemma {:induction false} LeavePermits(b: B, b1: B, t: nat, pc: Pc)
    requires PermitsOk(b) && QueuesOk(b) && Shape(b) && t < |b.pcs|
    requires b1.pcs == b.pcs && b1.empty == b.empty && b1.full == b.full && b1.lock == b.lock
    requires (b.pcs[t] == IncLockIn && pc == IncFull && InBuffer(b1) == InBuffer(b) + 1)
          || (b.pcs[t] == IncLockOut && pc == IncEmpty && InBuffer(b1) == InBuffer(b) - 1)
    ensures PermitsOk(IncBy(b1, Lock, t, pc))
  {
    hide Count;
    Counts(b.pcs, t, pc);
    if Wakes(b.lock) {
      var h := b.lock.waiting[0];
      assert h in Get(b, Lock).waiting;
      Counts(b.pcs[t := pc], h, Granted(b.pcs[h]));
    }
  }

  /** The permit for the other side is given. */
  lemma {:induction false} GivePermits(b: B, k: SemaId, t: nat, pc: Pc)
    requires PermitsOk(b) && QueuesOk(b) && Shape(b) && t < |b.pcs|
    requires (b.pcs[t] == IncFull && k == Full && pc == DecEmpty) || (b.pcs[t] == IncEmpty && k == Empty && (pc == DecFull || pc == Over))
    ensures PermitsOk(IncBy(b, k, t, pc))
  {
    hide Count;
    Counts(b.pcs, t, pc);
    var s := Get(b, k);
    if Wakes(s) {
      var h := s.waiting[0];
      assert h in Get(b, k).waiting;
      Counts(b.pcs[t := pc], h, Granted(b.pcs[h]));
    }
  }

  // ----- Steps keep the data -----

  /** A producer in the critical section finds a slot that is free: nothing unread is overwritten. */
  lemma {:induction false} PutData(b: B, t: nat, v: Item)
    requires PermitsOk(b) && DataOk(b) && t < |b.pcs| && b.pcs[t] == IncLockIn
    ensures InBuffer(b) < NSLOTS && DataOk(Put(b, v))
    ensures forall i: nat :: i < InBuffer(b) ==> Slot(b, i) != b.inx
  {
    CountPositive(b.pcs, HAVE_SLOT, t);
    var b' := Put(b, v);
    forall i: nat | i < InBuffer(b') ensures b'.slots[Slot(b', i)] == b'.produced[|b'.consumed| + i] {
      assert i < InBuffer(b) ==> Slot(b, i) != b.inx;
    }
  }

  lemma {:induction false} TakeData(b: B, t: nat)
    requires PermitsOk(b) && DataOk(b) && t < |b.pcs| && b.pcs[t] == IncLockOut
    ensures InBuffer(b) > 0 && DataOk(Take(b))
  {
    CountPositive(b.pcs, HAVE_ITEM, t);
    var b' := Take(b);
    assert b.slots[b.outx] == b.produced[|b.consumed|] by { assert Slot(b, 0) == b.outx; }
    forall i: nat | i < InBuffer(b') ensures b'.slots[Slot(b', i)] == b'.produced[|b'.consumed| + i] {
      assert Slot(b', i) == Slot(b, i + 1);
    }
  }

  lemma SameData(b: B, b': B)
    requires DataOk(b) && b'.slots == b.slots && b'.inx == b.inx && b'.outx == b.outx
    requires b'.produced == b.produced && b'.consumed == b.consumed
    ensures DataOk(b')
  {
    forall i: nat | i < InBuffer(b') ensures b'.slots[Slot(b', i)] == b'.produced[|b'.consumed| + i] {
      assert Slot(b', i) == Slot(b, i);
    }
  }

  lemma SameQueues(b: B, b': B)
    requires QueuesOk(b) && b'.pcs == b.pcs && b'.empty == b.empty && b'.full == b.full && b'.lock == b.lock
    ensures QueuesOk(b')
  {
    forall k ensures Get(b', k) == Get(b, k) {}
  }

  /** Every step keeps the invariant. */
  lemma {:induction false} StepKeeps(b: B, t: nat, v: Item, ends: bool)
    requires Inv(b) && t < |b.pcs|
    ensures Shape(b) && Inv(Step(b, t, v, ends))
  {
    hide PermitsOk, QueuesOk, DataOk;
    QueuesInRange(b);
    var b' := Step(b, t, v, ends);
    match b.pcs[t]
    case DecEmpty | DecLockIn | DecFull | DecLockOut =>
      var k := WaitsOn(Waiting(b.pcs[t]));
      assert b' == DecBy(b, k, t);
      DecQueues(b, k, t);
      DecPermits(b, k, t);
      SameData(b, b');
    case IncLockIn =>
      var b1 := Put(b, v);
      PutData(b, t, v);
      SameQueues(b, b1);
      IncQueues(b1, Lock, t, IncFull);
      LeavePermits(b, b1, t, IncFull);
      SameData(b1, b');
    case IncLockOut =>
      var b1 := Take(b);
      TakeData(b, t);
      SameQueues(b, b1);
      IncQueues(b1, Lock, t, IncEmpty);
      LeavePermits(b, b1, t, IncEmpty);
      SameData(b1, b');
    case IncFull =>
      IncQueues(b, Full, t, DecEmpty);
      GivePermits(b, Full, t, DecEmpty);
      SameData(b, b');
    case IncEmpty =>
      IncQueues(b, Empty, t, if ends then Over else DecFull);
      GivePermits(b, Empty, t, if ends then Over else DecFull);
      SameData(b, b');
    case _ =>
  }

  // ----- Runs -----

  datatype Event = Event(t: nat, v: Item, ends: bool)

  /** The state before any thread has made a step */
  ghost predicate IsStart(b: B) {
    && (forall t :: 0 <= t < |b.pcs| ==> b.pcs[t] == DecEmpty || b.pcs[t] == DecFull)
    && b.empty == Sema(NSLOTS, []) && b.full == Sema(0, []) && b.lock == Sema(1, [])
    && |b.slots| == NSLOTS && b.inx == 0 && b.outx == 0 && b.produced == [] && b.consumed == []
  }

  ghost predicate TakesLast(b: B, es: seq<Event>, b': B) {
    && es != [] && Shape(b) && es[|es| - 1].t < |b.pcs|
    && b' == Step(b, es[|es| - 1].t, es[|es| - 1].v, es[|es| - 1].ends)
  }

  ghost predicate Reaches(b: B, es: seq<Event>, b': B)
    decreases |es|
  {
    if es == [] then b' == b else exists c :: Reaches(b, es[..|es| - 1], c) && TakesLast(c, es, b')
  }

  lemma {:induction false} CountNone(pcs: seq<Pc>, s: set<Pc>)
    requires forall i :: 0 <= i < |pcs| ==> pcs[i] !in s
    ensures Count(pcs, s) == 0
  {
    if pcs != [] { CountNone(pcs[..|pcs| - 1], s); }
  }

  lemma {:induction false} StartInv(b: B)
    requires IsStart(b)
    ensures Inv(b)
  {
    CountNone(b.pcs, HAVE_SLOT);
    CountNone(b.pcs, GIVE_SLOT);
    CountNone(b.pcs, HAVE_ITEM);
    CountNone(b.pcs, GIVE_ITEM);
    CountNone(b.pcs, IN_CRITICAL);
  }

  /** Whatever the scheduler does: the items consumed are those produced first, in their order; at most
      NSLOTS are in the buffer; permits, threads that hold one and threads that owe one always make
      NSLOTS; and at most one thread is in the critical section. */
  lemma {:induction false} AnyRun(b: B, es: seq<Event>, b': B)
    requires IsStart(b) && Reaches(b, es, b')
    ensures Inv(b')
    ensures |b'.consumed| <= |b'.produced| <= |b'.consumed| + NSLOTS && b'.consumed == b'.produced[..|b'.consumed|]
    ensures b'.empty.count + b'.full.count + Count(b'.pcs, HAVE_SLOT) + Count(b'.pcs, GIVE_SLOT)
          + Count(b'.pcs, HAVE_ITEM) + Count(b'.pcs, GIVE_ITEM) == NSLOTS
    ensures forall i, j :: 0 <= i < j < |b'.pcs| ==> !(b'.pcs[i] in IN_CRITICAL && b'.pcs[j] in IN_CRITICAL)
    decreases |es|
  {
    if es == [] {
      StartInv(b);
    } else {
      var c :| Reaches(b, es[..|es| - 1], c) && TakesLast(c, es, b');
      AnyRun(b, es[..|es| - 1], c);
      StepKeeps(c, es[|es| - 1].t, es[|es| - 1].v, es[|es| - 1].ends);
    }
    forall i, j | 0 <= i < j < |b'.pcs| && b'.pcs[i] in IN_CRITICAL && b'.pcs[j] in IN_CRITICAL ensures false {
      CountTwo(b'.pcs, IN_CRITICAL, i, j);
    }
  }

  // ----- Progress -----

  predicate CanStep(pc: Pc) {
    !IsWait(pc) && pc != Over
  }

  /** Thread t is the last in the queue of semaphore k. */
  ghost predicate Queued(b: B, b': B, t: nat, k: SemaId) {
    Get(b', k) == Sema(0, Get(b, k).waiting + [t])
  }

  /** Semaphore k has a permit more, or the thread that has waited for it longest has got one. */
  ghost predicate Given(b: B, b': B, k: SemaId) {
    var s := Get(b, k);
    if s.waiting == [] then Get(b', k) == Sema(s.count + 1, [])
    else
      && Get(b', k) == Sema(s.count, s.waiting[1..]) && s.waiting[0] < |b.pcs| == |b'.pcs|
      && b'.pcs[s.waiting[0]] == Granted(b.pcs[s.waiting[0]])
  }

  /** What is produced and consumed in a step */
  ghost predicate Moves(b: B, b': B, put: seq<Item>, taken: seq<Item>) {
    b'.produced == b.produced + put && b'.consumed == b.consumed + taken
  }

  /** A thread that asks for a permit has it afterwards, if there is one, or is the last to wait. */
  ghost predicate Asks(b: B, b': B, t: nat, k: SemaId, has: Pc, waits: Pc) {
    && t < |b'.pcs| && Moves(b, b', [], [])
    && if Get(b, k).count > 0 then b'.pcs[t] == has else b'.pcs[t] == waits && Queued(b, b', t, k)
  }

  /** Whoever can go on does: it gets its permit or queues; in the critical section a producer puts in its item, and a
      consumer takes the oldest that is there; and a permit goes to whoever has waited longest. */
  lemma {:induction false} StepMoves(b: B, t: nat, v: Item, ends: bool)
    requires Inv(b) && t < |b.pcs| && CanStep(b.pcs[t])
    ensures Shape(b) && |Step(b, t, v, ends).pcs| == |b.pcs|
    ensures var b' := Step(b, t, v, ends);
      match b.pcs[t]
      case DecEmpty => Asks(b, b', t, Empty, DecLockIn, WaitEmpty)
      case DecLockIn => Asks(b, b', t, Lock, IncLockIn, WaitLockIn)
      case IncLockIn => b'.pcs[t] == IncFull && Given(b, b', Lock) && Moves(b, b', [v], [])
      case IncFull => b'.pcs[t] == DecEmpty && Given(b, b', Full) && Moves(b, b', [], [])
      case DecFull => Asks(b, b', t, Full, DecLockOut, WaitFull)
      case DecLockOut => Asks(b, b', t, Lock, IncLockOut, WaitLockOut)
      case IncLockOut =>
        && b'.pcs[t] == IncEmpty && Given(b, b', Lock)
        && |b.consumed| < |b.produced| && Moves(b, b', [], [b.produced[|b.consumed|]])
      case IncEmpty => b'.pcs[t] == (if ends then Over else DecFull) && Given(b, b', Empty) && Moves(b, b', [], [])
  {
    hide PermitsOk, QueuesOk, DataOk, Asks, Given, DecBy, IncBy;
    QueuesInRange(b);
    var pc := b.pcs[t];
    match pc
    case DecEmpty => DecMoves(b, Empty, t);
    case DecLockIn => DecMoves(b, Lock, t);
    case DecFull => DecMoves(b, Full, t);
    case DecLockOut => DecMoves(b, Lock, t);
    case IncLockIn =>
      IncMoves(b, Put(b, v), Lock, t, IncFull);
    case IncLockOut =>
      NextItem(b, t);
      IncMoves(b, Take(b), Lock, t, IncEmpty);
    case IncFull => IncMoves(b, b, Full, t, DecEmpty);
    case IncEmpty => IncMoves(b, b, Empty, t, if ends then Over else DecFull);
    case _ =>
  }

  lemma DecMoves(b: B, k: SemaId, t: nat)
    requires t < |b.pcs|
    ensures |DecBy(b, k, t).pcs| == |b.pcs| && Asks(b, DecBy(b, k, t), t, k, Granted(b.pcs[t]), Waiting(b.pcs[t]))
  {}

  lemma IncMoves(b: B, b1: B, k: SemaId, t: nat, pc: Pc)
    requires Inv(b) && Shape(b) && t < |b.pcs| && CanStep(b.pcs[t])
    requires b1.pcs == b.pcs && b1.empty == b.empty && b1.full == b.full && b1.lock == b.lock
    ensures InRange(Get(b1, k), |b1.pcs|)
    ensures var b' := IncBy(b1, k, t, pc);
      |b'.pcs| == |b.pcs| && b'.pcs[t] == pc && Given(b, b', k) && b'.produced == b1.produced && b'.consumed == b1.consumed
  {
    hide PermitsOk, DataOk;
    FirstWaits(b, t, k);
    assert Get(b1, k) == Get(b, k);
  }

  /** The first in a queue is not a thread that can go on. */
  lemma {:induction false} FirstWaits(b: B, t: nat, k: SemaId)
    requires QueuesOk(b) && t < |b.pcs| && !IsWait(b.pcs[t])
    ensures Wakes(Get(b, k)) ==> Get(b, k).waiting[0] < |b.pcs| && Get(b, k).waiting[0] != t && IsWait(b.pcs[Get(b, k).waiting[0]])
    ensures Get(b, k).waiting != [] ==> Get(b, k).count == 0
  {
    if Wakes(Get(b, k)) { assert Get(b, k).waiting[0] in Get(b, k).waiting; }
  }

  lemma {:induction false} NextItem(b: B, t: nat)
    requires Inv(b) && t < |b.pcs| && b.pcs[t] == IncLockOut
    ensures |b.slots| == NSLOTS && b.outx < NSLOTS && |b.consumed| < |b.produced| && b.slots[b.outx] == b.produced[|b.consumed|]
  {
    CountPositive(b.pcs, HAVE_ITEM, t);
    assert Slot(b, 0) == b.outx;
  }

  /** Others stay where they are, but the one that a permit goes to. */
  lemma {:induction false} OthersStay(b: B, t: nat, v: Item, ends: bool, u: nat)
    requires Inv(b) && t < |b.pcs| && u < |b.pcs| && u != t
    ensures Shape(b) && |Step(b, t, v, ends).pcs| == |b.pcs|
    ensures Step(b, t, v, ends).pcs[u] == b.pcs[u] || (IsWait(b.pcs[u]) && Step(b, t, v, ends).pcs[u] == Granted(b.pcs[u]))
  {
    hide PermitsOk, DataOk, QueuesOk, IncBy;
    QueuesInRange(b);
    match b.pcs[t]
    case IncLockIn => IncOthers(b, Put(b, v), Lock, t, IncFull, u);
    case IncLockOut => IncOthers(b, Take(b), Lock, t, IncEmpty, u);
    case IncFull => IncOthers(b, b, Full, t, DecEmpty, u);
    case IncEmpty => IncOthers(b, b, Empty, t, if ends then Over else DecFull, u);
    case _ =>
  }

  lemma {:induction false} IncOthers(b: B, b1: B, k: SemaId, t: nat, pc: Pc, u: nat)
    requires Inv(b) && Shape(b) && t < |b.pcs| && CanStep(b.pcs[t]) && u < |b.pcs| && u != t
    requires b1.pcs == b.pcs && b1.empty == b.empty && b1.full == b.full && b1.lock == b.lock
    ensures InRange(Get(b1, k), |b1.pcs|)
    ensures var b' := IncBy(b1, k, t, pc);
      |b'.pcs| == |b.pcs| && (b'.pcs[u] == b.pcs[u] || (IsWait(b.pcs[u]) && b'.pcs[u] == Granted(b.pcs[u])))
  {
    hide PermitsOk, DataOk;
    FirstWaits(b, t, k);
    assert Get(b1, k) == Get(b, k);
  }

  const PRODUCERS: set<Pc> := {DecEmpty, WaitEmpty, DecLockIn, WaitLockIn, IncLockIn, IncFull}
  const CONSUMERS: set<Pc> := {DecFull, WaitFull, DecLockOut, WaitLockOut, IncLockOut, IncEmpty}

  /** Nobody has stopped, and nothing that was produced or consumed is undone. */
  ghost predicate GoesOn(b: B, b': B) {
    && |b'.pcs| == |b.pcs| && |b.produced| <= |b'.produced| && |b.consumed| <= |b'.consumed|
    && forall u: nat :: u < |b.pcs| ==> (b.pcs[u] in PRODUCERS ==> b'.pcs[u] in PRODUCERS) && (b.pcs[u] in CONSUMERS ==> b'.pcs[u] in CONSUMERS)
  }

  /** The step of thread t, for a consumer not its last */
  function Go(b: B, t: nat): B
    requires Shape(b) && t < |b.pcs|
  {
    Step(b, t, 0, false)
  }

  lemma {:induction false} GoKeeps(b: B, t: nat)
    requires Inv(b) && t < |b.pcs| && CanStep(b.pcs[t])
    ensures Shape(b) && Inv(Go(b, t)) && GoesOn(b, Go(b, t))
  {
    hide Inv, Step, Asks, Given;
    StepKeeps(b, t, 0, false);
    StepMoves(b, t, 0, false);
    MovesOn(b, t);
    forall u: nat | u < |b.pcs| && u != t
      ensures Go(b, t).pcs[u] == b.pcs[u] || (IsWait(b.pcs[u]) && Go(b, t).pcs[u] == Granted(b.pcs[u]))
    {
      OthersStay(b, t, 0, false, u);
    }
  }

  lemma {:induction false} MovesOn(b: B, t: nat)
    requires Inv(b) && t < |b.pcs| && CanStep(b.pcs[t]) && Shape(b)
    ensures |b.produced| <= |Go(b, t).produced| && |b.consumed| <= |Go(b, t).consumed|
    ensures |Go(b, t).pcs| == |b.pcs|
    ensures b.pcs[t] in PRODUCERS ==> Go(b, t).pcs[t] in PRODUCERS
    ensures b.pcs[t] in CONSUMERS ==> Go(b, t).pcs[t] in CONSUMERS
  {
    hide Inv, Step, Given;
    StepMoves(b, t, 0, false);
  }

  lemma GoesOnBoth(a: B, b: B, c: B)
    requires GoesOn(a, b) && GoesOn(b, c)
    ensures GoesOn(a, c)
  {}

  lemma {:induction false} ReachesFirst(b: B, t: nat, es: seq<Event>, b': B)
    requires Shape(b) && t < |b.pcs| && Reaches(Go(b, t), es, b')
    ensures Reaches(b, [Event(t, 0, false)] + es, b')
    decreases |es|
  {
    hide Step;
    var all := [Event(t, 0, false)] + es;
    if es == [] {
      assert all[..0] == [] && Reaches(b, [], b) && TakesLast(b, all, b');
    } else {
      var c :| Reaches(Go(b, t), es[..|es| - 1], c) && TakesLast(c, es, b');
      ReachesFirst(b, t, es[..|es| - 1], c);
      assert all[..|all| - 1] == [Event(t, 0, false)] + es[..|es| - 1];
      assert TakesLast(c, all, b');
    }
  }

  lemma {:induction false} ReachesBoth(a: B, es: seq<Event>, b: B, fs: seq<Event>, c: B)
    requires Reaches(a, es, b) && Reaches(b, fs, c)
    ensures Reaches(a, es + fs, c)
    decreases |fs|
  {
    hide Step, Shape, TakesLast;
    if fs == [] {
      assert es + fs == es;
    } else {
      var v :| Reaches(b, fs[..|fs| - 1], v) && TakesLast(v, fs, c);
      ReachesBoth(a, es, b, fs[..|fs| - 1], v);
      var all := es + fs;
      assert all[..|all| - 1] == es + fs[..|fs| - 1];
      SameLast(v, fs, all, c);
    }
  }

  lemma SameLast(v: B, fs: seq<Event>, all: seq<Event>, c: B)
    requires TakesLast(v, fs, c) && all != [] && all[|all| - 1] == fs[|fs| - 1]
    ensures TakesLast(v, all, c)
  {}

  /** A run, and one step more */
  lemma {:induction false} ReachesNext(a: B, es: seq<Event>, b: B, t: nat)
    requires Reaches(a, es, b) && Shape(b) && t < |b.pcs|
    ensures Reaches(a, es + [Event(t, 0, false)], Go(b, t))
  {
    hide Step;
    var all := es + [Event(t, 0, false)];
    assert all[..|all| - 1] == es;
    assert TakesLast(b, all, Go(b, t));
  }

  /** If some are counted, there is one. */
  lemma {:induction false} CountSome(pcs: seq<Pc>, s: set<Pc>) returns (i: nat)
    requires Count(pcs, s) > 0
    ensures i < |pcs| && pcs[i] in s
  {
    if pcs[|pcs| - 1] in s { i := |pcs| - 1; } else { i := CountSome(pcs[..|pcs| - 1], s); }
  }

  // ----- Getting into the critical section -----

  predicate WantsLock(pc: Pc) {
    pc in HAVE_SLOT || pc in HAVE_ITEM
  }

  function LockRank(pc: Pc): nat {
    if pc == DecLockIn || pc == DecLockOut then 2 else if pc == WaitLockIn || pc == WaitLockOut then 1 else 0
  }

  /** Somebody is in the critical section while thread c waits for it. */
  lemma {:induction false} LockHolder(b: B, c: nat) returns (u: nat)
    requires Inv(b) && c < |b.pcs| && LockRank(b.pcs[c]) == 1
    ensures u < |b.pcs| && u != c && b.pcs[u] in IN_CRITICAL && c in b.lock.waiting && b.lock.count == 0
  {
    assert c in Get(b, Lock).waiting;
    assert SemaOk(Get(b, Lock));
    u := CountSome(b.pcs, IN_CRITICAL);
  }

  /** Whoever has a permit gets into the critical section, if the others go on. */
  lemma {:induction false} GetsLock(b: B, c: nat) returns (es: seq<Event>, b': B)
    requires Inv(b) && c < |b.pcs| && WantsLock(b.pcs[c])
    ensures Reaches(b, es, b') && Inv(b') && GoesOn(b, b')
    ensures b'.pcs[c] == if b.pcs[c] in HAVE_SLOT then IncLockIn else IncLockOut
    decreases LockRank(b.pcs[c]), |b.lock.waiting|
  {
    hide Inv, Step, GoesOn, Moves;
    if LockRank(b.pcs[c]) == 0 {
      es, b' := [], b;
      GoesOnSelf(b);
    } else {
      var u := c;
      if LockRank(b.pcs[c]) == 1 { u := LockHolder(b, c); }
      GoKeeps(b, u);
      LockStep(b, c, u);
      es, b' := GetsLock(Go(b, u), c);
      ReachesFirst(b, u, es, b');
      GoesOnBoth(b, Go(b, u), b');
      es := [Event(u, 0, false)] + es;
    }
  }

  lemma GoesOnSelf(b: B)
    ensures GoesOn(b, b)
  {}

  /** One step nearer: thread c asks for the lock, or the one in the critical section leaves it. */
  lemma {:induction false} LockStep(b: B, c: nat, u: nat)
    requires Inv(b) && Shape(b) && c < |b.pcs| && u < |b.pcs| && WantsLock(b.pcs[c])
    requires if LockRank(b.pcs[c]) == 2 then u == c else LockRank(b.pcs[c]) == 1 && u != c && b.pcs[u] in IN_CRITICAL && c in b.lock.waiting
    ensures var b1 := Go(b, u);
      && |b1.pcs| == |b.pcs| && WantsLock(b1.pcs[c]) && (b1.pcs[c] in HAVE_SLOT <==> b.pcs[c] in HAVE_SLOT)
      && LockRank(b1.pcs[c]) <= LockRank(b.pcs[c])
      && (LockRank(b1.pcs[c]) == LockRank(b.pcs[c]) ==> |b1.lock.waiting| < |b.lock.waiting|)
  {
    hide Inv, Step, Moves;
    StepMoves(b, u, 0, false);
    if u != c { OthersStay(b, u, 0, false, c); }
    assert Get(b, Lock) == b.lock && Get(Go(b, u), Lock) == Go(b, u).lock;
  }

  // ----- Getting an item, or a slot -----

  function ItemRank(pc: Pc): nat {
    if pc == IncEmpty then 2 else if pc == DecFull then 1 else 0
  }

  /** Who has an item, or is about to give it to those who wait */
  lemma {:induction false} ItemGiver(b: B, t: nat) returns (u: nat)
    requires Inv(b) && t < |b.pcs| && b.pcs[t] == WaitFull && InBuffer(b) > 0
    ensures u < |b.pcs| && (b.pcs[u] in HAVE_ITEM || b.pcs[u] in GIVE_ITEM) && Get(b, Full).waiting != []
  {
    hide Count;
    assert t in Get(b, Full).waiting;
    assert SemaOk(Get(b, Full));
    if Count(b.pcs, HAVE_ITEM) > 0 { u := CountSome(b.pcs, HAVE_ITEM); } else { u := CountSome(b.pcs, GIVE_ITEM); }
  }

  lemma {:induction false} ItemGiven(b: B, u: nat) returns (h: nat)
    requires Inv(b) && Shape(b) && u < |b.pcs| && b.pcs[u] in GIVE_ITEM && Get(b, Full).waiting != []
    ensures |Go(b, u).pcs| == |b.pcs| && h < |b.pcs| && Go(b, u).pcs[h] in HAVE_ITEM
  {
    hide PermitsOk, DataOk, Step;
    StepMoves(b, u, 0, false);
    h := Get(b, Full).waiting[0];
    assert h in Get(b, Full).waiting;
  }

  lemma {:induction false} ItemStep(b: B, t: nat)
    requires Inv(b) && Shape(b) && t < |b.pcs| && (b.pcs[t] == IncEmpty || b.pcs[t] == DecFull)
    ensures var b1 := Go(b, t);
      && |b1.pcs| == |b.pcs| && InBuffer(b1) == InBuffer(b)
      && b1.pcs[t] in CONSUMERS && (b1.pcs[t] in HAVE_ITEM || b1.pcs[t] == WaitFull || ItemRank(b1.pcs[t]) > 0) && ItemRank(b1.pcs[t]) < ItemRank(b.pcs[t])
  {
    hide Inv, Step, Given;
    StepMoves(b, t, 0, false);
  }

  /** If there is an item in the buffer, some consumer gets a permit for one. */
  lemma {:induction false} GetsItem(b: B, t: nat) returns (es: seq<Event>, b': B, c: nat)
    requires Inv(b) && t < |b.pcs| && b.pcs[t] in CONSUMERS && InBuffer(b) > 0
    ensures Reaches(b, es, b') && Inv(b') && GoesOn(b, b') && c < |b'.pcs| && b'.pcs[c] in HAVE_ITEM
    decreases ItemRank(b.pcs[t])
  {
    hide Inv, Step, GoesOn;
    es, b', c := [], b, t;
    GoesOnSelf(b);
    if b.pcs[t] == WaitFull {
      var u := ItemGiver(b, t);
      if b.pcs[u] in HAVE_ITEM {
        c := u;
      } else {
        GoKeeps(b, u);
        c := ItemGiven(b, u);
        b' := Go(b, u);
        ReachesFirst(b, u, [], b');
        es := [Event(u, 0, false)] + [];
      }
    } else if b.pcs[t] !in HAVE_ITEM {
      GoKeeps(b, t);
      ItemStep(b, t);
      es, b', c := GetsItem(Go(b, t), t);
      ReachesFirst(b, t, es, b');
      GoesOnBoth(b, Go(b, t), b');
      es := [Event(t, 0, false)] + es;
    }
  }

  function SlotRank(pc: Pc): nat {
    if pc == IncFull then 2 else if pc == DecEmpty then 1 else 0
  }

  /** Who has a slot, or is about to give it to those who wait */
  lemma {:induction false} SlotGiver(b: B, t: nat) returns (u: nat)
    requires Inv(b) && t < |b.pcs| && b.pcs[t] == WaitEmpty && InBuffer(b) < NSLOTS
    ensures u < |b.pcs| && (b.pcs[u] in HAVE_SLOT || b.pcs[u] in GIVE_SLOT) && Get(b, Empty).waiting != []
  {
    hide Count;
    assert t in Get(b, Empty).waiting;
    assert SemaOk(Get(b, Empty));
    if Count(b.pcs, HAVE_SLOT) > 0 { u := CountSome(b.pcs, HAVE_SLOT); } else { u := CountSome(b.pcs, GIVE_SLOT); }
  }

  lemma {:induction false} SlotGiven(b: B, u: nat) returns (h: nat)
    requires Inv(b) && Shape(b) && u < |b.pcs| && b.pcs[u] in GIVE_SLOT && Get(b, Empty).waiting != []
    ensures |Go(b, u).pcs| == |b.pcs| && h < |b.pcs| && Go(b, u).pcs[h] in HAVE_SLOT
  {
    hide PermitsOk, DataOk, Step;
    StepMoves(b, u, 0, false);
    h := Get(b, Empty).waiting[0];
    assert h in Get(b, Empty).waiting;
  }

  lemma {:induction false} SlotStep(b: B, t: nat)
    requires Inv(b) && Shape(b) && t < |b.pcs| && (b.pcs[t] == IncFull || b.pcs[t] == DecEmpty)
    ensures var b1 := Go(b, t);
      && |b1.pcs| == |b.pcs| && InBuffer(b1) == InBuffer(b)
      && b1.pcs[t] in PRODUCERS && (b1.pcs[t] in HAVE_SLOT || b1.pcs[t] == WaitEmpty || SlotRank(b1.pcs[t]) > 0) && SlotRank(b1.pcs[t]) < SlotRank(b.pcs[t])
  {
    hide Inv, Step, Given;
    StepMoves(b, t, 0, false);
  }

  /** If there is a free slot, some producer gets a permit for one. */
  lemma {:induction false} GetsSlot(b: B, t: nat) returns (es: seq<Event>, b': B, c: nat)
    requires Inv(b) && t < |b.pcs| && b.pcs[t] in PRODUCERS && InBuffer(b) < NSLOTS
    ensures Reaches(b, es, b') && Inv(b') && GoesOn(b, b') && c < |b'.pcs| && b'.pcs[c] in HAVE_SLOT
    decreases SlotRank(b.pcs[t])
  {
    hide Inv, Step, GoesOn;
    es, b', c := [], b, t;
    GoesOnSelf(b);
    if b.pcs[t] == WaitEmpty {
      var u := SlotGiver(b, t);
      if b.pcs[u] in HAVE_SLOT {
        c := u;
      } else {
        GoKeeps(b, u);
        c := SlotGiven(b, u);
        b' := Go(b, u);
        ReachesFirst(b, u, [], b');
        es := [Event(u, 0, false)] + [];
      }
    } else if b.pcs[t] !in HAVE_SLOT {
      GoKeeps(b, t);
      SlotStep(b, t);
      es, b', c := GetsSlot(Go(b, t), t);
      ReachesFirst(b, t, es, b');
      GoesOnBoth(b, Go(b, t), b');
      es := [Event(t, 0, false)] + es;
    }
  }

  // ----- Getting on -----

  /** As long as a consumer has not stopped, an item that is in the buffer can be consumed. */
  lemma {:induction false} CanConsume(b: B, t: nat) returns (es: seq<Event>, b': B)
    requires Inv(b) && t < |b.pcs| && b.pcs[t] in CONSUMERS && InBuffer(b) > 0
    ensures Reaches(b, es, b') && Inv(b') && GoesOn(b, b') && |b'.consumed| > |b.consumed|
  {
    hide Inv, Step, Reaches, Given, Asks, Shape;
    var b1, c;
    es, b1, c := GetsItem(b, t);
    var fs, b2 := GetsLock(b1, c);
    StepMoves(b2, c, 0, false);
    GoKeeps(b2, c);
    b' := Go(b2, c);
    ReachesBoth(b, es, b1, fs, b2);
    ReachesNext(b, es + fs, b2, c);
    GoesOnBoth(b, b1, b2);
    GoesOnBoth(b, b2, b');
    es := es + fs + [Event(c, 0, false)];
  }

  /** As long as there is a producer, a slot that is free can be filled. */
  lemma {:induction false} CanProduce(b: B, t: nat) returns (es: seq<Event>, b': B)
    requires Inv(b) && t < |b.pcs| && b.pcs[t] in PRODUCERS && InBuffer(b) < NSLOTS
    ensures Reaches(b, es, b') && Inv(b') && GoesOn(b, b') && |b'.produced| > |b.produced|
  {
    hide Inv, Step, Reaches, Given, Asks, Shape;
    var b1, c;
    es, b1, c := GetsSlot(b, t);
    var fs, b2 := GetsLock(b1, c);
    StepMoves(b2, c, 0, false);
    GoKeeps(b2, c);
    b' := Go(b2, c);
    ReachesBoth(b, es, b1, fs, b2);
    ReachesNext(b, es + fs, b2, c);
    GoesOnBoth(b, b1, b2);
    GoesOnBoth(b, b2, b');
    es := es + fs + [Event(c, 0, false)];
  }

  /** With a producer and a consumer that has not stopped, no run ends: one more item can always be consumed. */
  lemma {:induction false} NeverStuck(a: B, es: seq<Event>, b: B, p: nat, c: nat) returns (fs: seq<Event>, b': B)
    requires IsStart(a) && Reaches(a, es, b) && p < |b.pcs| && c < |b.pcs| && b.pcs[p] in PRODUCERS && b.pcs[c] in CONSUMERS
    ensures Reaches(a, es + fs, b') && |b'.consumed| > |b.consumed|
  {
    hide Inv;
    AnyRun(a, es, b);
    if InBuffer(b) > 0 {
      fs, b' := CanConsume(b, c);
    } else {
      var gs, b1 := CanProduce(b, p);
      if |b1.consumed| > |b.consumed| {
        fs, b' := gs, b1;
      } else {
        var hs;
        hs, b' := CanConsume(b1, c);
        ReachesBoth(b, gs, b1, hs, b');
        fs := gs + hs;
      }
    }
    ReachesBoth(a, es, b, fs, b');
  }
}
