/** What every step of the kernel keeps. */
module KernelInv {
  import opened KernelState
  import opened Sequences

  // ----- Counts -----

  function Count(ps: seq<Proc>, s: set<PState>): nat {
    if ps == [] then 0 else Count(ps[..|ps| - 1], s) + if ps[|ps| - 1].state in s then 1 else 0
  }

  lemma {:induction false} CountUpdate(ps: seq<Proc>, s: set<PState>, i: nat, p: Proc)
    requires i < |ps|
    ensures Count(ps[i := p], s) - (if p.state in s then 1 else 0) == Count(ps, s) - (if ps[i].state in s then 1 else 0)
  {
    var n := |ps| - 1;
    if i < n {
      assert ps[i := p][..n] == ps[..n][i := p];
      CountUpdate(ps[..n], s, i, p);
    } else {
      assert ps[i := p][..n] == ps[..n];
    }
  }

  lemma {:induction false} CountPositive(ps: seq<Proc>, s: set<PState>, i: nat)
    requires i < |ps| && ps[i].state in s
    ensures Count(ps, s) >= 1
  {
    if i < |ps| - 1 { CountPositive(ps[..|ps| - 1], s, i); }
  }

  const EXISTING: set<PState> := {RUNNABLE, WAITING, ZOMBIE}
  const RUNNING: set<PState> := {RUNNABLE}

  ghost predicate CountsOk(k: K) {
    k.nprocs == Count(k.procs, EXISTING) && k.nrunnable == Count(k.procs, RUNNING)
  }

  // ----- Slots and process ids -----

  ghost predicate SlotsOk(k: K)
    requires Shape(k)
  {
    && NoDup(k.free)
    && (forall i: nat :: i < MAX_PROCS ==> (k.procs[i].state == PROC_FREE <==> i in k.free))
    && (forall i :: i in k.free ==> i < MAX_PROCS)
  }

  ghost predicate PidsOk(k: K)
    requires Shape(k)
  {
    && k.pidGen > 0
    && (forall i: nat :: i < MAX_PROCS && k.procs[i].state != PROC_FREE ==> 0 < k.procs[i].pid < k.pidGen)
    && (forall i: nat, j: nat :: i < j < MAX_PROCS && k.procs[i].state != PROC_FREE && k.procs[j].state != PROC_FREE ==>
          k.procs[i].pid != k.procs[j].pid)
  }

  // ----- Run queues -----

  predicate InQueues(p: Proc) {
    p.state == RUNNABLE || p.state == ZOMBIE
  }

  /** Every runnable or dead process but those in off is on exactly one run queue, that of its
      priority, and there exactly once; no other process is on any. */
  ghost predicate QueuesOk(k: K, off: set<nat>)
    requires Shape(k)
  {
    && (forall l :: 0 <= l < MAX_PRIORITY ==> NoDup(k.runq[l]))
    && (forall l, i {:trigger i in k.runq[l]} :: 0 <= l < MAX_PRIORITY && i in k.runq[l] ==>
          i < MAX_PROCS && InQueues(k.procs[i]) && i !in off && k.procs[i].priority == l)
    && (forall i: nat :: i < MAX_PROCS && InQueues(k.procs[i]) && i !in off ==> i in k.runq[k.procs[i].priority])
  }

  // ----- Mailboxes -----

  /** A runnable process waits for nothing, and has a reply only if it is about to take it. */
  ghost predicate RunnableOk(p: Proc) {
    && p.boxes == p.boxes.NoneWaiting() && !p.alarm
    && |p.boxes.reply.messages| <= 1
    && (p.boxes.reply.messages != [] ==> p.point == InRecv(REPLY) && p.boxes.reply.messages[0].src == p.server)
  }

  /** A waiting process waits for one type of message, of which there are none; there are no replies. */
  ghost predicate WaitingOk(p: Proc) {
    && p.point.InRecv?
    && (forall t :: p.boxes.Get(t).waiting <==> t == p.point.t)
    && p.boxes.Get(p.point.t).messages == []
    && p.boxes.reply.messages == []
  }

  ghost predicate ProcOk(p: Proc) {
    (p.state == RUNNABLE ==> RunnableOk(p)) && (p.state == WAITING ==> WaitingOk(p))
  }

  ghost predicate SomeLive(ps: seq<Proc>, pid: nat) {
    exists i: nat :: i < |ps| && IsLive(ps[i]) && ps[i].pid == pid
  }

  ghost predicate AwaitsReply(p: Proc) {
    p.state == WAITING && p.boxes.reply.waiting
  }

  /** Nobody waits for a reply from a process that is gone, but for clients of dying (0: none). */
  ghost predicate MailOk(k: K, dying: nat) {
    && (forall i: nat :: i < |k.procs| ==> ProcOk(k.procs[i]))
    && (forall i: nat :: i < |k.procs| && AwaitsReply(k.procs[i]) ==>
          (k.procs[i].server == dying != 0) || SomeLive(k.procs, k.procs[i].server))
  }

  /** The invariant, while the processes in off are not on a run queue and those waiting for a reply
      from dying have not all been woken up. */
  ghost predicate Mid(k: K, off: set<nat>, dying: nat) {
    && Shape(k) && SlotsOk(k) && PidsOk(k) && CountsOk(k)
    && QueuesOk(k, off) && MailOk(k, dying)
    && k.current in off && k.procs[k.current].state != PROC_FREE
    && (forall i :: i in off && i != k.current ==> i < MAX_PROCS && k.procs[i].state != WAITING)
  }

  /** The invariant between steps.  A process that is not yielding is runnable. */
  ghost predicate Inv(k: K) {
    Mid(k, {k.current}, 0) && (!k.yielding ==> k.procs[k.current].state == RUNNABLE)
  }

  // ----- Changing one process -----

  /** Process i becomes p: it keeps its pid, it stays alive if it was, and it does not begin to
      wait for a reply, unless from a process that is alive. */
  ghost predicate Becomes(k: K, i: nat, p: Proc)
    requires Shape(k)
  {
    && i < MAX_PROCS && p.pid == k.procs[i].pid && p.state != PROC_FREE && k.procs[i].state != PROC_FREE
    && (IsLive(k.procs[i]) ==> IsLive(p))
    && (AwaitsReply(p) ==>
          (AwaitsReply(k.procs[i]) && p.server == k.procs[i].server) || SomeLive(k.procs[i := p], p.server))
    && ProcOk(p)
  }

  lemma {:induction false} MailUpdate(k: K, i: nat, p: Proc, dying: nat)
    requires Shape(k) && MailOk(k, dying) && Becomes(k, i, p)
    ensures MailOk(SetProc(k, i, p), dying)
  {
    var ps, ps' := k.procs, k.procs[i := p];
    forall j: nat | j < |ps'| && AwaitsReply(ps'[j]) && !(ps'[j].server == dying != 0) ensures SomeLive(ps', ps'[j].server) {
      if AwaitsReply(ps[j]) && ps[j].server == ps'[j].server {
        var s: nat :| s < |ps| && IsLive(ps[s]) && ps[s].pid == ps[j].server;
        assert IsLive(ps'[s]) && ps'[s].pid == ps'[j].server;
      }
    }
  }

  lemma {:induction false} SlotsUpdate(k: K, i: nat, p: Proc)
    requires Shape(k) && SlotsOk(k) && PidsOk(k) && i < MAX_PROCS
    requires p.pid == k.procs[i].pid && p.state != PROC_FREE && k.procs[i].state != PROC_FREE
    ensures SlotsOk(SetProc(k, i, p)) && PidsOk(SetProc(k, i, p))
  {}

  /** Changes that leave a process on its run queue, or off any. */
  lemma {:induction false} QueuesUpdate(k: K, i: nat, p: Proc, off: set<nat>)
    requires Shape(k) && QueuesOk(k, off) && i < MAX_PROCS
    requires i in off || (InQueues(p) <==> InQueues(k.procs[i]))
    requires i in off || !InQueues(p) || p.priority == k.procs[i].priority
    ensures QueuesOk(SetProc(k, i, p), off)
  {
    var k' := SetProc(k, i, p);
    forall l, j {:trigger j in k'.runq[l]} | 0 <= l < MAX_PRIORITY && j in k'.runq[l]
      ensures j < MAX_PROCS && InQueues(k'.procs[j]) && j !in off && k'.procs[j].priority == l
    {
      assert j in k.runq[l];
    }
  }

  lemma {:induction false} CountsUpdate(k: K, i: nat, p: Proc)
    requires Shape(k) && CountsOk(k) && i < MAX_PROCS && p.state != PROC_FREE && k.procs[i].state != PROC_FREE
    ensures CountsOk(SetProc(k, i, p).(nrunnable := k.nrunnable + (if p.state == RUNNABLE then 1 else 0)
                                                    - (if k.procs[i].state == RUNNABLE then 1 else 0)))
  {
    CountUpdate(k.procs, EXISTING, i, p);
    CountUpdate(k.procs, RUNNING, i, p);
  }

  /** Process i, in off, is added to the run queue of its priority. */
  lemma {:induction false} Enqueue(k: K, i: nat, off: set<nat>)
    requires Shape(k) && QueuesOk(k, off) && i < MAX_PROCS && InQueues(k.procs[i]) && i in off
    ensures QueuesOk(ToRunq(k, i), off - {i})
  {
    var l, k' := k.procs[i].priority, ToRunq(k, i);
    assert k'.runq[l] == k.runq[l] + [i] && i !in k.runq[l];
    assert forall m :: 0 <= m < MAX_PRIORITY && m != l ==> k'.runq[m] == k.runq[m];
    forall a, b | 0 <= a < b < |k'.runq[l]| ensures k'.runq[l][a] != k'.runq[l][b] {
      assert k.runq[l][a] in k.runq[l];
    }
  }

  lemma {:induction false} MidUpdate(k: K, i: nat, p: Proc, off: set<nat>, dying: nat)
    requires Mid(k, off, dying) && Becomes(k, i, p) && p.state == k.procs[i].state
    requires i in off || !InQueues(p) || p.priority == k.procs[i].priority
    ensures Mid(SetProc(k, i, p), off, dying)
  {
    hide SlotsOk, PidsOk, CountsOk, QueuesOk, MailOk, ProcOk;
    MailUpdate(k, i, p, dying);
    SlotsUpdate(k, i, p);
    QueuesUpdate(k, i, p, off);
    CountsUpdate(k, i, p);
    assert SetProc(k, i, p) == SetProc(k, i, p).(nrunnable := k.nrunnable);
  }

  // ----- Waking up -----

  /** Process i, which waits, is made runnable as p. */
  function Awake(k: K, i: nat, p: Proc): K
    requires Shape(k) && i < MAX_PROCS
  {
    var k1 := SetProc(k, i, p).(nrunnable := k.nrunnable + 1);
    if i == k.current then k1 else ToRunq(k1, i)
  }

  lemma {:induction false} AwakeKeeps(k: K, i: nat, p: Proc, off: set<nat>, dying: nat)
    requires Mid(k, off, dying) && i < MAX_PROCS && k.procs[i].state == WAITING
    requires p.state == RUNNABLE && p.pid == k.procs[i].pid && RunnableOk(p)
    ensures Mid(Awake(k, i, p), off, dying)
  {
    hide SlotsOk, PidsOk, CountsOk, QueuesOk, MailOk;
    MailUpdate(k, i, p, dying);
    SlotsUpdate(k, i, p);
    CountsUpdate(k, i, p);
    var k1 := SetProc(k, i, p).(nrunnable := k.nrunnable + 1);
    SameParts(SetProc(k, i, p), k1, dying);
    if i == k.current {
      QueuesUpdate(k, i, p, off);
      SameQueues(SetProc(k, i, p), k1, off);
    } else {
      Unqueued(k, i, p, off);
      SameQueues(SetProc(k, i, p), k1, off + {i});
      Enqueue(k1, i, off + {i});
      assert off + {i} - {i} == off;
      SameParts(k1, ToRunq(k1, i), dying);
    }
  }

  /** Parts of the invariant that do not look at the rest of the state. */
  lemma SameParts(k: K, k': K, dying: nat)
    requires Shape(k) && Shape(k') && k'.procs == k.procs
    ensures k'.free == k.free ==> (SlotsOk(k') <==> SlotsOk(k))
    ensures k'.pidGen == k.pidGen ==> (PidsOk(k') <==> PidsOk(k))
    ensures k'.nprocs == k.nprocs && k'.nrunnable == k.nrunnable ==> (CountsOk(k') <==> CountsOk(k))
    ensures MailOk(k', dying) <==> MailOk(k, dying)
  {}

  lemma SameQueues(k: K, k': K, off: set<nat>)
    requires Shape(k) && Shape(k') && k'.procs == k.procs && k'.runq == k.runq
    ensures QueuesOk(k', off) <==> QueuesOk(k, off)
  {}

  /** A process on no run queue may change its state if it stays off them. */
  lemma {:induction false} Unqueued(k: K, i: nat, p: Proc, off: set<nat>)
    requires Shape(k) && QueuesOk(k, off) && i < MAX_PROCS && (i in off || !InQueues(k.procs[i]))
    ensures QueuesOk(SetProc(k, i, p), off + {i})
  {
    var k' := SetProc(k, i, p);
    forall l, j {:trigger j in k'.runq[l]} | 0 <= l < MAX_PRIORITY && j in k'.runq[l]
      ensures j < MAX_PROCS && InQueues(k'.procs[j]) && j !in off + {i} && k'.procs[j].priority == l
    {
      assert j in k.runq[l];
    }
  }

  lemma {:induction false} DeliverKeeps(k: K, off: set<nat>, dying: nat, i: nat, t: MsgType, m: Message)
    requires Mid(k, off, dying) && i < MAX_PROCS && IsLive(k.procs[i]) && Accepts(k.procs[i], m.src, t)
    ensures Mid(Deliver(k, i, t, m), off, dying)
    ensures forall j: nat :: j < MAX_PROCS && j != i ==> Deliver(k, i, t, m).procs[j] == k.procs[j]
  {
    hide SlotsOk, PidsOk, CountsOk, QueuesOk;
    var p := k.procs[i];
    assert ProcOk(p);
    if !p.boxes.Get(t).waiting {
      MidUpdate(k, i, WithMessage(p, t, m), off, dying);
    } else {
      WokenOk(p, t, m);
      AwakeKeeps(k, i, WithMessage(p, t, m).(state := RUNNABLE, alarm := false), off, dying);
    }
  }

  lemma WokenOk(p: Proc, t: MsgType, m: Message)
    requires p.state == WAITING && WaitingOk(p) && p.boxes.Get(t).waiting && Accepts(p, m.src, t)
    ensures RunnableOk(WithMessage(p, t, m).(state := RUNNABLE, alarm := false))
  {
    assert p.boxes.Get(REQUEST).waiting == (t == REQUEST);
    assert p.boxes.Get(REPLY).waiting == (t == REPLY);
    assert p.boxes.Get(EVENT).waiting == (t == EVENT);
  }

  /** Runnable processes stay so, and the dead stay dead. */
  ghost predicate KeepsStates(k: K, k': K) {
    |k'.procs| == |k.procs| && forall j: nat :: j < |k.procs| && InQueues(k.procs[j]) ==> k'.procs[j].state == k.procs[j].state
  }

  /** Sending keeps the invariant, whoever sends what to whom. */
  lemma {:induction false} SendKeeps(k: K, off: set<nat>, dying: nat, src: nat, dst: nat, t: MsgType, c: Contents)
    requires Mid(k, off, dying)
    ensures Mid(Send(k, src, dst, t, c), off, dying)
    ensures KeepsStates(k, Send(k, src, dst, t, c))
  {
    if SendOk(k, src, dst, t) {
      DeliverKeeps(k, off, dying, Find(k.procs, dst, 0), t, Message(src, c));
    }
  }

  lemma {:induction false} WakeupKeeps(k: K, i: nat, off: set<nat>, dying: nat)
    requires Mid(k, off, dying) && i < MAX_PROCS && k.procs[i].state == WAITING
    ensures Mid(Wakeup(k, i), off, dying)
    ensures forall j: nat :: j < MAX_PROCS && j != i ==> Wakeup(k, i).procs[j] == k.procs[j]
    ensures Wakeup(k, i).procs[i].state == RUNNABLE
  {
    hide SlotsOk, PidsOk, CountsOk, QueuesOk;
    var p := k.procs[i].(state := RUNNABLE, alarm := false, boxes := k.procs[i].boxes.NoneWaiting());
    assert ProcOk(k.procs[i]);
    var q := if i == k.current then p
             else p.(priority := if p.priority == MAX_PRIORITY - 1 then p.priority - 1 else p.priority);
    AwakeKeeps(k, i, q, off, dying);
    assert Wakeup(k, i) == Awake(k, i, q);
  }

  lemma {:induction false} WakeClientsKeeps(k: K, pid: nat, i: nat, off: set<nat>)
    requires Mid(k, off, pid) && i <= MAX_PROCS && pid != 0
    requires forall j: nat :: j < i ==> !WaitsFor(k.procs[j], pid)
    ensures Mid(WakeClients(k, pid, i), off, 0)
    ensures KeepsStates(k, WakeClients(k, pid, i))
    decreases MAX_PROCS - i
  {
    hide SlotsOk, PidsOk, CountsOk, QueuesOk, MailOk, Wakeup;
    if i < MAX_PROCS {
      if WaitsFor(k.procs[i], pid) {
        WakeupKeeps(k, i, off, pid);
        WakeClientsKeeps(Wakeup(k, i), pid, i + 1, off);
      } else {
        WakeClientsKeeps(k, pid, i + 1, off);
      }
    } else {
      NoClientsLeft(k, pid);
    }
  }

  lemma NoClientsLeft(k: K, pid: nat)
    requires Shape(k) && MailOk(k, pid) && forall j: nat :: j < MAX_PROCS ==> !WaitsFor(k.procs[j], pid)
    ensures MailOk(k, 0)
  {}

  // ----- Dying -----

  /** Process i is dead: clients waiting for it are not woken up yet, and it is off the run queue if
      it was. */
  lemma {:induction false} DieKeeps(k: K, i: nat, off: set<nat>)
    requires Mid(k, off, 0) && i < MAX_PROCS && IsLive(k.procs[i])
    ensures Mid(Dead(k, i), OffAfter(k, i, off), k.procs[i].pid)
  {
    hide SlotsOk, CountsOk, QueuesOk, ProcOk;
    var p := k.procs[i];
    var p' := p.(state := ZOMBIE);
    var k' := Dead(k, i);
    SlotsUpdate(k, i, p');
    CountsUpdate(k, i, p');
    DeadMail(k, i, p');
    SameParts(SetProc(k, i, p'), k', p.pid);
    if p.state == WAITING {
      Unqueued(k, i, p', off);
      SameQueues(SetProc(k, i, p'), k', off + {i});
    } else {
      QueuesUpdate(k, i, p', off);
      SameQueues(SetProc(k, i, p'), k', off);
    }
  }

  lemma {:induction false} DeadMail(k: K, i: nat, p: Proc)
    requires Shape(k) && MailOk(k, 0) && PidsOk(k) && i < MAX_PROCS && IsLive(k.procs[i])
    requires p.pid == k.procs[i].pid && p.state == ZOMBIE
    ensures MailOk(SetProc(k, i, p), p.pid)
  {
    hide RunnableOk, WaitingOk;
    var ps, ps' := k.procs, k.procs[i := p];
    forall j: nat | j < |ps'| ensures ProcOk(ps'[j]) {
      assert j != i ==> ProcOk(ps[j]);
    }
    forall j: nat | j < |ps'| && AwaitsReply(ps'[j]) && ps'[j].server != p.pid ensures SomeLive(ps', ps'[j].server) {
      assert AwaitsReply(ps[j]) && ps'[j] == ps[j];
      var s: nat :| s < |ps| && IsLive(ps[s]) && ps[s].pid == ps[j].server;
      assert s != i && IsLive(ps'[s]);
    }
  }

  ghost function OffAfter(k: K, i: nat, off: set<nat>): set<nat>
    requires i < |k.procs|
  {
    if k.procs[i].state == WAITING then off + {i} else off
  }

  /** A dying process unblocks all its clients. */
  lemma {:induction false} TermKeeps(k: K, i: nat, status: int, off: set<nat>)
    requires Mid(k, off, 0) && i < MAX_PROCS && k.procs[i].state != PROC_FREE
    ensures Mid(Term(k, i, status), OffAfter(k, i, off), 0)
    ensures Term(k, i, status).procs[i].state == ZOMBIE
    ensures forall j: nat :: j < MAX_PROCS && j != i && InQueues(k.procs[j]) ==> Term(k, i, status).procs[j].state == k.procs[j].state
  {
    hide SlotsOk, CountsOk, QueuesOk, MailOk, Send, WakeClients, ProcOk;
    var p := k.procs[i];
    if p.state != ZOMBIE {
      DieKeeps(k, i, off);
      var off1 := OffAfter(k, i, off);
      var k1 := Dead(k, i);
      var o := Find(k1.procs, p.owner, 0);
      var k2 := if o == MAX_PROCS then k1 else Send(k1, p.pid, k1.procs[o].pid, EVENT, Died(p.pid, status));
      if o != MAX_PROCS { SendKeeps(k1, off1, p.pid, p.pid, k1.procs[o].pid, EVENT, Died(p.pid, status)); }
      WakeClientsKeeps(k2, p.pid, 0, off1);
    }
  }

  lemma {:induction false} ReleaseKeeps(k: K, i: nat, off: set<nat>)
    requires Mid(k, off, 0) && i in off && i != k.current && k.procs[i].state == ZOMBIE
    ensures Mid(Release(k, i), off - {i}, 0)
  {
    hide ProcOk;
    var k' := Release(k, i);
    CountUpdate(k.procs, EXISTING, i, k'.procs[i]);
    CountUpdate(k.procs, RUNNING, i, k'.procs[i]);
    ReleaseMail(k, i);
    ReleaseSlots(k, i);
    ReleaseQueues(k, i, off);
  }

  lemma {:induction false} ReleaseSlots(k: K, i: nat)
    requires Shape(k) && SlotsOk(k) && i < MAX_PROCS && k.procs[i].state == ZOMBIE
    ensures SlotsOk(Release(k, i))
  {}

  lemma {:induction false} ReleaseQueues(k: K, i: nat, off: set<nat>)
    requires Shape(k) && QueuesOk(k, off) && i < MAX_PROCS && i in off
    ensures QueuesOk(Release(k, i), off - {i})
  {
    var k' := Release(k, i);
    forall l, j {:trigger j in k'.runq[l]} | 0 <= l < MAX_PRIORITY && j in k'.runq[l]
      ensures j < MAX_PROCS && InQueues(k'.procs[j]) && j !in off - {i} && k'.procs[j].priority == l
    {
      assert j in k.runq[l];
    }
  }

  lemma {:induction false} ReleaseMail(k: K, i: nat)
    requires Shape(k) && MailOk(k, 0) && i < MAX_PROCS && k.procs[i].state == ZOMBIE
    ensures MailOk(Release(k, i), 0)
  {
    hide RunnableOk, WaitingOk;
    var ps, ps' := k.procs, Release(k, i).procs;
    forall j: nat | j < |ps'| ensures ProcOk(ps'[j]) {
      assert j != i ==> ProcOk(ps[j]);
    }
    forall j: nat | j < |ps'| && AwaitsReply(ps'[j]) ensures SomeLive(ps', ps'[j].server) {
      assert AwaitsReply(ps[j]) && ps'[j] == ps[j];
      var s: nat :| s < |ps| && IsLive(ps[s]) && ps[s].pid == ps[j].server;
      assert s != i && IsLive(ps'[s]);
    }
  }

  /** Killing keeps the invariant, whoever is killed in whatever state. */
  lemma {:induction false} ZapKeeps(k: K, killer: nat, i: nat, status: int)
    requires Mid(k, {k.current}, 0) && i < MAX_PROCS && k.procs[i].state != PROC_FREE
    ensures Mid(Zap(k, killer, i, status), {k.current}, 0)
    ensures i != k.current && InQueues(k.procs[k.current]) ==>
      Zap(k, killer, i, status).procs[k.current].state == k.procs[k.current].state
    ensures InQueues(k.procs[k.current]) ==> InQueues(Zap(k, killer, i, status).procs[k.current])
  {
    hide SlotsOk, PidsOk, CountsOk, QueuesOk, MailOk, Term;
    if MayKill(k, killer, i) && k.procs[i].state != ZOMBIE {
      TermKeeps(k, i, status, {k.current});
      if k.procs[i].state == WAITING && i != k.current {
        ReleaseKeeps(Term(k, i, status), i, {k.current} + {i});
        assert {k.current} + {i} - {i} == {k.current};
      } else {
        assert OffAfter(k, i, {k.current}) == {k.current};
      }
    }
  }

  /** Killing all interruptable processes */
  lemma {:induction false} ZapAllKeeps(k: K, killer: nat, status: int, i: nat)
    requires Mid(k, {k.current}, 0) && i <= MAX_PROCS
    ensures Mid(ZapAll(k, killer, status, i), {k.current}, 0)
    ensures InQueues(k.procs[k.current]) ==> InQueues(ZapAll(k, killer, status, i).procs[k.current])
    decreases MAX_PROCS - i
  {
    hide SlotsOk, PidsOk, CountsOk, QueuesOk, MailOk, Zap;
    if i < MAX_PROCS {
      if k.procs[i].state != PROC_FREE && k.procs[i].interruptable {
        ZapKeeps(k, killer, i, status);
        ZapAllKeeps(Zap(k, killer, i, status), killer, status, i + 1);
      } else {
        ZapAllKeeps(k, killer, status, i + 1);
      }
    }
  }

  // ----- Scheduling -----

  lemma {:induction false} TickKeeps(k: K, now: nat, i: nat)
    requires Mid(k, {k.current}, 0) && i <= MAX_PROCS
    ensures Mid(Tick(k, now, i), {k.current}, 0)
    decreases MAX_PROCS - i
  {
    hide SlotsOk, PidsOk, CountsOk, QueuesOk, MailOk, Zap, Wakeup;
    if i < MAX_PROCS {
      var p := k.procs[i];
      if k.shutdown && p.state != PROC_FREE {
        ZapKeeps(k, MAX_PROCS, i, STAT_SHUTDOWN);
        TickKeeps(Zap(k, MAX_PROCS, i, STAT_SHUTDOWN), now, i + 1);
      } else if p.state == WAITING && p.alarm && p.exptime <= now {
        WakeupKeeps(k, i, {k.current}, 0);
        WakeupCurrent(k, i);
        TickKeeps(Wakeup(k, i), now, i + 1);
      } else {
        TickKeeps(k, now, i + 1);
      }
    }
  }

  lemma WakeupCurrent(k: K, i: nat)
    requires Shape(k) && i < MAX_PROCS
    ensures Wakeup(k, i).current == k.current
  {}

  lemma QueuesInRange(k: K, off: set<nat>)
    requires Shape(k) && QueuesOk(k, off)
    ensures QueueRange(k)
  {
    forall l, a | 0 <= l < MAX_PRIORITY && 0 <= a < |k.runq[l]| ensures k.runq[l][a] < MAX_PROCS {
      assert k.runq[l][a] in k.runq[l];
    }
  }

  lemma {:induction false} PopKeeps(k: K, level: nat, off: set<nat>)
    requires Mid(k, off, 0) && level < MAX_PRIORITY && k.runq[level] != []
    ensures var i := k.runq[level][0];
      && Mid(Pop(k, level), off + {i}, 0) && i < MAX_PROCS && i !in off && InQueues(k.procs[i]) && k.procs[i].priority == level
  {
    hide SlotsOk, PidsOk, CountsOk, MailOk;
    var i, k' := k.runq[level][0], Pop(k, level);
    assert i in k.runq[level];
    SameParts(k, k', 0);
    PopQueues(k, level, off);
  }

  lemma {:induction false} PopQueues(k: K, level: nat, off: set<nat>)
    requires Shape(k) && QueuesOk(k, off) && level < MAX_PRIORITY && k.runq[level] != []
    ensures QueuesOk(Pop(k, level), off + {k.runq[level][0]})
  {
    var q, i, k' := k.runq[level], k.runq[level][0], Pop(k, level);
    assert q == [i] + q[1..] && i in q;
    assert i !in q[1..];
    forall l, j {:trigger j in k'.runq[l]} | 0 <= l < MAX_PRIORITY && j in k'.runq[l]
      ensures j < MAX_PROCS && InQueues(k'.procs[j]) && j !in off + {i} && k'.procs[j].priority == l
    {
      assert j in k.runq[l];
    }
  }

  /** No runnable process on the run queues before level. */
  ghost predicate EmptyBefore(k: K, level: nat)
    requires Shape(k) && level <= MAX_PRIORITY
  {
    forall l :: 0 <= l < level ==> k.runq[l] == []
  }

  /** The process that proc_yield picks is runnable, is not the current one, and no process on a run
      queue has a higher priority; if it picks none, no other process is runnable. */
  lemma {:induction false} SelectKeeps(k: K, level: nat)
    requires Mid(k, {k.current}, 0) && level <= MAX_PRIORITY && EmptyBefore(k, level)
    ensures QueueRange(k)
    ensures var c := Select(k, level);
      if c.next == MAX_PROCS then
        Mid(c.k, {k.current}, 0) && forall l :: 0 <= l < MAX_PRIORITY ==> c.k.runq[l] == []
      else
        && Mid(c.k, {k.current, c.next}, 0) && c.next != k.current
        && forall l :: 0 <= l < c.k.procs[c.next].priority ==> c.k.runq[l] == []
    ensures Select(k, level).k.procs[k.current] == k.procs[k.current]
    decreases MAX_PRIORITY - level, if level < MAX_PRIORITY then |k.runq[level]| else 0
  {
    hide SlotsOk, PidsOk, CountsOk, MailOk, QueuesOk;
    QueuesInRange(k, {k.current});
    if level < MAX_PRIORITY {
      if k.runq[level] == [] {
        SelectKeeps(k, level + 1);
      } else {
        var i, k1 := k.runq[level][0], Pop(k, level);
        PopKeeps(k, level, {k.current});
        assert {k.current} + {i} == {k.current, i};
        if k.procs[i].state != RUNNABLE {
          ReleaseKeeps(k1, i, {k.current, i});
          assert {k.current, i} - {i} == {k.current};
          SelectKeeps(Release(k1, i), level);
        }
      }
    }
  }

  /** The next process becomes the current one; the old one is queued, released or left waiting. */
  lemma {:induction false} SwitchKeeps(k: K, n: nat)
    requires Mid(k, {k.current, n}, 0) && n < MAX_PROCS && n != k.current && k.procs[n].state == RUNNABLE
    ensures Inv(Switch(k, n)) && Switch(k, n).current == n
  {
    hide SlotsOk, PidsOk, CountsOk, MailOk, QueuesOk;
    var c, k1 := k.current, k.(current := n, yielding := false);
    SameParts(k, k1, 0);
    SameQueues(k, k1, {c, n});
    match k.procs[c].state
    case RUNNABLE =>
      Enqueue(k1, c, {c, n});
      assert {c, n} - {c} == {n};
      SameParts(k1, ToRunq(k1, c), 0);
      assert Switch(k, n) == ToRunq(k1, c);
    case ZOMBIE =>
      ReleaseKeeps(k1, c, {c, n});
      assert {c, n} - {c} == {n};
      assert Switch(k, n) == Release(k1, c);
    case WAITING =>
      LeaveWaiting(k1, c, n);
      assert Switch(k, n) == k1;
  }

  lemma LeaveWaiting(k: K, c: nat, n: nat)
    requires Shape(k) && QueuesOk(k, {c, n}) && c < MAX_PROCS && !InQueues(k.procs[c])
    ensures QueuesOk(k, {n})
  {
    forall l, j {:trigger j in k.runq[l]} | 0 <= l < MAX_PRIORITY && j in k.runq[l] ensures j != c && j != n {}
  }
}
