/** Time and order: who is woken up when, and who runs next. */
module KernelRounds {
  import opened KernelState
  import opened KernelInv
  import opened KernelSteps
  import opened KernelMail
  import opened KernelRights

  // ----- Timeouts -----

  predicate IsLate(p: Proc, now: nat) {
    p.state == WAITING && p.alarm && p.exptime <= now
  }

  lemma WokenUp(k: K, i: nat)
    requires Shape(k) && i < MAX_PROCS
    ensures var k' := Wakeup(k, i);
      && Shape(k') && k'.shutdown == k.shutdown && k'.procs == k.procs[i := k'.procs[i]]
      && k'.procs[i].state == RUNNABLE && !k'.procs[i].alarm && k'.procs[i].boxes == k.procs[i].boxes.NoneWaiting()
  {}

  /** Exactly the processes whose time is up are woken up; the others stay as they are. */
  lemma {:induction false} TickWakes(k: K, now: nat, i: nat)
    requires Shape(k) && i <= MAX_PROCS && !k.shutdown
    ensures var k' := Tick(k, now, i);
      forall j: nat :: j < MAX_PROCS ==>
        if j >= i && IsLate(k.procs[j], now) then
          k'.procs[j].state == RUNNABLE && !k'.procs[j].alarm && k'.procs[j].boxes == k.procs[j].boxes.NoneWaiting()
        else k'.procs[j] == k.procs[j]
    decreases MAX_PROCS - i
  {
    hide Wakeup;
    if i < MAX_PROCS {
      var k1 := if IsLate(k.procs[i], now) then Wakeup(k, i) else k;
      if IsLate(k.procs[i], now) { WokenUp(k, i); }
      TickWakes(k1, now, i + 1);
    }
  }

  /** A process that is woken up without a message is queued last, and not on the lowest of the levels. */
  lemma WakeupQueues(k: K, i: nat)
    requires Shape(k) && i < MAX_PROCS && i != k.current
    ensures var k' := Wakeup(k, i); var l := k'.procs[i].priority;
      && l < MAX_PRIORITY - 1 && l <= k.procs[i].priority <= l + 1 && (l != k.procs[i].priority ==> l == MAX_PRIORITY - 2)
      && k'.runq == k.runq[l := k.runq[l] + [i]]
  {}

  /** Once the system is shutting down, nobody outlives the loop. */
  lemma {:induction false} TickKills(k: K, now: nat, i: nat)
    requires Mid(k, {k.current}, 0) && i <= MAX_PROCS && k.shutdown
    ensures forall j: nat :: i <= j < MAX_PROCS || (j < MAX_PROCS && Gone(k.procs[j])) ==> Gone(Tick(k, now, i).procs[j])
    decreases MAX_PROCS - i
  {
    hide SlotsOk, PidsOk, CountsOk, QueuesOk, MailOk, Zap;
    if i < MAX_PROCS {
      var k1 := if k.procs[i].state != PROC_FREE then Zap(k, MAX_PROCS, i, STAT_SHUTDOWN) else k;
      if k.procs[i].state != PROC_FREE {
        ZapKeeps(k, MAX_PROCS, i, STAT_SHUTDOWN);
        ZapDead(k, MAX_PROCS, i, STAT_SHUTDOWN);
        ZapFlag(k, MAX_PROCS, i, STAT_SHUTDOWN);
      }
      TickKills(k1, now, i + 1);
    }
  }

  lemma {:induction false} ClientsFlag(k: K, pid: nat, i: nat)
    requires Shape(k) && i <= MAX_PROCS
    ensures WakeClients(k, pid, i).shutdown == k.shutdown
    decreases MAX_PROCS - i
  {
    if i < MAX_PROCS { ClientsFlag(if WaitsFor(k.procs[i], pid) then Wakeup(k, i) else k, pid, i + 1); }
  }

  lemma SendFlag(k: K, src: nat, dst: nat, t: MsgType, c: Contents)
    requires Shape(k)
    ensures Shape(Send(k, src, dst, t, c)) && Send(k, src, dst, t, c).shutdown == k.shutdown
  {}

  lemma {:induction false} TermFlag(k: K, i: nat, status: int)
    requires Shape(k) && i < MAX_PROCS
    ensures Term(k, i, status).shutdown == k.shutdown
  {
    hide Send, WakeClients, Find;
    var p, k1 := k.procs[i], Dead(k, i);
    if p.state != ZOMBIE {
      var o := Find(k1.procs, p.owner, 0);
      var k2 := if o == MAX_PROCS then k1 else Send(k1, p.pid, k1.procs[o].pid, EVENT, Died(p.pid, status));
      if o < MAX_PROCS { SendFlag(k1, p.pid, k1.procs[o].pid, EVENT, Died(p.pid, status)); }
      ClientsFlag(k2, p.pid, 0);
    }
  }

  lemma {:induction false} ZapFlag(k: K, killer: nat, i: nat, status: int)
    requires Shape(k) && i < MAX_PROCS
    ensures Zap(k, killer, i, status).shutdown == k.shutdown
  {
    hide Term;
    TermFlag(k, i, status);
  }

  /** proc_recv returns at once exactly if there is a message. */
  lemma {:induction false} RecvWaits(k: K, t: MsgType, maxTime: nat, now: nat)
    requires Inv(k) && Ready(k)
    ensures var k' := RecvStart(k, t, maxTime, now);
      if k.procs[k.current].boxes.Get(t).messages != [] then
        Receiving(k') && RecvFinish(k').1 == Received(k.procs[k.current].boxes.Get(t).messages[0])
      else
        k'.yielding && Shape(k') && k'.procs[k.current].state == WAITING && forall u :: k'.procs[k.current].boxes.Get(u).waiting <==> u == t
  {
    hide SlotsOk, PidsOk, CountsOk, QueuesOk;
    assert ProcOk(k.procs[k.current]);
    var b := k.procs[k.current].boxes;
    assert forall u :: b.NoneWaiting().Get(u) == b.Get(u).(waiting := false);
  }

  /** A process that waits since time now is woken up by the time exactly when maxTime is over; never if that is 0. */
  lemma {:induction false} RecvTimesOut(k: K, t: MsgType, maxTime: nat, now: nat, later: nat)
    requires Inv(k) && Ready(k) && !k.shutdown && k.procs[k.current].boxes.Get(t).messages == []
    ensures var k1 := RecvStart(k, t, maxTime, now);
      Tick(k1, later, 0).procs[k.current].state == RUNNABLE <==> maxTime > 0 && now + maxTime <= later
  {
    hide SlotsOk, PidsOk, CountsOk, QueuesOk;
    assert ProcOk(k.procs[k.current]);
    var k1 := RecvStart(k, t, maxTime, now);
    TickWakes(k1, later, 0);
    assert IsLate(k1.procs[k.current], later) <==> maxTime > 0 && now + maxTime <= later;
  }

  // ----- Who runs next -----

  /** The run queues from level on, one behind the other: the order of precedence */
  ghost function Precedence(k: K, level: nat): seq<nat>
    requires |k.runq| == MAX_PRIORITY && level <= MAX_PRIORITY
    decreases MAX_PRIORITY - level
  {
    if level == MAX_PRIORITY then [] else k.runq[level] + Precedence(k, level + 1)
  }

  /** None of the first n processes of the queue can run. */
  ghost predicate NoneRuns(ps: seq<Proc>, q: seq<nat>, n: nat)
    requires n <= |q|
  {
    forall a :: 0 <= a < n ==> q[a] < |ps| && ps[q[a]].state != RUNNABLE
  }

  lemma {:induction false} PrecedenceStep(k: K, level: nat, i: nat)
    requires QueueRange(k) && level < MAX_PRIORITY && k.runq[level] != [] && i == k.runq[level][0]
    ensures Precedence(k, level) == [i] + Precedence(Pop(k, level), level)
    ensures Release(Pop(k, level), i).runq == Pop(k, level).runq
  {
    assert k.runq[level] == [i] + k.runq[level][1..];
    SameRest(k, Pop(k, level), level + 1);
  }

  lemma {:induction false} SameRest(k: K, k': K, level: nat)
    requires |k.runq| == |k'.runq| == MAX_PRIORITY && level <= MAX_PRIORITY
    requires forall l :: level <= l < MAX_PRIORITY ==> k'.runq[l] == k.runq[l]
    ensures Precedence(k', level) == Precedence(k, level)
    decreases MAX_PRIORITY - level
  {
    if level < MAX_PRIORITY { SameRest(k, k', level + 1); }
  }

  lemma {:induction false} NoneRunsMore(k: K, i: nat, q: seq<nat>, n: nat)
    requires Shape(k) && i < MAX_PROCS && k.procs[i].state != RUNNABLE && n <= |q|
    requires NoneRuns(Release(k, i).procs, q, n)
    ensures NoneRuns(k.procs, [i] + q, n + 1)
  {
    forall a | 0 <= a < n + 1 ensures ([i] + q)[a] < MAX_PROCS && k.procs[([i] + q)[a]].state != RUNNABLE {
      if a > 0 { assert ([i] + q)[a] == q[a - 1]; }
    }
  }

  /** What the search makes of the queues: process n in the order of precedence is the first that can run, and those
      up to it are off the queues; or nobody can run (n is the number of all), and the queues are empty. */
  ghost predicate Picks(k: K, level: nat, c: Choice, n: nat)
    requires |k.runq| == |c.k.runq| == MAX_PRIORITY && level <= MAX_PRIORITY
  {
    var q := Precedence(k, level);
    && n <= |q| && NoneRuns(k.procs, q, n)
    && if c.next == MAX_PROCS then n == |q| && Precedence(c.k, level) == []
       else n < |q| && q[n] == c.next && c.next < |k.procs| && k.procs[c.next].state == RUNNABLE && Precedence(c.k, level) == q[n + 1..]
  }

  /** The process that is picked is the first that can run, by the level of its queue and then by its place there. */
  lemma {:induction false} SelectIsFirst(k: K, level: nat) returns (n: nat)
    requires QueueRange(k) && level <= MAX_PRIORITY
    ensures Picks(k, level, Select(k, level), n)
    decreases MAX_PRIORITY - level, if level < MAX_PRIORITY then |k.runq[level]| else 0
  {
    hide Release, NoneRuns;
    InShape(k);
    if level == MAX_PRIORITY {
      n := 0;
      NoneOfNone(k, level);
    } else if k.runq[level] == [] {
      n := SelectIsFirst(k, level + 1);
      EmptyLevel(k, level, n);
    } else {
      var i := k.runq[level][0];
      PrecedenceStep(k, level, i);
      FirstInRange(k, level);
      if k.procs[i].state == RUNNABLE {
        n := 0;
        NoneOfNone(k, level);
        assert ([i] + Precedence(Pop(k, level), level))[1..] == Precedence(Pop(k, level), level);
      } else {
        var k2 := Release(Pop(k, level), i);
        PopShrinks(k, level, i);
        n := SelectIsFirst(k2, level);
        SkippedOne(k, level, i, n);
        n := n + 1;
      }
    }
  }

  lemma InShape(k: K)
    requires QueueRange(k)
    ensures Shape(k)
  {}

  lemma FirstInRange(k: K, level: nat)
    requires QueueRange(k) && level < MAX_PRIORITY && k.runq[level] != []
    ensures k.runq[level][0] < MAX_PROCS
  {}

  lemma NoneOfNone(k: K, level: nat)
    requires |k.runq| == MAX_PRIORITY && level <= MAX_PRIORITY
    ensures NoneRuns(k.procs, Precedence(k, level), 0)
  {}

  /** The queues before level are not looked at, and of the others only the front goes. */
  lemma {:induction false} SelectShrinks(k: K, level: nat)
    requires QueueRange(k) && level <= MAX_PRIORITY
    ensures Shape(Select(k, level).k) && forall m :: 0 <= m < level ==> Select(k, level).k.runq[m] == k.runq[m]
    ensures forall m :: level <= m < MAX_PRIORITY ==> IsRest(Select(k, level).k.runq[m], k.runq[m])
    decreases MAX_PRIORITY - level, if level < MAX_PRIORITY then |k.runq[level]| else 0
  {
    if level == MAX_PRIORITY {
    } else if k.runq[level] == [] {
      SelectShrinks(k, level + 1);
    } else {
      var i := k.runq[level][0];
      RestNext(k.runq[level]);
      if k.procs[i].state != RUNNABLE {
        PopShrinks(k, level, i);
        var k2 := Release(Pop(k, level), i);
        SelectShrinks(k2, level);
        RestTwice(k.runq[level], k2.runq[level], Select(k2, level).k.runq[level]);
      }
    }
  }

  /** r is q without some at its front. */
  ghost predicate IsRest(r: seq<nat>, q: seq<nat>) {
    |r| <= |q| && r == q[|q| - |r|..]
  }

  lemma RestNext(q: seq<nat>)
    requires q != []
    ensures IsRest(q[1..], q)
  {}

  lemma RestTwice(q: seq<nat>, r: seq<nat>, s: seq<nat>)
    requires IsRest(r, q) && IsRest(s, r)
    ensures IsRest(s, q)
  {}

  lemma EmptyPrecedence(k: K, level: nat)
    requires |k.runq| == MAX_PRIORITY && level < MAX_PRIORITY && k.runq[level] == []
    ensures Precedence(k, level) == Precedence(k, level + 1)
  {
    assert [] + Precedence(k, level + 1) == Precedence(k, level + 1);
  }

  lemma {:induction false} EmptyLevel(k: K, level: nat, n: nat)
    requires QueueRange(k) && level < MAX_PRIORITY && k.runq[level] == [] && Shape(Select(k, level + 1).k)
    requires Picks(k, level + 1, Select(k, level + 1), n)
    ensures Picks(k, level, Select(k, level), n)
  {
    hide NoneRuns, Precedence, Release, Pop;
    SelectShrinks(k, level + 1);
    var c := Select(k, level + 1);
    EmptyPrecedence(k, level);
    EmptyPrecedence(c.k, level);
  }

  lemma {:induction false} SkippedOne(k: K, level: nat, i: nat, n: nat)
    requires QueueRange(k) && level < MAX_PRIORITY && k.runq[level] != [] && i == k.runq[level][0]
    requires k.procs[i].state != RUNNABLE && QueueRange(Release(Pop(k, level), i))
    requires Picks(Release(Pop(k, level), i), level, Select(Release(Pop(k, level), i), level), n)
    ensures Picks(k, level, Select(k, level), n + 1)
  {
    hide NoneRuns, Precedence;
    var k1, k2 := Pop(k, level), Release(Pop(k, level), i);
    PrecedenceStep(k, level, i);
    SamePrecedence(k1, k2, level);
    var q := Precedence(k2, level);
    assert SelectSkips(k, level, i);
    NoneRunsMore(k, i, q, n);
    assert ([i] + q)[n + 1..] == q[n..];
    assert n < |q| ==> ([i] + q)[n + 1] == q[n] && ([i] + q)[n + 2..] == q[n + 1..];
  }

  /** The first of the queue cannot run: it is released. */
  ghost predicate SelectSkips(k: K, level: nat, i: nat)
    requires QueueRange(k) && level < MAX_PRIORITY && i < MAX_PROCS && k.runq[level] != []
  {
    QueueRange(Release(Pop(k, level), i)) && Select(k, level) == Select(Release(Pop(k, level), i), level)
  }

  lemma SamePrecedence(k: K, k': K, level: nat)
    requires |k.runq| == MAX_PRIORITY && level <= MAX_PRIORITY && k'.runq == k.runq
    ensures Precedence(k', level) == Precedence(k, level)
  {
    SameRest(k, k', level);
  }

  /** What a round comes to if no other process can run than the current one, if that */
  function Without(p: Proc, k: K): Outcome {
    if p.state == RUNNABLE then Stays else if k.nprocs == 1 && k.shutdown then Halts else Again
  }

  /** What a round comes to: the first process in the order of precedence that can run, after those whose time is up have
      been woken up, is the next; without one, the current process goes on if it can; without that, the system halts if it
      is shutting down and no other process is left. */
  lemma {:induction false} RoundMeans(k: K, now: nat) returns (n: nat)
    requires Inv(k)
    ensures var t, r := Tick(k, now, 0), Round(k, now);
      && QueueRange(t) && t.current == k.current && Shape(r.0)
      && var q := Precedence(t, 0);
      && n <= |q| && NoneRuns(t.procs, q, n)
      && (n < |q| ==> q[n] < MAX_PROCS && t.procs[q[n]].state == RUNNABLE && r.1 == Switched && r.0.current == q[n])
      && (n == |q| ==> r.0.current == k.current && r.1 == Without(t.procs[k.current], r.0))
  {
    hide Mid, Tick, Select, Switch, NoneRuns, Picks;
    InvShape(k);
    RoundKeeps(k, now);
    var t := Tick(k, now, 0);
    InShape(t);
    n := SelectIsFirst(t, 0);
    var c := Select(t, 0);
    PicksMeans(t, c, n);
    if c.next < MAX_PROCS { SwitchedTo(c.k, c.next); } else { TickMid(k, now); CurrentKept(t); }
  }

  lemma PicksMeans(t: K, c: Choice, n: nat)
    requires |t.runq| == |c.k.runq| == MAX_PRIORITY && |t.procs| == MAX_PROCS && c.next <= MAX_PROCS && Picks(t, 0, c, n)
    ensures var q := Precedence(t, 0);
      && n <= |q| && NoneRuns(t.procs, q, n) && (n == |q| <==> c.next == MAX_PROCS)
      && (n < |q| ==> q[n] == c.next && t.procs[q[n]].state == RUNNABLE)
  {}

  lemma SwitchedTo(k: K, n: nat)
    requires Shape(k) && n < MAX_PROCS
    ensures Shape(Switch(k, n)) && Switch(k, n).current == n
  {}

  lemma TickMid(k: K, now: nat)
    requires Inv(k)
    ensures Mid(Tick(k, now, 0), {k.current}, 0) && Tick(k, now, 0).current == k.current
  {
    TickKeeps(k, now, 0);
  }

  lemma CurrentKept(t: K)
    requires Mid(t, {t.current}, 0) && QueueRange(t)
    ensures Select(t, 0).k.procs[t.current] == t.procs[t.current] && Select(t, 0).k.shutdown == t.shutdown
  {
    SelectKeeps(t, 0);
    SelectFlag(t, 0);
  }

  lemma {:induction false} SelectFlag(k: K, level: nat)
    requires QueueRange(k) && level <= MAX_PRIORITY
    ensures Select(k, level).k.shutdown == k.shutdown
    decreases MAX_PRIORITY - level, if level < MAX_PRIORITY then |k.runq[level]| else 0
  {
    if level == MAX_PRIORITY {
    } else if k.runq[level] == [] {
      SelectFlag(k, level + 1);
    } else if k.procs[k.runq[level][0]].state != RUNNABLE {
      PopShrinks(k, level, k.runq[level][0]);
      SelectFlag(Release(Pop(k, level), k.runq[level][0]), level);
    }
  }

  // ----- First come, first served -----

  /** What was queued is still there in the same order, but for some at the front, and others may be behind it. */
  ghost predicate Fifo(q: seq<nat>, r: seq<nat>) {
    exists d: nat :: d <= |q| && q[d..] <= r
  }

  ghost predicate InTurn(k: K, k': K) {
    |k.runq| == |k'.runq| == MAX_PRIORITY && forall l :: 0 <= l < MAX_PRIORITY ==> Fifo(k.runq[l], k'.runq[l])
  }

  lemma {:induction false} FifoOf(q: seq<nat>, r: seq<nat>, s: seq<nat>, u: seq<nat>)
    requires q <= r && IsRest(s, r) && s <= u
    ensures Fifo(q, u)
  {
    var d: nat := if |r| - |s| <= |q| then |r| - |s| else |q|;
    assert q[d..] <= u;
  }

  lemma {:induction false} AppendsInTurn(k: K, k': K)
    requires |k.runq| == MAX_PRIORITY && Appends(k, k')
    ensures InTurn(k, k')
  {
    forall l | 0 <= l < MAX_PRIORITY ensures Fifo(k.runq[l], k'.runq[l]) {
      assert k.runq[l][0..] <= k'.runq[l];
    }
  }

  lemma {:induction false} RoundInTurn(k: K, now: nat)
    requires Inv(k)
    ensures InTurn(k, Round(k, now).0)
  {
    hide Mid, Tick, Select, Passes, Switch;
    InvShape(k);
    RoundKeeps(k, now);
    var t, r := Tick(k, now, 0), Round(k, now).0;
    var c := Select(t, 0);
    InShape(t);
    assert Appends(k, t) by { TickPasses(k, now, 0) by { InvPids(k); } TickAppends(k, t, TickNotices(k, now, 0)); }
    SelectShrinks(t, 0);
    if c.next < MAX_PROCS { SwitchAppends(c.k, c.next); }
    assert Appends(c.k, r);
    forall l | 0 <= l < MAX_PRIORITY ensures Fifo(k.runq[l], r.runq[l]) {
      FifoOf(k.runq[l], t.runq[l], c.k.runq[l], r.runq[l]);
    }
  }

  lemma TickAppends(k: K, t: K, ps: seq<Post>)
    requires Passes(k, t, ps)
    ensures Appends(k, t)
  {}

  lemma SwitchAppends(k: K, n: nat)
    requires Shape(k) && n < MAX_PROCS
    ensures Appends(k, Switch(k, n))
  {}

  lemma {:induction false} RpcAppends(k: K, pid: nat, c: Contents)
    requires Inv(k) && Ready(k)
    ensures Appends(k, Rpc(k, pid, c))
  {
    hide Mid, Send, SendOk;
    InvPids(k);
    SendPasses(k, k.procs[k.current].pid, pid, REQUEST, c);
  }

  lemma {:induction false} KillAppends(k: K, killer: nat, pid: nat, status: int)
    requires Inv(k)
    ensures Appends(k, Kill(k, killer, pid, status))
  {
    hide Mid, Zap, ZapAll;
    InvPids(k);
    var i, j := Find(k.procs, killer, 0), Find(k.procs, pid, 0);
    if i < MAX_PROCS {
      ZapAllPasses(k, i, status, 0);
      if j < MAX_PROCS { ZapPasses(k, i, j, status); }
    }
  }

  /** Every step leaves those that are queued at one level in their order, takes some from the front at most, and queues
      others behind them. */
  lemma {:induction false} StepInTurn(k: K, s: Step)
    requires Inv(k) && Enabled(k, s)
    ensures InTurn(k, Next(k, s))
  {
    hide Mid, Send, RecvStart, RecvFinish, Rpc, Term, Create, Kill, Round, Fifo;
    InvPids(k);
    if s.NextRound? {
      RoundInTurn(k, s.now);
    } else {
      match s {
        case SysSend(dst, t, c) => SendPasses(k, k.procs[k.current].pid, dst, t, c);
        case Interrupt(src, dst, t, c) => SendPasses(k, src, dst, t, c);
        case SysRpc(pid, c) => RpcAppends(k, pid, c);
        case SysRecv(t, maxTime, now) => RecvQueues(k, t, maxTime, now);
        case Resume => ResumeQueues(k);
        case SysExit(status) => TermPasses(k, k.current, status);
        case CreateProc(owner, uid) => CreateQueues(k, owner, uid);
        case KillProc(killer, pid, status) => KillAppends(k, killer, pid, status);
        case _ =>
      }
      AppendsInTurn(k, Next(k, s));
    }
  }

  lemma RecvQueues(k: K, t: MsgType, maxTime: nat, now: nat)
    requires Ready(k)
    ensures Appends(k, RecvStart(k, t, maxTime, now))
  {}

  lemma ResumeQueues(k: K)
    requires Receiving(k)
    ensures Appends(k, RecvFinish(k).0)
  {}

  lemma CreateQueues(k: K, owner: nat, uid: nat)
    requires Shape(k)
    ensures Appends(k, Create(k, owner, uid))
  {}

  // ----- Why proc_recv fails -----

  /** Process p is about to return from proc_recv without a message. */
  predicate Fails(p: Proc) {
    p.state == RUNNABLE && p.point.InRecv? && p.boxes.Get(p.point.t).messages == []
  }

  /** The slots in use */
  ghost function Everybody(k: K): set<nat> {
    set j: nat | j < |k.procs| && k.procs[j].state != PROC_FREE
  }

  lemma {:induction false} TickFates(k: K, now: nat, i: nat, gone: set<nat>)
    requires Mid(k, {k.current}, 0) && i <= MAX_PROCS && (k.shutdown ==> Everybody(k) <= gone)
    ensures Fates(k, Tick(k, now, i), gone, now)
    decreases MAX_PROCS - i
  {
    hide SlotsOk, PidsOk, CountsOk, QueuesOk, MailOk, Zap, Wakeup, Fate;
    if i == MAX_PROCS {
      FatesSelf(k, gone, now);
    } else if k.shutdown && k.procs[i].state != PROC_FREE {
      var k1 := Zap(k, MAX_PROCS, i, STAT_SHUTDOWN);
      ZapKeeps(k, MAX_PROCS, i, STAT_SHUTDOWN);
      ZapFates(k, MAX_PROCS, i, STAT_SHUTDOWN, now);
      FatesMore(k, k1, {i}, gone, now);
      EverybodyLeft(k, k1, gone, now);
      TickFates(k1, now, i + 1, gone);
      FatesBoth(k, k1, Tick(k, now, i), gone, now);
    } else if IsLate(k.procs[i], now) {
      var k1 := Wakeup(k, i);
      WakeupKeeps(k, i, {k.current}, 0);
      WakeupCurrent(k, i);
      WakeupFlag(k, i);
      WakeupFates(k, i, gone, now);
      EverybodyLeft(k, k1, gone, now);
      TickFates(k1, now, i + 1, gone);
      FatesBoth(k, k1, Tick(k, now, i), gone, now);
    } else {
      TickFates(k, now, i + 1, gone);
    }
  }

  lemma {:induction false} EverybodyLeft(k: K, k1: K, gone: set<nat>, now: nat)
    requires Fates(k, k1, gone, now)
    ensures Everybody(k1) <= Everybody(k)
  {
    forall j: nat | j < MAX_PROCS && k1.procs[j].state != PROC_FREE ensures k.procs[j].state != PROC_FREE {
      assert Fate(k, k1, gone, now, j);
    }
  }

  /** The processes in gone were there, and are dead. */
  ghost predicate AllGone(k: K, k': K, gone: set<nat>) {
    forall d :: d in gone ==> d < |k.procs| && d < |k'.procs| && k.procs[d].state != PROC_FREE && Gone(k'.procs[d])
  }

  /** Process i has waited, and now fails to get a message: its server is dead, or its time is up. */
  ghost predicate HasReason(k: K, k': K, now: int, i: nat)
    requires i < |k.procs|
  {
    var q := k.procs[i];
    q.state == WAITING && ((AwaitsReply(q) && !SomeLive(k'.procs, q.server)) || (q.alarm && q.exptime <= now))
  }

  lemma {:induction false} FailureFates(k: K, k': K, gone: set<nat>, now: int, i: nat)
    requires Inv(k) && Fates(k, k', gone, now) && AllGone(k, k', gone)
    requires i < MAX_PROCS && Fails(k'.procs[i]) && !Fails(k.procs[i])
    ensures HasReason(k, k', now, i) && (gone != {} || now >= 0)
  {
    hide SlotsOk, CountsOk, QueuesOk;
    var q, p := k.procs[i], k'.procs[i];
    assert Fate(k, k', gone, now, i) && ProcOk(q);
    if AwaitsReply(q) && ServerGone(k, gone, q.server) { NotLive(k, k', gone, now, q.server); }
  }

  lemma {:induction false} NotLive(k: K, k': K, gone: set<nat>, now: int, pid: nat)
    requires Inv(k) && Fates(k, k', gone, now) && AllGone(k, k', gone) && ServerGone(k, gone, pid)
    ensures !SomeLive(k'.procs, pid)
  {
    hide SlotsOk, CountsOk, QueuesOk, MailOk;
    var d: nat :| d in gone && d < |k.procs| && k.procs[d].pid == pid;
    forall e: nat | e < |k'.procs| ensures !(IsLive(k'.procs[e]) && k'.procs[e].pid == pid) {
      assert Fate(k, k', gone, now, e);
    }
  }

  /** Processes are as they were, or their slot has become free. */
  ghost predicate OnlyFrees(k: K, k': K) {
    |k'.procs| == |k.procs| && forall i: nat :: i < |k.procs| ==> k'.procs[i] == k.procs[i] || k'.procs[i].state == PROC_FREE
  }

  lemma {:induction false} SelectFrees(k: K, level: nat)
    requires QueueRange(k) && level <= MAX_PRIORITY
    ensures OnlyFrees(k, Select(k, level).k)
    decreases MAX_PRIORITY - level, if level < MAX_PRIORITY then |k.runq[level]| else 0
  {
    if level == MAX_PRIORITY {
    } else if k.runq[level] == [] {
      SelectFrees(k, level + 1);
    } else if k.procs[k.runq[level][0]].state != RUNNABLE {
      PopShrinks(k, level, k.runq[level][0]);
      SelectFrees(Release(Pop(k, level), k.runq[level][0]), level);
    }
  }

  lemma SwitchFrees(k: K, n: nat)
    requires Shape(k) && n < MAX_PROCS
    ensures OnlyFrees(k, Switch(k, n))
  {}

  lemma FreesReason(k: K, t: K, k': K, now: int, i: nat)
    requires i < |k.procs| && HasReason(k, t, now, i) && OnlyFrees(t, k')
    ensures HasReason(k, k', now, i)
  {
    if SomeLive(k'.procs, k.procs[i].server) {
      var s: nat :| s < |k'.procs| && IsLive(k'.procs[s]) && k'.procs[s].pid == k.procs[i].server;
      assert IsLive(t.procs[s]) && t.procs[s].pid == k.procs[i].server;
    }
  }

  lemma {:induction false} RoundFailure(k: K, now: nat, i: nat)
    requires Inv(k) && i < MAX_PROCS && !Fails(k.procs[i])
    ensures Shape(Round(k, now).0) && (Fails(Round(k, now).0.procs[i]) ==> HasReason(k, Round(k, now).0, now, i))
  {
    hide Mid, Tick, Select, Switch, Fates, HasReason;
    InvShape(k);
    RoundKeeps(k, now);
    var t, r := Tick(k, now, 0), Round(k, now).0;
    InShape(t);
    SelectFrees(t, 0);
    var c := Select(t, 0);
    if c.next < MAX_PROCS { SwitchFrees(c.k, c.next); }
    InvShape(r);
    assert OnlyFrees(t, r);
    if Fails(r.procs[i]) {
      var gone := if k.shutdown then Everybody(k) else {};
      TickFates(k, now, 0, gone);
      if k.shutdown { TickKills(k, now, 0); }
      FailureFates(k, t, gone, now, i);
      FreesReason(k, t, r, now, i);
    }
  }

  lemma {:induction false} KillFailure(k: K, killer: nat, pid: nat, status: int, i: nat)
    requires Inv(k) && i < MAX_PROCS && !Fails(k.procs[i]) && Shape(Kill(k, killer, pid, status))
    requires Fails(Kill(k, killer, pid, status).procs[i])
    ensures HasReason(k, Kill(k, killer, pid, status), NEVER, i)
  {
    hide Mid, Fates, HasReason, Zap, ZapAll, Fails, Kill;
    InvShape(k);
    var a, v, k' := Find(k.procs, killer, 0), Find(k.procs, pid, 0), Kill(k, killer, pid, status);
    if a == MAX_PROCS || (pid != 0 && v == MAX_PROCS) {
      KillNone(k, killer, pid, status);
    } else if pid == 0 {
      KillAllMeans(k, killer, status, a);
      MeantGone(k, k', a);
      FailureFates(k, k', Meant(k, a, 0), NEVER, i);
    } else {
      KillMeans(k, killer, pid, status, a, v);
      if k'.procs != k.procs { FailureFates(k, k', {v}, NEVER, i); }
    }
  }

  lemma KillNone(k: K, killer: nat, pid: nat, status: int)
    requires Shape(k) && (Find(k.procs, killer, 0) == MAX_PROCS || (pid != 0 && Find(k.procs, pid, 0) == MAX_PROCS))
    ensures Kill(k, killer, pid, status) == k
  {}

  lemma {:induction false} MeantGone(k: K, k': K, a: nat)
    requires Shape(k) && a < MAX_PROCS && |k'.procs| == MAX_PROCS
    requires forall j: nat :: j < MAX_PROCS ==>
      (Gone(k'.procs[j]) <==> Gone(k.procs[j]) || (k.procs[j].interruptable && (k.procs[a].uid == 0 || k.procs[a].uid == k.procs[j].uid)))
    ensures AllGone(k, k', Meant(k, a, 0))
  {
    forall d | d in Meant(k, a, 0) ensures d < MAX_PROCS && k.procs[d].state != PROC_FREE && Gone(k'.procs[d]) {
      assert IsMeant(k, a, 0, d);
    }
  }

  lemma {:induction false} SendFailure(k: K, src: nat, dst: nat, t: MsgType, c: Contents, i: nat)
    requires Inv(k) && i < MAX_PROCS && !Fails(k.procs[i])
    ensures Shape(Send(k, src, dst, t, c)) && !Fails(Send(k, src, dst, t, c).procs[i])
  {
    hide Mid, Fates, Send;
    InvShape(k);
    SendFates(k, src, dst, t, c, {k.current}, 0, {}, NEVER);
    var k' := Send(k, src, dst, t, c);
    assert Shape(k') by { SendFlag(k, src, dst, t, c); }
    if Fails(k'.procs[i]) { FailureFates(k, k', {}, NEVER, i); }
  }

  lemma {:induction false} RpcFailure(k: K, pid: nat, c: Contents, i: nat)
    requires Inv(k) && Ready(k) && i < MAX_PROCS && !Fails(k.procs[i])
    ensures Shape(Rpc(k, pid, c)) && !Fails(Rpc(k, pid, c).procs[i])
  {
    hide Mid, Send, SendOk, HasReason;
    if RpcOk(k, pid) {
      SendFailure(k, k.procs[k.current].pid, pid, REQUEST, c, i);
      RpcSendKeeps(k, pid, c);
      ReplyEmpty(RpcSend(k, pid, c));
      RpcCurrent(k, pid, c);
    }
  }

  lemma ReplyEmpty(k: K)
    requires Inv(k) && Ready(k)
    ensures k.procs[k.current].boxes.Get(REPLY).messages == []
  {
    hide SlotsOk, PidsOk, CountsOk, QueuesOk;
    assert ProcOk(k.procs[k.current]);
  }

  lemma {:induction false} RecvFailure(k: K, t: MsgType, maxTime: nat, now: nat, i: nat)
    requires Inv(k) && Ready(k) && i < MAX_PROCS && !Fails(k.procs[i])
    ensures var k' := RecvStart(k, t, maxTime, now); Shape(k') && !Fails(k'.procs[i])
  {
    hide Mid;
    var k' := RecvStart(k, t, maxTime, now);
    assert k'.procs == k.procs[k.current := k'.procs[k.current]];
  }

  lemma ResumeFailure(k: K, i: nat)
    requires Receiving(k) && i < MAX_PROCS && !Fails(k.procs[i])
    ensures !Fails(RecvFinish(k).0.procs[i])
  {}

  lemma {:induction false} ExitFailure(k: K, status: int, i: nat)
    requires Inv(k) && Ready(k) && i < MAX_PROCS && !Fails(k.procs[i]) && Fails(Exit(k, status).procs[i])
    ensures HasReason(k, Exit(k, status), NEVER, i)
  {
    hide Mid, Fates, Term, HasReason;
    InvShape(k);
    var c, k1 := k.current, Term(k, k.current, status);
    TermFates(k, c, status, {c}, {c}, NEVER);
    TermKeeps(k, c, status, {c});
    FailureFates(k, k1, {c}, NEVER, i);
    assert OnlyFrees(k1, Exit(k, status));
    FreesReason(k, k1, Exit(k, status), NEVER, i);
  }

  lemma CreateFailure(k: K, owner: nat, uid: nat, i: nat)
    requires Shape(k) && i < MAX_PROCS && !Fails(k.procs[i])
    ensures Shape(Create(k, owner, uid)) && !Fails(Create(k, owner, uid).procs[i])
  {}

  /** proc_recv returns without a message only to a process that has waited for one and whose server is dead, or whose
      time is up. */
  lemma {:induction false} FailsWithReason(k: K, s: Step, i: nat)
    requires Inv(k) && Enabled(k, s) && i < MAX_PROCS && !Fails(k.procs[i])
    ensures Shape(Next(k, s)) && (Fails(Next(k, s).procs[i]) ==> HasReason(k, Next(k, s), if s.NextRound? then s.now else NEVER, i))
  {
    hide Mid, Send, RecvStart, RecvFinish, Rpc, Exit, Create, Kill, Round, Fails, HasReason;
    InvShape(k);
    StepKeeps(k, s);
    InvShape(Next(k, s));
    match s
    case SysSend(dst, t, c) => SendFailure(k, k.procs[k.current].pid, dst, t, c, i);
    case Interrupt(src, dst, t, c) => SendFailure(k, src, dst, t, c, i);
    case SysRpc(pid, c) => RpcFailure(k, pid, c, i);
    case SysRecv(t, maxTime, now) => RecvFailure(k, t, maxTime, now, i);
    case Resume => ResumeFailure(k, i);
    case SysExit(status) => if Fails(Exit(k, status).procs[i]) { ExitFailure(k, status, i); }
    case CreateProc(owner, uid) => CreateFailure(k, owner, uid, i);
    case KillProc(killer, pid, status) => if Fails(Kill(k, killer, pid, status).procs[i]) { KillFailure(k, killer, pid, status, i); }
    case NextRound(now) => RoundFailure(k, now, i);
    case _ => SmallFailure(k, s, i);
  }

  lemma SmallFailure(k: K, s: Step, i: nat)
    requires Enabled(k, s) && (s == Yield || s == Demote || s.SetInterruptable? || s == ShutDown) && i < MAX_PROCS && !Fails(k.procs[i])
    ensures !Fails(Next(k, s).procs[i])
  {}
}
