/** The system calls, interrupts and scheduling rounds of the kernel as steps of a state machine. */
module KernelSteps {
  import opened KernelState
  import opened KernelInv
  import opened Sequences

  /** The current process runs its own code and may call the kernel. */
  predicate Ready(k: K) {
    Shape(k) && !k.yielding && k.procs[k.current].state == RUNNABLE && k.procs[k.current].point == InCode
  }

  /** The current process runs and has come back from the proc_yield in proc_recv. */
  predicate Receiving(k: K) {
    Shape(k) && !k.yielding && k.procs[k.current].state == RUNNABLE && k.procs[k.current].point.InRecv?
  }

  // ----- proc_recv -----

  function Waiting(p: Proc, t: MsgType, maxTime: nat, now: nat): Proc {
    p.(boxes := p.boxes.Set(t, p.boxes.Get(t).(waiting := true)), state := WAITING,
       alarm := p.alarm || maxTime != 0, exptime := if maxTime != 0 then now + maxTime else p.exptime,
       point := InRecv(t))
  }

  /** proc_recv up to the call of proc_yield, or up to where that would return */
  function RecvStart(k: K, t: MsgType, maxTime: nat, now: nat): (k': K)
    requires Ready(k)
  {
    var p := k.procs[k.current];
    if p.boxes.Get(t).messages == [] then
      SetProc(k, k.current, Waiting(p, t, maxTime, now)).(nrunnable := k.nrunnable - 1, yielding := true)
    else SetProc(k, k.current, p.(point := InRecv(t)))
  }

  /** What proc_recv returns */
  datatype Received = Nothing | Received(m: Message)

  /** The rest of proc_recv */
  function RecvFinish(k: K): (K, Received)
    requires Receiving(k)
  {
    var p := k.procs[k.current];
    var b := p.boxes.Get(p.point.t);
    if b.messages == [] then (SetProc(k, k.current, p.(point := InCode)), Nothing)
    else (SetProc(k, k.current, p.(point := InCode, boxes := p.boxes.Set(p.point.t, b.(messages := b.messages[1..])))),
          Received(b.messages[0]))
  }

  // ----- sys_rpc -----

  predicate RpcOk(k: K, pid: nat)
    requires Ready(k)
  {
    pid != k.procs[k.current].pid && SendOk(k, k.procs[k.current].pid, pid, REQUEST)
  }

  /** sys_rpc up to the call of proc_recv */
  function RpcSend(k: K, pid: nat, c: Contents): (k': K)
    requires Ready(k) && RpcOk(k, pid)
  {
    var k1 := Send(k, k.procs[k.current].pid, pid, REQUEST, c);
    SetProc(k1, k.current, k1.procs[k.current].(server := pid))
  }

  // ----- Creation -----

  predicate CreateOk(k: K, owner: nat)
    requires Shape(k)
  {
    !k.shutdown && Find(k.procs, owner, 0) < MAX_PROCS && k.free != [] && k.free[0] < MAX_PROCS
  }

  function NewProc(pid: nat, owner: nat, uid: nat): Proc {
    Proc(pid, owner, uid, RUNNABLE, NO_MAIL, 0, false, 0, false, 0, InCode)
  }

  /** proc_alloc: the first free slot */
  function Alloc(k: K, owner: nat, uid: nat): K
    requires Shape(k) && k.free != [] && k.free[0] < MAX_PROCS
  {
    SetProc(k, k.free[0], NewProc(k.pidGen, owner, uid)).(free := k.free[1..], nprocs := k.nprocs + 1,
      nrunnable := k.nrunnable + 1, pidGen := k.pidGen + 1)
  }

  /** proc_create_uid: the new process runs at once, and the current one is queued. */
  function Create(k: K, owner: nat, uid: nat): K
    requires Shape(k)
  {
    if !CreateOk(k, owner) then k
    else
      var parent := k.procs[Find(k.procs, owner, 0)];
      var k1 := Alloc(k, owner, if parent.uid != 0 then parent.uid else uid);
      ToRunq(k1, k.current).(current := k.free[0])
  }

  // ----- Dying -----

  /** sys_exit up to the call of proc_yield */
  function Exit(k: K, status: int): K
    requires Shape(k)
  {
    Term(k, k.current, status).(yielding := true)
  }

  /** proc_kill up to its call of proc_yield, which follows if the victim, or for pid 0 the current
      process, is left a zombie */
  function Kill(k: K, killer: nat, pid: nat, status: int): K
    requires Shape(k)
  {
    var i := Find(k.procs, killer, 0);
    var j := if pid == 0 then k.current else Find(k.procs, pid, 0);
    if i == MAX_PROCS || j == MAX_PROCS then k
    else
      var k1 := if pid == 0 then ZapAll(k, i, status, 0) else Zap(k, i, j, status);
      k1.(yielding := k.yielding || k1.procs[j].state == ZOMBIE)
  }

  // ----- proc_yield -----

  /** What one round of the loop of proc_yield comes to: another process runs, the current one goes
      on, the system halts, or the next round follows. */
  datatype Outcome = Switched | Stays | Halts | Again

  ghost function Round(k: K, now: nat): (K, Outcome)
    requires Shape(k)
  {
    var t := Tick(k, now, 0);
    if !QueueRange(t) then (k, Halts) else SelectAndSwitch(t)
  }

  ghost function SelectAndSwitch(t: K): (K, Outcome)
    requires QueueRange(t)
  {
    var c := Select(t, 0);
    if c.next < MAX_PROCS then (Switch(c.k, c.next), Switched)
    else if c.k.procs[c.k.current].state == RUNNABLE then (c.k.(yielding := false), Stays)
    else if c.k.nprocs == 1 && c.k.shutdown then (c.k.(yielding := true), Halts)
    else (c.k.(yielding := true), Again)
  }

  // ----- Each step keeps the invariant -----

  lemma {:induction false} FlagKeeps(k: K, yielding: bool)
    requires Mid(k, {k.current}, 0) && (!yielding ==> k.procs[k.current].state == RUNNABLE)
    ensures Inv(k.(yielding := yielding))
  {
    hide SlotsOk, PidsOk, CountsOk, MailOk, QueuesOk;
    var k' := k.(yielding := yielding);
    SameParts(k, k', 0);
    SameQueues(k, k', {k.current});
  }

  lemma {:induction false} RecvStartKeeps(k: K, t: MsgType, maxTime: nat, now: nat)
    requires Inv(k) && Ready(k) && (t == REPLY ==> SomeLive(k.procs, k.procs[k.current].server))
    ensures Inv(RecvStart(k, t, maxTime, now))
    ensures t == REPLY ==> k.procs[k.current].boxes.Get(t).messages == []
  {
    hide SlotsOk, PidsOk, CountsOk, QueuesOk;
    var i, p := k.current, k.procs[k.current];
    assert ProcOk(p);
    if p.boxes.Get(t).messages == [] {
      var p' := Waiting(p, t, maxTime, now);
      assert WaitingOk(p');
      if t == REPLY { StillLive(k, i, p', p.server); }
      var k' := SetProc(k, i, p').(nrunnable := k.nrunnable - 1, yielding := true);
      MailUpdate(k, i, p', 0);
      SlotsUpdate(k, i, p');
      CountsUpdate(k, i, p');
      QueuesUpdate(k, i, p', {i});
      SameParts(SetProc(k, i, p'), k', 0);
      SameParts(SetProc(k, i, p').(nrunnable := k.nrunnable - 1), k', 0);
      SameQueues(SetProc(k, i, p'), k', {i});
    } else {
      MidUpdate(k, i, p.(point := InRecv(t)), {i}, 0);
    }
  }

  lemma {:induction false} StillLive(k: K, i: nat, p: Proc, pid: nat)
    requires i < |k.procs| && SomeLive(k.procs, pid) && IsLive(p) && p.pid == k.procs[i].pid
    ensures SomeLive(k.procs[i := p], pid)
  {
    var s: nat :| s < |k.procs| && IsLive(k.procs[s]) && k.procs[s].pid == pid;
    assert IsLive(k.procs[i := p][s]) && k.procs[i := p][s].pid == pid;
  }

  /** What proc_recv takes for a reply comes from the server that was called. */
  lemma {:induction false} RecvFinishKeeps(k: K)
    requires Inv(k) && Receiving(k)
    ensures Inv(RecvFinish(k).0) && Ready(RecvFinish(k).0)
    ensures !k.procs[k.current].boxes.Get(k.procs[k.current].point.t).waiting
    ensures k.procs[k.current].point.t == REPLY && RecvFinish(k).1.Received? ==>
      RecvFinish(k).1.m.src == k.procs[k.current].server
  {
    hide SlotsOk, PidsOk, CountsOk, QueuesOk;
    var i, p := k.current, k.procs[k.current];
    assert ProcOk(p);
    MidUpdate(k, i, RecvFinish(k).0.procs[i], {i}, 0);
  }

  lemma {:induction false} RpcSendKeeps(k: K, pid: nat, c: Contents)
    requires Inv(k) && Ready(k) && RpcOk(k, pid)
    ensures Inv(RpcSend(k, pid, c)) && Ready(RpcSend(k, pid, c))
    ensures SomeLive(RpcSend(k, pid, c).procs, pid) && RpcSend(k, pid, c).procs[k.current].server == pid
  {
    hide SlotsOk, CountsOk, QueuesOk;
    var me, d := k.procs[k.current].pid, Find(k.procs, pid, 0);
    var k1 := Send(k, me, pid, REQUEST, c);
    DeliverKeeps(k, {k.current}, 0, d, REQUEST, Message(me, c));
    assert d != k.current && k1.procs[k.current] == k.procs[k.current] && k1.current == k.current;
    assert IsLive(k1.procs[d]) && k1.procs[d].pid == pid;
    var p := k1.procs[k.current].(server := pid);
    assert ProcOk(k1.procs[k.current]);
    MidUpdate(k1, k.current, p, {k.current}, 0);
    StillLive(k1, k.current, p, pid);
  }

  lemma {:induction false} CreateKeeps(k: K, owner: nat, uid: nat)
    requires Inv(k) && Ready(k)
    ensures Inv(Create(k, owner, uid)) && Ready(Create(k, owner, uid))
    ensures CreateOk(k, owner) ==>
      Create(k, owner, uid).procs[Create(k, owner, uid).current].pid == k.pidGen
  {
    hide SlotsOk, PidsOk, CountsOk, QueuesOk, MailOk;
    if CreateOk(k, owner) {
      var parent := k.procs[Find(k.procs, owner, 0)];
      var u := if parent.uid != 0 then parent.uid else uid;
      var c, i, k1 := k.current, k.free[0], Alloc(k, owner, u);
      AllocKeeps(k, owner, u);
      Enqueue(k1, c, {c, i});
      assert {c, i} - {c} == {i};
      var k2 := ToRunq(k1, c);
      SameParts(k1, k2.(current := i), 0);
      SameQueues(k2, k2.(current := i), {i});
    }
  }

  lemma {:induction false} AllocKeeps(k: K, owner: nat, uid: nat)
    requires Mid(k, {k.current}, 0) && k.free != [] && k.free[0] < MAX_PROCS
    ensures Mid(Alloc(k, owner, uid), {k.current, k.free[0]}, 0) && k.free[0] != k.current
  {
    hide MailOk, QueuesOk, ProcOk, PidsOk, SlotsOk;
    var i, p, k' := k.free[0], NewProc(k.pidGen, owner, uid), Alloc(k, owner, uid);
    AllocSlots(k, k', i);
    AllocPids(k, k', i);
    CountUpdate(k.procs, EXISTING, i, p);
    CountUpdate(k.procs, RUNNING, i, p);
    Unqueued(k, i, p, {k.current});
    SameQueues(SetProc(k, i, p), k', {k.current} + {i});
    assert {k.current} + {i} == {k.current, i};
    AllocMail(k, i, p);
    SameParts(SetProc(k, i, p), k', 0);
  }

  lemma {:induction false} AllocSlots(k: K, k': K, i: nat)
    requires Shape(k) && Shape(k') && SlotsOk(k) && k.free != [] && i == k.free[0] && k'.free == k.free[1..]
    requires i < MAX_PROCS && k'.procs == k.procs[i := k'.procs[i]] && k'.procs[i].state != PROC_FREE
    ensures SlotsOk(k') && k.procs[i].state == PROC_FREE
  {
    assert k.free == [i] + k'.free;
    forall j | j in k'.free ensures j < MAX_PROCS {
      assert j in k.free;
    }
    forall j: nat | j < MAX_PROCS ensures k'.procs[j].state == PROC_FREE <==> j in k'.free {
      assert j in k.free <==> j == i || j in k'.free;
    }
  }

  lemma {:induction false} AllocPids(k: K, k': K, i: nat)
    requires Shape(k) && Shape(k') && PidsOk(k) && i < MAX_PROCS
    requires k'.procs == k.procs[i := k'.procs[i]] && k'.procs[i].pid == k.pidGen && k'.pidGen == k.pidGen + 1
    ensures PidsOk(k')
  {}

  lemma {:induction false} AllocMail(k: K, i: nat, p: Proc)
    requires Shape(k) && MailOk(k, 0) && i < MAX_PROCS && k.procs[i].state == PROC_FREE
    requires p.state == RUNNABLE && ProcOk(p)
    ensures MailOk(SetProc(k, i, p), 0)
  {
    var ps, ps' := k.procs, k.procs[i := p];
    forall j: nat | j < |ps'| && AwaitsReply(ps'[j]) ensures SomeLive(ps', ps'[j].server) {
      assert AwaitsReply(ps[j]);
      var s: nat :| s < |ps| && IsLive(ps[s]) && ps[s].pid == ps[j].server;
      assert s != i && IsLive(ps'[s]);
    }
  }

  lemma {:induction false} ExitKeeps(k: K, status: int)
    requires Inv(k) && Ready(k)
    ensures Inv(Exit(k, status)) && Exit(k, status).procs[k.current].state == ZOMBIE
  {
    hide SlotsOk, PidsOk, CountsOk, QueuesOk, MailOk, Term;
    TermKeeps(k, k.current, status, {k.current});
    FlagKeeps(Term(k, k.current, status), true);
  }

  lemma {:induction false} KillKeeps(k: K, killer: nat, pid: nat, status: int)
    requires Inv(k)
    ensures Inv(Kill(k, killer, pid, status))
  {
    hide SlotsOk, PidsOk, CountsOk, QueuesOk, MailOk, Zap, ZapAll;
    var i := Find(k.procs, killer, 0);
    var j := if pid == 0 then k.current else Find(k.procs, pid, 0);
    if i < MAX_PROCS && j < MAX_PROCS {
      if pid == 0 { ZapAllKeeps(k, i, status, 0); } else { ZapKeeps(k, i, j, status); }
      var k1 := if pid == 0 then ZapAll(k, i, status, 0) else Zap(k, i, j, status);
      FlagKeeps(k1, k.yielding || k1.procs[j].state == ZOMBIE);
    }
  }

  /** A round of proc_yield keeps the invariant, and in particular the next process is runnable and is
      not the current one.  Nobody who may run is passed over. */
  lemma {:induction false} RoundKeeps(k: K, now: nat)
    requires Inv(k)
    ensures QueueRange(Tick(k, now, 0)) && Inv(Round(k, now).0)
    ensures Round(k, now).1 == Switched ==> Round(k, now).0.current != k.current && !Round(k, now).0.yielding
    ensures Round(k, now).1 == Stays ==> !Round(k, now).0.yielding
    ensures Round(k, now).1 == Again || Round(k, now).1 == Halts ==> Round(k, now).0.nrunnable == 0
  {
    hide SlotsOk, PidsOk, CountsOk, QueuesOk, MailOk, Tick, Select, Switch;
    TickKeeps(k, now, 0);
    var t := Tick(k, now, 0);
    QueuesInRange(t, {k.current});
    SelectKeeps(t, 0);
    var c := Select(t, 0);
    if c.next < MAX_PROCS {
      SwitchKeeps(c.k, c.next);
      SwitchFlags(c.k, c.next);
    } else if c.k.procs[k.current].state == RUNNABLE {
      FlagKeeps(c.k, false);
    } else {
      FlagKeeps(c.k, true);
      NoneRunnable(c.k);
    }
  }

  lemma SwitchFlags(k: K, n: nat)
    requires Shape(k) && n < MAX_PROCS
    ensures !Switch(k, n).yielding
  {}

  lemma {:induction false} NoneRunnable(k: K)
    requires Mid(k, {k.current}, 0) && k.procs[k.current].state != RUNNABLE
    requires forall l :: 0 <= l < MAX_PRIORITY ==> k.runq[l] == []
    ensures k.nrunnable == 0
  {
    forall i: nat | i < MAX_PROCS ensures k.procs[i].state !in RUNNING {}
    CountNone(k.procs, RUNNING);
  }

  lemma {:induction false} CountNone(ps: seq<Proc>, s: set<PState>)
    requires forall i: nat :: i < |ps| ==> ps[i].state !in s
    ensures Count(ps, s) == 0
  {
    if ps != [] { CountNone(ps[..|ps| - 1], s); }
  }

  // ----- Whom proc_kill kills -----

  predicate Gone(p: Proc) {
    p.state == ZOMBIE || p.state == PROC_FREE
  }

  /** The dead stay dead, and nobody changes its user or whether it can be interrupted. */
  ghost predicate KeepsDead(k: K, k': K) {
    && |k'.procs| == |k.procs|
    && forall j :: 0 <= j < |k.procs| ==>
         && (Gone(k.procs[j]) ==> Gone(k'.procs[j]))
         && k'.procs[j].uid == k.procs[j].uid && k'.procs[j].interruptable == k.procs[j].interruptable
  }

  lemma {:induction false} WakeClientsDead(k: K, pid: nat, i: nat)
    requires Shape(k) && i <= MAX_PROCS
    ensures KeepsDead(k, WakeClients(k, pid, i))
    decreases MAX_PROCS - i
  {
    if i < MAX_PROCS {
      WakeClientsDead(if WaitsFor(k.procs[i], pid) then Wakeup(k, i) else k, pid, i + 1);
    }
  }

  lemma {:induction false} DeliverDead(k: K, i: nat, t: MsgType, m: Message)
    requires Shape(k) && i < MAX_PROCS && !Gone(k.procs[i])
    ensures KeepsDead(k, Deliver(k, i, t, m))
  {
    var p := Deliver(k, i, t, m).procs[i];
    assert Deliver(k, i, t, m).procs == k.procs[i := p];
  }

  lemma {:induction false} SendDead(k: K, src: nat, dst: nat, t: MsgType, c: Contents)
    requires Shape(k)
    ensures Shape(Send(k, src, dst, t, c)) && KeepsDead(k, Send(k, src, dst, t, c))
  {
    hide Deliver;
    if SendOk(k, src, dst, t) { DeliverDead(k, Find(k.procs, dst, 0), t, Message(src, c)); }
  }

  lemma MarkedDead(k: K, i: nat)
    requires Shape(k) && i < MAX_PROCS
    ensures Shape(Dead(k, i)) && Gone(Dead(k, i).procs[i]) && (k.procs[i].state != PROC_FREE ==> KeepsDead(k, Dead(k, i)))
  {}

  lemma {:induction false} TermDead(k: K, i: nat, status: int)
    requires Shape(k) && i < MAX_PROCS && k.procs[i].state != PROC_FREE
    ensures KeepsDead(k, Term(k, i, status)) && Gone(Term(k, i, status).procs[i])
  {
    hide WakeClients, Send, Dead, Find;
    var p := k.procs[i];
    if p.state != ZOMBIE {
      var k1 := Dead(k, i);
      MarkedDead(k, i);
      var o := Find(k1.procs, p.owner, 0);
      var k2 := if o == MAX_PROCS then k1 else Send(k1, p.pid, k1.procs[o].pid, EVENT, Died(p.pid, status));
      if o != MAX_PROCS { SendDead(k1, p.pid, k1.procs[o].pid, EVENT, Died(p.pid, status)); }
      WakeClientsDead(k2, p.pid, 0);
    }
  }

  lemma {:induction false} ZapDead(k: K, killer: nat, i: nat, status: int)
    requires Shape(k) && i < MAX_PROCS
    ensures KeepsDead(k, Zap(k, killer, i, status))
    ensures MayKill(k, killer, i) ==> Gone(Zap(k, killer, i, status).procs[i])
  {
    hide Term;
    if k.procs[i].state != PROC_FREE { TermDead(k, i, status); }
  }

  /** Killing all interruptable processes leaves none alive that the killer may kill. */
  lemma {:induction false} ZapAllDead(k: K, killer: nat, status: int, i: nat)
    requires Shape(k) && i <= MAX_PROCS
    ensures KeepsDead(k, ZapAll(k, killer, status, i))
    ensures forall j :: i <= j < MAX_PROCS && k.procs[j].interruptable && MayKill(k, killer, j) ==>
      Gone(ZapAll(k, killer, status, i).procs[j])
    decreases MAX_PROCS - i
  {
    hide Zap;
    if i < MAX_PROCS {
      var k1 := if k.procs[i].state != PROC_FREE && k.procs[i].interruptable then Zap(k, killer, i, status) else k;
      if k.procs[i].state != PROC_FREE && k.procs[i].interruptable { ZapDead(k, killer, i, status); }
      assert KeepsDead(k, k1);
      assert killer < MAX_PROCS ==> k1.procs[killer].uid == k.procs[killer].uid;
      ZapAllDead(k1, killer, status, i + 1);
    }
  }

  // ----- Runs -----

  datatype Step =
    | SysSend(dst: nat, t: MsgType, c: Contents)
    | SysRecv(t: MsgType, maxTime: nat, now: nat)
    | SysRpc(pid: nat, c: Contents)
    | Resume                                     // proc_recv goes on behind proc_yield
    | SysExit(status: int)
    | CreateProc(owner: nat, uid: nat)
    | KillProc(killer: nat, pid: nat, status: int)
    | Yield
    | Demote                                     // check_priority: the quantum is used up
    | SetInterruptable(b: bool)                  // user_proc, about the process that runs it
    | ShutDown                                   // also from the handler of the terminal
    | Interrupt(src: nat, to: nat, t: MsgType, c: Contents)
    | NextRound(now: nat)

  /** The restrictions of procsys.c, and that interrupts and rounds happen in proc_yield. */
  predicate Enabled(k: K, s: Step) {
    && Shape(k)
    && match s
       case SysSend(_, t, _) => Ready(k) && t != REQUEST
       case SysRecv(t, _, _) => Ready(k) && t != REPLY
       case SysRpc(_, _) => Ready(k)
       case Resume => Receiving(k)
       case SysExit(_) => Ready(k)
       case CreateProc(_, _) => Ready(k)
       case KillProc(_, pid, _) => Ready(k) || (k.yielding && pid == 0)
       case Yield => Ready(k)
       case Demote => Ready(k)
       case SetInterruptable(_) => Ready(k)
       case ShutDown => Ready(k) || k.yielding
       case Interrupt(_, _, _, _) => k.yielding
       case NextRound(_) => k.yielding
  }

  /** sys_rpc up to where the proc_yield in proc_recv is called */
  function Rpc(k: K, pid: nat, c: Contents): K
    requires Ready(k)
  {
    if !RpcOk(k, pid) then k
    else
      var k1 := RpcSend(k, pid, c);
      if Ready(k1) then RecvStart(k1, REPLY, 0, 0) else k1
  }

  function Demoted(p: Priority): Priority {
    if p == MAX_PRIORITY - 1 then p else p + 1
  }

  ghost function Next(k: K, s: Step): K
    requires Enabled(k, s)
  {
    match s
    case SysSend(dst, t, c) => Send(k, k.procs[k.current].pid, dst, t, c)
    case SysRecv(t, maxTime, now) => RecvStart(k, t, maxTime, now)
    case SysRpc(pid, c) => Rpc(k, pid, c)
    case Resume => RecvFinish(k).0
    case SysExit(status) => Exit(k, status)
    case CreateProc(owner, uid) => Create(k, owner, uid)
    case KillProc(killer, pid, status) => Kill(k, killer, pid, status)
    case Yield => k.(yielding := true)
    case Demote => SetProc(k, k.current, k.procs[k.current].(priority := Demoted(k.procs[k.current].priority)))
    case SetInterruptable(b) => SetProc(k, k.current, k.procs[k.current].(interruptable := b))
    case ShutDown => k.(shutdown := true)
    case Interrupt(src, dst, t, c) => Send(k, src, dst, t, c)
    case NextRound(now) => Round(k, now).0
  }

  lemma {:induction false} RpcKeeps(k: K, pid: nat, c: Contents)
    requires Inv(k) && Ready(k)
    ensures Inv(Rpc(k, pid, c))
  {
    hide Inv, RpcSend, RecvStart, SendOk;
    if RpcOk(k, pid) {
      RpcSendKeeps(k, pid, c);
      RpcCurrent(k, pid, c);
      RecvStartKeeps(RpcSend(k, pid, c), REPLY, 0, 0);
    }
  }

  lemma RpcCurrent(k: K, pid: nat, c: Contents)
    requires Ready(k) && RpcOk(k, pid)
    ensures RpcSend(k, pid, c).current == k.current
  {}

  lemma {:induction false} SendInv(k: K, src: nat, dst: nat, t: MsgType, c: Contents)
    requires Inv(k)
    ensures Inv(Send(k, src, dst, t, c))
  {
    hide SlotsOk, PidsOk, CountsOk, QueuesOk, MailOk;
    SendKeeps(k, {k.current}, 0, src, dst, t, c);
  }

  lemma {:induction false} DemoteKeeps(k: K)
    requires Inv(k) && Ready(k)
    ensures Inv(SetProc(k, k.current, k.procs[k.current].(priority := Demoted(k.procs[k.current].priority))))
  {
    hide SlotsOk, PidsOk, CountsOk, QueuesOk;
    assert ProcOk(k.procs[k.current]);
    MidUpdate(k, k.current, k.procs[k.current].(priority := Demoted(k.procs[k.current].priority)), {k.current}, 0);
  }

  lemma {:induction false} InterruptableKeeps(k: K, b: bool)
    requires Inv(k) && Ready(k)
    ensures Inv(SetProc(k, k.current, k.procs[k.current].(interruptable := b)))
  {
    hide SlotsOk, PidsOk, CountsOk, QueuesOk;
    assert ProcOk(k.procs[k.current]);
    MidUpdate(k, k.current, k.procs[k.current].(interruptable := b), {k.current}, 0);
  }

  lemma {:induction false} ShutDownKeeps(k: K)
    requires Inv(k)
    ensures Inv(k.(shutdown := true))
  {
    hide SlotsOk, PidsOk, CountsOk, QueuesOk, MailOk;
    SameParts(k, k.(shutdown := true), 0);
    SameQueues(k, k.(shutdown := true), {k.current});
  }

  /** Whatever step is taken, the invariant holds after it. */
  lemma {:induction false} StepKeeps(k: K, s: Step)
    requires Inv(k) && Enabled(k, s)
    ensures Inv(Next(k, s))
  {
    hide Inv, Send, RecvStart, RecvFinish, Rpc, Exit, Create, Kill, Round;
    match s
    case SysSend(dst, t, c) => SendInv(k, k.procs[k.current].pid, dst, t, c);
    case SysRecv(t, maxTime, now) => RecvStartKeeps(k, t, maxTime, now);
    case SysRpc(pid, c) => RpcKeeps(k, pid, c);
    case Resume => RecvFinishKeeps(k);
    case SysExit(status) => ExitKeeps(k, status);
    case CreateProc(owner, uid) => CreateKeeps(k, owner, uid);
    case KillProc(killer, pid, status) => KillKeeps(k, killer, pid, status);
    case Yield => YieldKeeps(k);
    case Demote => DemoteKeeps(k);
    case SetInterruptable(b) => InterruptableKeeps(k, b);
    case ShutDown => ShutDownKeeps(k);
    case Interrupt(src, dst, t, c) => SendInv(k, src, dst, t, c);
    case NextRound(now) => RoundKeeps(k, now);
  }

  lemma YieldKeeps(k: K)
    requires Inv(k)
    ensures Inv(k.(yielding := true))
  {
    FlagKeeps(k, true);
  }

  /** The state after proc_initialize: one process, in slot 0. */
  ghost function Initial(): K {
    Alloc(Empty(), 1, 0)
  }

  ghost function Empty(): K {
    K(seq(MAX_PROCS, i requires 0 <= i => Proc(i, 0, 0, PROC_FREE, NO_MAIL, 0, false, 0, false, 0, InCode)), 0, false, [[], [], []],
      seq(MAX_PROCS, i requires 0 <= i => i), 0, 0, 1, false)
  }

  lemma {:induction false} InitialInv()
    ensures Inv(Initial())
  {
    hide SlotsOk, CountsOk;
    var k, k' := Empty(), Initial();
    EmptySlots();
    AllocSlots(k, k', 0);
    InitialCounts();
    assert forall l :: 0 <= l < MAX_PRIORITY ==> k'.runq[l] == [];
  }

  lemma {:induction false} InitialCounts()
    ensures CountsOk(Initial())
  {
    var k, k' := Empty(), Initial();
    CountNone(k.procs, EXISTING);
    CountNone(k.procs, RUNNING);
    CountUpdate(k.procs, EXISTING, 0, k'.procs[0]);
    CountUpdate(k.procs, RUNNING, 0, k'.procs[0]);
  }

  lemma EmptySlots()
    ensures SlotsOk(Empty())
  {
    var k := Empty();
    forall i: nat | i < MAX_PROCS ensures i in k.free { assert k.free[i] == i; }
  }

  /** The last of the steps leads from k to k'. */
  ghost predicate TakesLast(k: K, steps: seq<Step>, k': K) {
    steps != [] && Enabled(k, steps[|steps| - 1]) && Next(k, steps[|steps| - 1]) == k'
  }

  /** k' is reached from k by the given steps, each enabled where it was taken. */
  ghost predicate Reaches(k: K, steps: seq<Step>, k': K)
    decreases |steps|
  {
    if steps == [] then k' == k
    else exists v :: Reaches(k, steps[..|steps| - 1], v) && TakesLast(v, steps, k')
  }

  /** In every run, at every moment: each runnable or dead process but the current one is on exactly one
      run queue, once; a client that waits for a reply waits for a process that is alive; there is
      at most one reply, for a client that is about to take it, and from the server that it called. */
  lemma {:induction false} AnyRun(steps: seq<Step>, k: K)
    requires Reaches(Initial(), steps, k)
    ensures Inv(k)
    ensures forall i: nat :: i < MAX_PROCS && i != k.current ==>
      (InQueues(k.procs[i]) <==> exists l: nat :: l < MAX_PRIORITY && i in k.runq[l])
    ensures forall l :: 0 <= l < MAX_PRIORITY ==> NoDup(k.runq[l]) && k.current !in k.runq[l]
    ensures forall i: nat :: i < MAX_PROCS && AwaitsReply(k.procs[i]) ==> SomeLive(k.procs, k.procs[i].server)
    ensures forall i: nat :: i < MAX_PROCS && IsLive(k.procs[i]) && k.procs[i].boxes.reply.messages != [] ==>
      && k.procs[i].state == RUNNABLE && k.procs[i].point == InRecv(REPLY)
      && |k.procs[i].boxes.reply.messages| == 1 && k.procs[i].boxes.reply.messages[0].src == k.procs[i].server
    decreases |steps|
  {
    hide Inv, Next, Enabled;
    if steps == [] {
      InitialInv();
    } else {
      var v :| Reaches(Initial(), steps[..|steps| - 1], v) && TakesLast(v, steps, k);
      AnyRun(steps[..|steps| - 1], v);
      StepKeeps(v, steps[|steps| - 1]);
    }
    Consequences(k);
  }

  lemma {:induction false} Consequences(k: K)
    requires Inv(k)
    ensures forall i: nat :: i < MAX_PROCS && i != k.current ==>
      (InQueues(k.procs[i]) <==> exists l: nat :: l < MAX_PRIORITY && i in k.runq[l])
    ensures forall l :: 0 <= l < MAX_PRIORITY ==> NoDup(k.runq[l]) && k.current !in k.runq[l]
    ensures forall i: nat :: i < MAX_PROCS && AwaitsReply(k.procs[i]) ==> SomeLive(k.procs, k.procs[i].server)
    ensures forall i: nat :: i < MAX_PROCS && IsLive(k.procs[i]) && k.procs[i].boxes.reply.messages != [] ==>
      && k.procs[i].state == RUNNABLE && k.procs[i].point == InRecv(REPLY)
      && |k.procs[i].boxes.reply.messages| == 1 && k.procs[i].boxes.reply.messages[0].src == k.procs[i].server
  {
    hide SlotsOk, PidsOk, CountsOk;
    forall i: nat | i < MAX_PROCS ensures ProcOk(k.procs[i]) {}
  }
}
