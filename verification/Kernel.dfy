/** The kernel's process management, on the process table and queues that it updates in place.  Every
    assertion of the source stands where it stands there. */
module Kernels {
  import opened KernelState
  import opened KernelInv
  import opened KernelSteps
  import opened KernelMail
  import opened KernelRights

  class Kernel {
    const procs: array<Proc>          // proc_set
    const runq: array<seq<nat>>       // mtlQueue: slots of processes, by priority
    var free: seq<nat>                // proc_free
    var current: nat                  // proc_current
    var yielding: bool                // control is in proc_yield
    var nprocs: int
    var nrunnable: int
    var pidGen: nat
    var shutdown: bool                // proc_shutting_down

    ghost predicate Shaped()
      reads this
    {
      procs.Length == MAX_PROCS && runq.Length == MAX_PRIORITY && current < MAX_PROCS
    }

    ghost function State(): (k: K)
      reads this, procs, runq
    {
      K(procs[..], current, yielding, runq[..], free, nprocs, nrunnable, pidGen, shutdown)
    }

    /** proc_initialize */
    constructor ()
      ensures Shaped() && fresh(procs) && fresh(runq) && State() == Initial() && Inv(State())
    {
      procs := new Proc[MAX_PROCS](i => Proc(0, 0, 0, PROC_FREE, NO_MAIL, 0, false, 0, false, 0, InCode));
      runq := new seq<nat>[MAX_PRIORITY](i => []);
      free, current, yielding, nprocs, nrunnable, pidGen, shutdown := [], 0, false, 0, 0, 1, false;
      new;
      for i := 0 to MAX_PROCS
        invariant Shaped() && current == 0 && !yielding && nprocs == 0 && nrunnable == 0 && pidGen == 1 && !shutdown
        invariant runq[..] == [[], [], []]
        invariant forall j :: 0 <= j < MAX_PROCS ==>
          procs[j] == Proc(if j < i then j else 0, 0, 0, PROC_FREE, NO_MAIL, 0, false, 0, false, 0, InCode)
        invariant |free| == i && forall j :: 0 <= j < i ==> free[j] == j
      {
        procs[i] := procs[i].(pid := i);
        free := free + [i];
      }
      assert State() == Empty();
      var main := ProcAlloc(1, 0);
      current := main;
      InitialInv();
    }

    /** proc_alloc: free[0] is the slot */
    method ProcAlloc(owner: nat, uid: nat) returns (p: nat)
      requires Shaped() && free != [] && free[0] < MAX_PROCS
      modifies this, procs
      ensures Shaped() && State() == Alloc(old(State()), owner, uid) && p == old(free)[0]
    {
      p := free[0];
      free := free[1..];
      procs[p] := NewProc(pidGen, owner, uid);
      pidGen := pidGen + 1;
      nprocs := nprocs + 1;
      nrunnable := nrunnable + 1;
      assert procs[..] == old(procs[..])[p := NewProc(old(pidGen), owner, uid)];
    }

    /** proc_release */
    method ProcRelease(p: nat)
      requires Shaped() && p < MAX_PROCS && procs[p].state == ZOMBIE
      modifies this, procs
      ensures Shaped() && State() == Release(old(State()), p)
    {
      assert procs[p].state == ZOMBIE;
      procs[p] := procs[p].(boxes := NO_MAIL);
      nprocs := nprocs - 1;
      procs[p] := procs[p].(state := PROC_FREE);
      free := free + [p];
      assert procs[..] == Release(old(State()), p).procs;
    }

    /** proc_to_runqueue */
    method ToRunqueue(p: nat)
      requires Shaped() && p < MAX_PROCS && procs[p].state == RUNNABLE
      modifies runq
      ensures Shaped() && State() == ToRunq(old(State()), p)
    {
      assert procs[p].state == RUNNABLE;
      runq[procs[p].priority] := runq[procs[p].priority] + [p];
      assert runq[..] == ToRunq(old(State()), p).runq;
    }

    /** proc_find */
    method ProcFind(pid: nat) returns (p: nat)
      requires Shaped()
      ensures p == Find(procs[..], pid, 0)
    {
      p := 0;
      while p < MAX_PROCS && !(procs[p].state != PROC_FREE && procs[p].pid == pid)
        invariant p <= MAX_PROCS && Find(procs[..], pid, p) == Find(procs[..], pid, 0)
      {
        p := p + 1;
      }
    }

    /** proc_send */
    method ProcSend(src: nat, dst: nat, t: MsgType, c: Contents, ghost off: set<nat>, ghost dying: nat) returns (ok: bool)
      requires Shaped() && Mid(State(), off, dying)
      modifies this, procs, runq
      ensures Shaped() && ok == SendOk(old(State()), src, dst, t)
      ensures ok <==> Reachable(old(State()), src, dst, t)
      ensures State() == Send(old(State()), src, dst, t, c) && Mid(State(), off, dying)
    {
      hide SlotsOk, PidsOk, CountsOk, QueuesOk, Reachable;
      ghost var k := State();
      SendKeeps(k, off, dying, src, dst, t, c);
      SendOkMeans(k, src, dst, t);
      var i := ProcFind(dst);
      if i == MAX_PROCS || procs[i].state == ZOMBIE {
        return false;
      }
      var p := procs[i];
      if t == REPLY && (p.state != WAITING || !p.boxes.Get(t).waiting || p.server != src) {
        return false;
      }
      assert ProcOk(k.procs[i]);
      Post(i, t, Message(src, c));
      ok := true;
    }

    /** The second half of proc_send: add the message to the queue, and wake up the process if it waits. */
    method Post(i: nat, t: MsgType, m: Message)
      requires Shaped() && i < MAX_PROCS && (procs[i].boxes.Get(t).waiting ==> procs[i].state == WAITING)
      modifies this, procs, runq
      ensures Shaped() && State() == Deliver(old(State()), i, t, m)
    {
      ghost var k := State();
      var p := procs[i];
      var b := p.boxes.Get(t);
      var posted := p.(boxes := p.boxes.Set(t, b.(messages := b.messages + [m])));
      procs[i] := posted;
      if b.waiting {
        assert procs[i].state == WAITING;
        Rouse(i, posted.(state := RUNNABLE, alarm := false), WithMessage(p, t, m).(state := RUNNABLE, alarm := false));
      }
      assert procs[..] == k.procs[i := procs[i]];
    }

    /** Process i, which waits, is made runnable, and no longer waits once it is queued. */
    method Rouse(i: nat, woken: Proc, done: Proc)
      requires Shaped() && i < MAX_PROCS && woken.state == RUNNABLE && done.priority == woken.priority
      modifies this, procs, runq
      ensures Shaped() && State() == Awake(old(State()), i, done)
    {
      ghost var k := State();
      procs[i] := woken;
      nrunnable := nrunnable + 1;
      if i != current {
        ToRunqueue(i);
      }
      procs[i] := done;
      assert procs[..] == k.procs[i := done];
    }

    /** proc_wakeup */
    method ProcWakeup(i: nat)
      requires Shaped() && i < MAX_PROCS && procs[i].state == WAITING
      modifies this, procs, runq
      ensures Shaped() && State() == Wakeup(old(State()), i)
    {
      assert procs[i].state == WAITING;
      var woken := procs[i].(state := RUNNABLE, alarm := false);
      if i != current && woken.priority == MAX_PRIORITY - 1 {
        woken := woken.(priority := woken.priority - 1);
      }
      Rouse(i, woken, woken.(boxes := woken.boxes.NoneWaiting()));
    }

    /** proc_term, but for the page frames */
    method ProcTerm(i: nat, status: int, ghost off: set<nat>)
      requires Shaped() && i < MAX_PROCS && Mid(State(), off, 0) && procs[i].state != PROC_FREE
      modifies this, procs, runq
      ensures Shaped() && State() == Term(old(State()), i, status)
      ensures Mid(State(), OffAfter(old(State()), i, off), 0) && procs[i].state == ZOMBIE
    {
      hide Mid, WakeClients, Send, Dead;
      ghost var k := State();
      TermKeeps(k, i, status, off);
      NprocsPositive(k, off, i);
      assert nprocs > 0;
      var p := procs[i];
      if p.state != ZOMBIE {
        DieKeeps(k, i, off);
        MarkDead(i);
        ghost var off1 := OffAfter(k, i, off);
        var o := ProcFind(p.owner);
        if o != MAX_PROCS {
          NotifyOwner(p.pid, o, status, off1);
        }
        FailClients(p.pid, off1);
      }
    }

    /** The start of proc_term */
    method MarkDead(i: nat)
      requires Shaped() && i < MAX_PROCS && procs[i].state != ZOMBIE
      modifies this, procs
      ensures Shaped() && State() == Dead(old(State()), i)
    {
      if procs[i].state == RUNNABLE {
        nrunnable := nrunnable - 1;
      }
      procs[i] := procs[i].(state := ZOMBIE);
      assert procs[..] == Dead(old(State()), i).procs;
    }

    method NotifyOwner(pid: nat, o: nat, status: int, ghost off: set<nat>)
      requires Shaped() && o < MAX_PROCS && Mid(State(), off, pid)
      modifies this, procs, runq
      ensures Shaped() && Mid(State(), off, pid)
      ensures State() == Send(old(State()), pid, old(procs[o].pid), EVENT, Died(pid, status))
    {
      hide Mid, Send;
      var _ := ProcSend(pid, procs[o].pid, EVENT, Died(pid, status), off, pid);
    }

    /** The loop of proc_term over the clients of a dead server */
    method FailClients(pid: nat, ghost off: set<nat>)
      requires Shaped() && Mid(State(), off, pid) && pid != 0
      modifies this, procs, runq
      ensures Shaped() && State() == WakeClients(old(State()), pid, 0)
    {
      hide Mid, Wakeup, WakeClients;
      ghost var k := State();
      assert Shape(k);
      var i := 0;
      while i < MAX_PROCS
        invariant i <= MAX_PROCS && Shaped() && WakeClients(State(), pid, i) == WakeClients(k, pid, 0)
      {
        ClientStep(State(), pid, i);
        if procs[i].state == WAITING && procs[i].boxes.Get(REPLY).waiting && procs[i].server == pid {
          ProcWakeup(i);
        }
        i := i + 1;
      }
      ClientStep(State(), pid, i);
    }

    /** proc_zap; killer MAX_PROCS is the kernel itself. */
    method ProcZap(killer: nat, i: nat, status: int)
      requires Shaped() && i < MAX_PROCS && Mid(State(), {current}, 0) && procs[i].state != PROC_FREE
      modifies this, procs, runq
      ensures Shaped() && State() == Zap(old(State()), killer, i, status) && Mid(State(), {current}, 0)
      ensures Refused(old(State()), killer, i) ==> State() == old(State())
    {
      hide SlotsOk, PidsOk, CountsOk, QueuesOk, MailOk, Term;
      ghost var k := State();
      ZapKeeps(k, killer, i, status);
      if killer != MAX_PROCS && killer < MAX_PROCS && procs[killer].uid != 0 && procs[killer].uid != procs[i].uid {
        return;
      }
      NprocsPositive(k, {current}, i);
      assert nprocs > 0;
      match procs[i].state
      case RUNNABLE =>
        ProcTerm(i, status, {current});
      case WAITING =>
        ProcTerm(i, status, {current});
        if i != current {
          ProcRelease(i);
        }
      case ZOMBIE =>
      case PROC_FREE =>
        assert false;
    }

    /** The loop of proc_kill for pid 0 */
    method ZapInterruptable(killer: nat, status: int)
      requires Shaped() && Mid(State(), {current}, 0)
      modifies this, procs, runq
      ensures Shaped() && State() == ZapAll(old(State()), killer, status, 0)
    {
      hide Mid, Zap, ZapAll;
      ghost var k := State();
      MidShape(k);
      var i := 0;
      while i < MAX_PROCS
        invariant i <= MAX_PROCS && Shaped() && Mid(State(), {current}, 0)
        invariant ZapAll(State(), killer, status, i) == ZapAll(k, killer, status, 0)
      {
        ZapAllStep(State(), killer, status, i);
        if procs[i].state != PROC_FREE && procs[i].interruptable {
          ProcZap(killer, i, status);
        }
        i := i + 1;
      }
      ZapAllStep(State(), killer, status, i);
    }

    /** proc_kill: the call of proc_yield at its end is that yielding becomes true. */
    method ProcKill(killer: nat, pid: nat, status: int)
      requires Shaped() && Inv(State())
      modifies this, procs, runq
      ensures Shaped() && State() == Kill(old(State()), killer, pid, status) && Inv(State())
    {
      hide Mid, Zap, ZapAll;
      ghost var k := State();
      KillKeeps(k, killer, pid, status);
      var i := ProcFind(killer);
      if i == MAX_PROCS {
        return;
      }
      if pid == 0 {
        ZapInterruptable(i, status);
        if procs[current].state == ZOMBIE {
          yielding := true;
        }
        return;
      }
      var j := ProcFind(pid);
      if j == MAX_PROCS {
        return;
      }
      ProcZap(i, j, status);
      if procs[j].state == ZOMBIE {
        yielding := true;
      }
    }

    /** proc_recv up to the call of proc_yield, or to where it goes on without one */
    method RecvBegin(t: MsgType, maxTime: nat, now: nat)
      requires Shaped() && Inv(State()) && Ready(State())
      requires t == REPLY ==> SomeLive(procs[..], procs[current].server)
      modifies this, procs
      ensures Shaped() && State() == RecvStart(old(State()), t, maxTime, now) && Inv(State())
    {
      hide Mid;
      ghost var k := State();
      RecvStartKeeps(k, t, maxTime, now);
      assert procs[current].state == RUNNABLE;
      assert !procs[current].boxes.Get(t).waiting by { ReadyNotWaiting(k, t); }
      var p := procs[current];
      if p.boxes.Get(t).messages == [] {
        var p' := p.(boxes := p.boxes.Set(t, p.boxes.Get(t).(waiting := true)), state := WAITING, point := InRecv(t));
        nrunnable := nrunnable - 1;
        if maxTime != 0 {
          p' := p'.(exptime := now + maxTime, alarm := true);
        }
        procs[current] := p';
        yielding := true;
      } else {
        assert t != REPLY;
        procs[current] := p.(point := InRecv(t));
      }
      assert procs[..] == RecvStart(k, t, maxTime, now).procs;
    }

    /** The rest of proc_recv, when the process runs again */
    method RecvEnd() returns (r: Received)
      requires Shaped() && Inv(State()) && Receiving(State())
      modifies procs
      ensures Shaped() && (State(), r) == RecvFinish(old(State())) && Inv(State()) && Ready(State())
      ensures old(procs[current]).point.t == REPLY && r.Received? ==> r.m.src == procs[current].server
    {
      hide Mid;
      ghost var k := State();
      RecvFinishKeeps(k);
      var p := procs[current];
      var b := p.boxes.Get(p.point.t);
      assert !b.waiting;
      assert p.state == RUNNABLE;
      if b.messages == [] {
        procs[current] := p.(point := InCode);
        r := Nothing;
      } else {
        procs[current] := p.(point := InCode, boxes := p.boxes.Set(p.point.t, b.(messages := b.messages[1..])));
        r := Received(b.messages[0]);
      }
      assert procs[..] == RecvFinish(k).0.procs;
    }

    /** sys_recv up to the call of proc_yield in proc_recv */
    method SysRecv(t: MsgType, maxTime: nat, now: nat) returns (ok: bool)
      requires Shaped() && Inv(State()) && Ready(State())
      modifies this, procs
      ensures Shaped() && Inv(State()) && ok == (t != REPLY)
      ensures State() == if ok then RecvStart(old(State()), t, maxTime, now) else old(State())
    {
      if t != REQUEST && t != EVENT {
        return false;
      }
      RecvBegin(t, maxTime, now);
      ok := true;
    }

    /** sys_send */
    method SysSend(dst: nat, t: MsgType, c: Contents) returns (ok: bool)
      requires Shaped() && Inv(State()) && Ready(State())
      modifies this, procs, runq
      ensures Shaped() && Inv(State())
      ensures ok <==> t != REQUEST && SendOk(old(State()), old(procs[current].pid), dst, t)
      ensures State() == if t == REQUEST then old(State()) else Send(old(State()), old(procs[current].pid), dst, t, c)
    {
      hide Mid, Send, SendOk;
      if t != REPLY && t != EVENT {
        return false;
      }
      SendInv(State(), procs[current].pid, dst, t, c);
      ok := ProcSend(procs[current].pid, dst, t, c, {current}, 0);
    }

    /** An interrupt handler sends a message while the current process is in proc_yield. */
    method InterruptSend(src: nat, dst: nat, t: MsgType, c: Contents) returns (ok: bool)
      requires Shaped() && Inv(State()) && yielding
      modifies this, procs, runq
      ensures Shaped() && Inv(State()) && State() == Send(old(State()), src, dst, t, c)
    {
      hide Mid, Send;
      SendInv(State(), src, dst, t, c);
      ok := ProcSend(src, dst, t, c, {current}, 0);
    }

    /** sys_rpc up to the call of proc_yield in proc_recv; RecvEnd is the rest, and what it takes then
        comes from pid. */
    method SysRpc(pid: nat, c: Contents) returns (ok: bool)
      requires Shaped() && Inv(State()) && Ready(State())
      modifies this, procs, runq
      ensures Shaped() && Inv(State()) && State() == Rpc(old(State()), pid, c)
      ensures ok == RpcOk(old(State()), pid)
      ensures ok <==> pid != old(procs[current].pid) && Reachable(old(State()), old(procs[current].pid), pid, REQUEST)
      ensures ok ==> AwaitsReply(procs[current]) && procs[current].server == pid
    {
      hide Mid, Deliver, SendOk, Reachable;
      ghost var k := State();
      InvPids(k);
      SendOkMeans(k, procs[current].pid, pid, REQUEST);
      RpcKeeps(k, pid, c);
      if pid == procs[current].pid {
        return false;
      }
      if RpcOk(k, pid) { RpcSendKeeps(k, pid, c); }
      SendInv(k, procs[current].pid, pid, REQUEST, c);
      ok := ProcSend(procs[current].pid, pid, REQUEST, c, {current}, 0);
      if !ok {
        return;
      }
      procs[current] := procs[current].(server := pid);
      assert procs[..] == RpcSend(k, pid, c).procs;
      ReplyBoxEmpty(State());
      RecvBegin(REPLY, 0, 0);
    }

    /** proc_create_uid: the new process becomes the current one, as in ctx_entry. */
    method ProcCreate(owner: nat, uid: nat) returns (pid: nat)
      requires Shaped() && Inv(State()) && Ready(State())
      modifies this, procs, runq
      ensures Shaped() && Inv(State()) && Ready(State()) && State() == Create(old(State()), owner, uid)
      ensures pid == if CreateOk(old(State()), owner) then old(pidGen) else 0
    {
      hide Mid;
      ghost var k := State();
      CreateKeeps(k, owner, uid);
      FreeInRange(k);
      if shutdown {
        return 0;
      }
      var parent := ProcFind(owner);
      if parent == MAX_PROCS {
        return 0;
      }
      var u := uid;
      if procs[parent].uid != 0 {
        u := procs[parent].uid;
      }
      if free == [] {
        return 0;
      }
      var p := ProcAlloc(owner, u);
      pid := procs[p].pid;
      FreeIsNotCurrent(k);
      ToRunqueue(current);
      current := p;
    }

    /** sys_exit up to the call of proc_yield */
    method SysExit(status: int)
      requires Shaped() && Inv(State()) && Ready(State())
      modifies this, procs, runq
      ensures Shaped() && Inv(State()) && State() == Exit(old(State()), status)
    {
      hide Mid, Term;
      ExitKeeps(State(), status);
      ProcTerm(current, status, {current});
      yielding := true;
    }

    /** What user_proc does first */
    method SetInterruptable(b: bool)
      requires Shaped() && Inv(State()) && Ready(State())
      modifies procs
      ensures Shaped() && Inv(State())
      ensures State() == SetProc(old(State()), current, old(procs[current]).(interruptable := b))
    {
      hide Mid;
      ghost var k := State();
      InterruptableKeeps(k, b);
      procs[current] := procs[current].(interruptable := b);
      assert procs[..] == k.procs[current := procs[current]];
    }

    /** check_priority, when the quantum is used up */
    method CheckPriority()
      requires Shaped() && Inv(State()) && Ready(State())
      modifies procs
      ensures Shaped() && Inv(State())
      ensures State() == SetProc(old(State()), current, old(procs[current]).(priority := Demoted(old(procs[current]).priority)))
    {
      hide Mid;
      ghost var k := State();
      DemoteKeeps(k);
      if procs[current].priority != MAX_PRIORITY - 1 {
        procs[current] := procs[current].(priority := procs[current].priority + 1);
      }
      assert procs[..] == k.procs[current := procs[current]];
    }

    /** proc_shutdown, but for the curfew; also called by the handler of the terminal */
    method ProcShutdown()
      requires Shaped() && Inv(State())
      modifies this`shutdown
      ensures Shaped() && Inv(State()) && State() == old(State()).(shutdown := true)
    {
      hide Mid;
      ShutDownKeeps(State());
      shutdown := true;
    }

    // ----- proc_yield -----

    /** The loop of proc_yield over all processes */
    method CheckAll(now: nat)
      requires Shaped() && Mid(State(), {current}, 0)
      modifies this, procs, runq
      ensures Shaped() && State() == Tick(old(State()), now, 0) && Mid(State(), {current}, 0)
    {
      hide Mid, Zap, Tick, Wakeup;
      ghost var k := State();
      MidShape(k);
      TickKeeps(k, now, 0);
      var i := 0;
      while i < MAX_PROCS
        invariant i <= MAX_PROCS && Shaped() && Mid(State(), {current}, 0)
        invariant Tick(State(), now, i) == Tick(k, now, 0)
      {
        TickStep(State(), now, i);
        if shutdown && procs[i].state != PROC_FREE {
          ProcZap(MAX_PROCS, i, STAT_SHUTDOWN);
        } else if procs[i].state == WAITING && procs[i].alarm {
          if procs[i].exptime <= now {
            WakeupKeeps(State(), i, {current}, 0);
            ProcWakeup(i);
          }
        }
        i := i + 1;
      }
      TickStep(State(), now, i);
    }

    /** The loops of proc_yield over the run queues: a runnable process, or MAX_PROCS */
    method FindNext() returns (next: nat)
      requires Shaped() && Mid(State(), {current}, 0)
      modifies this, procs, runq
      ensures QueueRange(old(State())) && Shaped() && Select(old(State()), 0) == Choice(State(), next)
    {
      hide Mid, Select, Pop, Release;
      ghost var k := State();
      MidShape(k);
      var level := 0;
      while level < MAX_PRIORITY
        invariant level <= MAX_PRIORITY && Shaped() && Mid(State(), {current}, 0)
        invariant QueueRange(State()) && Select(State(), level) == Select(k, 0)
      {
        while runq[level] != []
          invariant Shaped() && Mid(State(), {current}, 0)
          invariant QueueRange(State()) && Select(State(), level) == Select(k, 0)
          decreases |runq[level]|
        {
          ghost var k0 := State();
          SelectStep(k0, level);
          next := runq[level][0];
          runq[level] := runq[level][1..];
          assert State() == Pop(k0, level) by { PopIs(k0, level, State()); }
          if procs[next].state == RUNNABLE {
            return;
          }
          assert procs[next].state == ZOMBIE;
          ghost var k1 := State();
          ProcRelease(next);
          ReleaseQueuesSame(k1, next);
        }
        SelectStep(State(), level);
        level := level + 1;
      }
      SelectStep(State(), level);
      next := MAX_PROCS;
    }

    /** One round of the loop of proc_yield, up to where the next process goes on. */
    method YieldRound(now: nat) returns (o: Outcome)
      requires Shaped() && Inv(State()) && yielding
      modifies this, procs, runq
      ensures Shaped() && Inv(State()) && (State(), o) == Round(old(State()), now)
      ensures o == Switched ==> current != old(current) && procs[current].state == RUNNABLE
    {
      hide Mid, Tick, Select, Switch, Count;
      ghost var k := State();
      RoundKeeps(k, now);
      NprocsPositive(k, {current}, current) by { CurrentExists(k); }
      assert nprocs > 0;
      CheckAll(now);
      ghost var t := State();
      SelectKeeps(t, 0);
      var next := FindNext();
      ghost var s := State();
      Selected(t, s, next);
      assert nprocs > 0;
      if next != MAX_PROCS {
        assert next != current;
        assert procs[next].pid != procs[current].pid;
        assert procs[next].state == RUNNABLE;
        if procs[current].state == RUNNABLE {
          ToRunqueue(current);
        }
        AfterSwitch(next);
        assert State() == Switch(s, next) by { SwitchIs(s, next, State()); }
        return Switched;
      }
      if procs[current].state == RUNNABLE {
        yielding := false;
        return Stays;
      }
      if nprocs == 1 && shutdown {
        return Halts;
      }
      o := Again;
    }

    /** proc_after_switch, on the stack of the next process */
    method AfterSwitch(next: nat)
      requires Shaped() && next < MAX_PROCS && next != current && procs[next].state == RUNNABLE
      modifies this, procs
      ensures Shaped()
      ensures State() == (if old(procs[current]).state == ZOMBIE then Release(old(State()), old(current)) else old(State()))
                         .(current := next, yielding := false)
    {
      assert next != current;
      assert procs[next].state == RUNNABLE;
      if procs[current].state == ZOMBIE {
        ProcRelease(current);
      }
      current := next;
      yielding := false;
    }
  }

  lemma ClientStep(k: K, pid: nat, i: nat)
    requires Shape(k) && i <= MAX_PROCS
    ensures WakeClients(k, pid, i) ==
      if i == MAX_PROCS then k else WakeClients(if WaitsFor(k.procs[i], pid) then Wakeup(k, i) else k, pid, i + 1)
    ensures Shape(WakeClients(k, pid, i))
  {}

  lemma {:induction false} NprocsPositive(k: K, off: set<nat>, i: nat)
    requires Mid(k, off, 0) && i < MAX_PROCS && k.procs[i].state != PROC_FREE
    ensures k.nprocs > 0 && k.procs[i].pid > 0
  {
    CountPositive(k.procs, EXISTING, i);
  }

  lemma MidShape(k: K)
    requires Mid(k, {k.current}, 0)
    ensures Shape(k) && QueueRange(k)
  {
    QueuesInRange(k, {k.current});
  }

  lemma ZapAllStep(k: K, killer: nat, status: int, i: nat)
    requires Shape(k) && i <= MAX_PROCS
    ensures ZapAll(k, killer, status, i) ==
      if i == MAX_PROCS then k
      else ZapAll(if k.procs[i].state != PROC_FREE && k.procs[i].interruptable then Zap(k, killer, i, status) else k, killer, status, i + 1)
  {}

  lemma TickStep(k: K, now: nat, i: nat)
    requires Shape(k) && i <= MAX_PROCS
    ensures Tick(k, now, i) ==
      if i == MAX_PROCS then k
      else Tick(if k.shutdown && k.procs[i].state != PROC_FREE then Zap(k, MAX_PROCS, i, STAT_SHUTDOWN)
                else if k.procs[i].state == WAITING && k.procs[i].alarm && k.procs[i].exptime <= now then Wakeup(k, i)
                else k, now, i + 1)
  {}

  /** One step of the search for the next process, from a state that is well formed. */
  lemma {:induction false} SelectStep(k: K, level: nat)
    requires Mid(k, {k.current}, 0) && level <= MAX_PRIORITY && QueueRange(k)
    ensures level == MAX_PRIORITY ==> Select(k, level) == Choice(k, MAX_PROCS)
    ensures level < MAX_PRIORITY && k.runq[level] == [] ==> Select(k, level) == Select(k, level + 1)
    ensures level < MAX_PRIORITY && k.runq[level] != [] ==>
      var i, k1 := k.runq[level][0], Pop(k, level);
      && i < MAX_PROCS
      && if k.procs[i].state == RUNNABLE then Select(k, level) == Choice(k1, i)
         else
           && k.procs[i].state == ZOMBIE && Mid(Release(k1, i), {k.current}, 0) && QueueRange(Release(k1, i))
           && Select(k, level) == Select(Release(k1, i), level)
  {
    hide SlotsOk, PidsOk, CountsOk, QueuesOk, MailOk;
    if level < MAX_PRIORITY && k.runq[level] != [] {
      var i, k1 := k.runq[level][0], Pop(k, level);
      PopKeeps(k, level, {k.current});
      assert {k.current} + {i} == {k.current, i};
      if k.procs[i].state != RUNNABLE {
        ReleaseKeeps(k1, i, {k.current, i});
        assert {k.current, i} - {i} == {k.current};
        QueuesInRange(Release(k1, i), {k.current});
      }
    }
  }

  lemma PopIs(k: K, level: nat, k': K)
    requires Shape(k) && level < MAX_PRIORITY && k.runq[level] != []
    requires k' == k.(runq := k.runq[level := k.runq[level][1..]])
    ensures k' == Pop(k, level)
  {}

  lemma ReleaseQueuesSame(k: K, i: nat)
    requires Shape(k) && i < MAX_PROCS
    ensures Release(k, i).runq == k.runq
  {}

  lemma ReadyNotWaiting(k: K, t: MsgType)
    requires Inv(k) && Ready(k)
    ensures !k.procs[k.current].boxes.Get(t).waiting
  {
    hide SlotsOk, PidsOk, CountsOk, QueuesOk;
    assert ProcOk(k.procs[k.current]);
  }

  lemma ReplyBoxEmpty(k: K)
    requires Inv(k) && Ready(k)
    ensures k.procs[k.current].boxes.Get(REPLY).messages == []
  {
    hide SlotsOk, PidsOk, CountsOk, QueuesOk;
    assert ProcOk(k.procs[k.current]);
  }

  lemma FreeInRange(k: K)
    requires Inv(k)
    ensures k.free != [] ==> k.free[0] < MAX_PROCS
  {
    hide PidsOk, CountsOk, QueuesOk, MailOk;
    assert k.free != [] ==> k.free[0] in k.free;
  }

  lemma FreeIsNotCurrent(k: K)
    requires Inv(k) && k.free != []
    ensures k.free[0] != k.current
  {
    hide PidsOk, CountsOk, QueuesOk, MailOk;
    assert k.free[0] in k.free;
  }

  lemma CurrentExists(k: K)
    requires Inv(k)
    ensures Mid(k, {k.current}, 0) && k.procs[k.current].state != PROC_FREE
  {}

  /** What the scheduler knows about the process that it found. */
  lemma {:induction false} Selected(t: K, s: K, next: nat)
    requires Mid(t, {t.current}, 0) && QueueRange(t) && Select(t, 0) == Choice(s, next)
    ensures s.current == t.current && s.nprocs > 0
    ensures s.yielding == t.yielding
    ensures next != MAX_PROCS ==>
      && next < MAX_PROCS && next != s.current && s.procs[next].state == RUNNABLE && s.procs[next].pid != s.procs[s.current].pid
  {
    hide SlotsOk, CountsOk, QueuesOk, MailOk, Select;
    SelectKeeps(t, 0);
    if next < MAX_PROCS {
      NprocsPositive(s, {s.current, next}, s.current);
    } else {
      NprocsPositive(s, {s.current}, s.current);
    }
  }

  lemma SwitchIs(s: K, n: nat, k: K)
    requires Shape(s) && n < MAX_PROCS && n != s.current
    requires var p := s.procs[s.current];
      var k1 := if p.state == RUNNABLE then ToRunq(s, s.current) else s;
      k == (if p.state == ZOMBIE then Release(k1, s.current) else k1).(current := n, yielding := false)
    ensures k == Switch(s, n)
  {}
}
