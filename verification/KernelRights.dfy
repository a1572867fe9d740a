/** Who may kill whom, what becomes of the others, and why a process that waits is woken up. */
module KernelRights {
  import opened KernelState
  import opened KernelInv
  import opened KernelSteps
  import opened KernelMail

  // ----- What becomes of each process -----

  /** One of the processes in slots gone is the server with this pid. */
  ghost predicate ServerGone(k: K, gone: set<nat>, pid: nat) {
    exists d: nat :: d in gone && d < |k.procs| && k.procs[d].pid == pid
  }

  /** A process that waited is woken up: by a message of the type that it waited for, because the server that it called
      is among those in gone, or because its time was up at time now. */
  ghost predicate Roused(k: K, q: Proc, p: Proc, gone: set<nat>, now: int) {
    && q.state == WAITING && p.state == RUNNABLE
    && (HasMail(q, p)
        || (AwaitsReply(q) && ServerGone(k, gone, q.server))
        || (q.alarm && q.exptime <= now))
  }

  /** There is a message of the type that q waited for. */
  ghost predicate HasMail(q: Proc, p: Proc) {
    exists t :: q.boxes.Get(t).waiting && p.boxes.Get(t).messages != []
  }

  /** The same process with the same rights, in the same place of its code */
  ghost predicate SameRights(q: Proc, p: Proc) {
    && p.pid == q.pid && p.owner == q.owner && p.uid == q.uid && p.interruptable == q.interruptable
    && p.server == q.server && p.point == q.point
  }

  /** Messages are not lost, and what it waits for stays the same. */
  ghost predicate SameWait(q: Proc, p: Proc) {
    && (forall t :: p.state != PROC_FREE && q.boxes.Get(t).messages != [] ==> p.boxes.Get(t).messages != [])
    && WaitsAsBefore(q, p)
  }

  /** Slot j: its process is in the state it was in, or it died, which only those in gone do, or it was woken up; a dead
      one in gone may have been released. */
  ghost predicate Fate(k: K, k': K, gone: set<nat>, now: int, j: nat)
    requires j < |k.procs| && j < |k'.procs|
  {
    var q, p := k.procs[j], k'.procs[j];
    && SameRights(q, p) && SameWait(q, p)
    && (p.state == q.state || (j in gone && q.state != PROC_FREE && Gone(p)) || Roused(k, q, p, gone, now))
  }

  ghost predicate Fates(k: K, k': K, gone: set<nat>, now: int) {
    Shape(k) && Shape(k') && forall j: nat :: j < MAX_PROCS ==> Fate(k, k', gone, now, j)
  }

  lemma {:induction false} FatesSelf(k: K, gone: set<nat>, now: int)
    requires Shape(k)
    ensures Fates(k, k, gone, now)
  {}

  lemma {:induction false} FatesMore(k: K, k': K, a: set<nat>, b: set<nat>, now: int)
    requires Fates(k, k', a, now) && a <= b
    ensures Fates(k, k', b, now)
  {
    forall j: nat | j < MAX_PROCS ensures Fate(k, k', b, now, j) {
      assert Fate(k, k', a, now, j);
      if ServerGone(k, a, k.procs[j].server) {
        var d: nat :| d in a && d < |k.procs| && k.procs[d].pid == k.procs[j].server;
        assert ServerGone(k, b, k.procs[j].server);
      }
    }
  }

  lemma {:induction false} MailBoth(q: Proc, r: Proc, p: Proc)
    requires HasMail(q, r) && SameWait(r, p) && p.state != PROC_FREE
    ensures HasMail(q, p)
  {
    var t :| q.boxes.Get(t).waiting && r.boxes.Get(t).messages != [];
    assert q.boxes.Get(t).waiting && p.boxes.Get(t).messages != [];
  }

  lemma {:induction false} MailAfter(q: Proc, r: Proc, p: Proc)
    requires HasMail(r, p) && WaitsAsBefore(q, r) && r.state == WAITING
    ensures HasMail(q, p)
  {
    var t :| r.boxes.Get(t).waiting && p.boxes.Get(t).messages != [];
    assert q.boxes.Get(t).waiting && p.boxes.Get(t).messages != [];
  }

  lemma {:induction false} GoneBoth(k: K, k1: K, gone: set<nat>, now: int, pid: nat)
    requires Fates(k, k1, gone, now) && ServerGone(k1, gone, pid)
    ensures ServerGone(k, gone, pid)
  {
    var d: nat :| d in gone && d < |k1.procs| && k1.procs[d].pid == pid;
    assert Fate(k, k1, gone, now, d);
  }

  lemma {:induction false} FateBoth(k: K, k1: K, k2: K, gone: set<nat>, now: int, j: nat)
    requires Fates(k, k1, gone, now) && Fates(k1, k2, gone, now) && j < MAX_PROCS
    ensures Fate(k, k2, gone, now, j)
  {
    hide HasMail, ServerGone, Gone;
    var q, r, p := k.procs[j], k1.procs[j], k2.procs[j];
    assert Fate(k, k1, gone, now, j) && Fate(k1, k2, gone, now, j);
    SameBoth(q, r, p);
    if Roused(k1, r, p, gone, now) && r.state == q.state {
      assert r.boxes.Get(REPLY).waiting == q.boxes.Get(REPLY).waiting;
      if HasMail(r, p) { MailAfter(q, r, p); }
      if ServerGone(k1, gone, r.server) { GoneBoth(k, k1, gone, now, r.server); }
    }
    if Roused(k, q, r, gone, now) && p.state == r.state && HasMail(q, r) { MailBoth(q, r, p); }
    StateBoth(k, k1, k2, gone, now, j);
  }

  lemma {:induction false} SameBoth(q: Proc, r: Proc, p: Proc)
    requires SameWait(q, r) && SameWait(r, p) && (r.state == PROC_FREE ==> p.state == PROC_FREE)
    ensures SameWait(q, p)
  {}

  lemma {:induction false} StateBoth(k: K, k1: K, k2: K, gone: set<nat>, now: int, j: nat)
    requires j < |k.procs| == |k1.procs| == |k2.procs| && Fate(k, k1, gone, now, j) && Fate(k1, k2, gone, now, j)
    ensures var q, p := k.procs[j], k2.procs[j];
      || p.state == q.state || (j in gone && q.state != PROC_FREE && Gone(p))
      || (Roused(k, q, k1.procs[j], gone, now) && p.state == k1.procs[j].state)
      || (Roused(k1, k1.procs[j], p, gone, now) && k1.procs[j].state == q.state)
  {
    hide HasMail, ServerGone;
  }

  lemma {:induction false} FatesBoth(k: K, k1: K, k2: K, gone: set<nat>, now: int)
    requires Fates(k, k1, gone, now) && Fates(k1, k2, gone, now)
    ensures Fates(k, k2, gone, now)
  {
    hide Fate;
    forall j: nat | j < MAX_PROCS ensures Fate(k, k2, gone, now, j) { FateBoth(k, k1, k2, gone, now, j); }
  }

  // ----- Step by step -----

  /** One process changes. */
  lemma {:induction false} OneFate(k: K, k': K, i: nat, gone: set<nat>, now: int)
    requires Shape(k) && Shape(k') && i < MAX_PROCS && k'.procs == k.procs[i := k'.procs[i]]
    requires Fate(k, k', gone, now, i)
    ensures Fates(k, k', gone, now)
  {}

  lemma {:induction false} DeliverFates(k: K, i: nat, t: MsgType, m: Message, gone: set<nat>, now: int)
    requires Shape(k) && i < MAX_PROCS && (k.procs[i].boxes.Get(t).waiting ==> k.procs[i].state == WAITING)
    ensures Fates(k, Deliver(k, i, t, m), gone, now)
  {
    hide WithMessage;
    var k', p := Deliver(k, i, t, m), k.procs[i];
    var p' := k'.procs[i];
    assert k'.procs == k.procs[i := p'];
    AddedGets(p, t, m);
    AddedMail(p, t, m);
    assert SameWait(p, p') by { DeliverOne(k, i, t, m); }
    assert SameRights(p, p') by { DeliverRights(k, i, t, m); }
    if p.boxes.Get(t).waiting {
      assert p'.boxes.Get(t).messages != [];
      assert HasMail(p, p');
    }
    OneFate(k, k', i, gone, now);
  }

  lemma AddedMail(p: Proc, t: MsgType, m: Message)
    ensures WithMessage(p, t, m).boxes.Get(t).messages != [] && WithMessage(p, t, m).state == p.state
    ensures forall u :: p.boxes.Get(u).messages != [] ==> WithMessage(p, t, m).boxes.Get(u).messages != []
  {}

  lemma DeliverRights(k: K, i: nat, t: MsgType, m: Message)
    requires Shape(k) && i < MAX_PROCS
    ensures SameRights(k.procs[i], Deliver(k, i, t, m).procs[i])
  {}

  lemma {:induction false} SendFates(k: K, src: nat, dst: nat, t: MsgType, c: Contents, off: set<nat>, dying: nat, gone: set<nat>, now: int)
    requires Mid(k, off, dying)
    ensures Fates(k, Send(k, src, dst, t, c), gone, now)
  {
    hide SlotsOk, PidsOk, CountsOk, QueuesOk, Fate, Deliver;
    if SendOk(k, src, dst, t) {
      assert ProcOk(k.procs[Find(k.procs, dst, 0)]);
      DeliverFates(k, Find(k.procs, dst, 0), t, Message(src, c), gone, now);
    } else {
      FatesSelf(k, gone, now);
    }
  }

  lemma {:induction false} WakeupFates(k: K, i: nat, gone: set<nat>, now: int)
    requires Shape(k) && i < MAX_PROCS && k.procs[i].state == WAITING
    requires (AwaitsReply(k.procs[i]) && ServerGone(k, gone, k.procs[i].server)) || (k.procs[i].alarm && k.procs[i].exptime <= now)
    ensures Fates(k, Wakeup(k, i), gone, now)
  {
    var k' := Wakeup(k, i);
    assert k'.procs == k.procs[i := k'.procs[i]];
    OneFate(k, k', i, gone, now);
  }

  lemma {:induction false} WakeClientsFates(k: K, pid: nat, i: nat, gone: set<nat>, now: int)
    requires Shape(k) && i <= MAX_PROCS && ServerGone(k, gone, pid)
    ensures Fates(k, WakeClients(k, pid, i), gone, now)
    decreases MAX_PROCS - i
  {
    hide Fate, Wakeup;
    if i == MAX_PROCS {
      FatesSelf(k, gone, now);
    } else {
      var k1 := if WaitsFor(k.procs[i], pid) then Wakeup(k, i) else k;
      if WaitsFor(k.procs[i], pid) { WakeupFates(k, i, gone, now); } else { FatesSelf(k, gone, now); }
      GoneAfter(k, k1, gone, now, pid);
      WakeClientsFates(k1, pid, i + 1, gone, now);
      FatesBoth(k, k1, WakeClients(k, pid, i), gone, now);
    }
  }

  lemma {:induction false} GoneAfter(k: K, k1: K, gone: set<nat>, now: int, pid: nat)
    requires Fates(k, k1, gone, now) && ServerGone(k, gone, pid)
    ensures ServerGone(k1, gone, pid)
  {
    var d: nat :| d in gone && d < |k.procs| && k.procs[d].pid == pid;
    assert Fate(k, k1, gone, now, d);
  }

  lemma {:induction false} DeadFates(k: K, i: nat, gone: set<nat>, now: int)
    requires Shape(k) && i < MAX_PROCS && i in gone && k.procs[i].state != PROC_FREE
    ensures Fates(k, Dead(k, i), gone, now)
  {
    var k' := Dead(k, i);
    assert k'.procs == k.procs[i := k'.procs[i]];
    OneFate(k, k', i, gone, now);
  }

  lemma {:induction false} ReleaseFates(k: K, i: nat, gone: set<nat>, now: int)
    requires Shape(k) && i < MAX_PROCS && i in gone && k.procs[i].state != PROC_FREE
    ensures Fates(k, Release(k, i), gone, now)
  {
    var k' := Release(k, i);
    assert k'.procs == k.procs[i := k'.procs[i]];
    OneFate(k, k', i, gone, now);
  }

  lemma {:induction false} TermFates(k: K, i: nat, status: int, off: set<nat>, gone: set<nat>, now: int)
    requires Mid(k, off, 0) && i < MAX_PROCS && i in gone && k.procs[i].state != PROC_FREE
    ensures Fates(k, Term(k, i, status), gone, now)
  {
    hide SlotsOk, PidsOk, CountsOk, QueuesOk, MailOk, Send, WakeClients, Dead, Fate;
    var p := k.procs[i];
    if p.state == ZOMBIE {
      FatesSelf(k, gone, now);
    } else {
      var k1, off1 := Dead(k, i), OffAfter(k, i, off);
      DieKeeps(k, i, off);
      DeadFates(k, i, gone, now);
      var o := Find(k1.procs, p.owner, 0);
      var k2 := if o == MAX_PROCS then k1 else Send(k1, p.pid, k1.procs[o].pid, EVENT, Died(p.pid, status));
      if o == MAX_PROCS { FatesSelf(k1, gone, now); } else { SendFates(k1, p.pid, k1.procs[o].pid, EVENT, Died(p.pid, status), off1, p.pid, gone, now); }
      FatesBoth(k, k1, k2, gone, now);
      assert ServerGone(k, gone, p.pid);
      GoneAfter(k, k2, gone, now, p.pid);
      WakeClientsFates(k2, p.pid, 0, gone, now);
      FatesBoth(k, k2, Term(k, i, status), gone, now);
    }
  }

  // ----- proc_zap and proc_kill -----

  /** Without the right, nothing happens. */
  lemma {:induction false} ZapRefused(k: K, killer: nat, i: nat, status: int)
    requires Shape(k) && i < MAX_PROCS && Refused(k, killer, i)
    ensures Zap(k, killer, i, status) == k
  {}

  /** With it, process i is dead afterwards, and nobody else dies. */
  lemma {:induction false} ZapFates(k: K, killer: nat, i: nat, status: int, now: int)
    requires Mid(k, {k.current}, 0) && i < MAX_PROCS && k.procs[i].state != PROC_FREE
    ensures !Refused(k, killer, i) ==> Fates(k, Zap(k, killer, i, status), {i}, now) && Gone(Zap(k, killer, i, status).procs[i])
  {
    hide SlotsOk, PidsOk, CountsOk, QueuesOk, MailOk, Term, Fate, Release;
    if !Refused(k, killer, i) {
      if IsLive(k.procs[i]) {
        var k1 := Term(k, i, status);
        TermFates(k, i, status, {k.current}, {i}, now);
        TermKeeps(k, i, status, {k.current});
        ReleaseFates(k1, i, {i}, now);
        ReleaseGone(k1, i);
        FatesBoth(k, k1, Release(k1, i), {i}, now);
      } else {
        FatesSelf(k, {i}, now);
      }
    }
  }

  lemma ReleaseGone(k: K, i: nat)
    requires Shape(k) && i < MAX_PROCS
    ensures Gone(Release(k, i).procs[i])
  {}

  /** The processes from slot i on that a kill of all interruptable ones is meant for */
  ghost predicate IsMeant(k: K, killer: nat, i: nat, j: nat) {
    && Shape(k) && i <= j < MAX_PROCS && k.procs[j].state != PROC_FREE && k.procs[j].interruptable && !Refused(k, killer, j)
  }

  ghost function Meant(k: K, killer: nat, i: nat): set<nat> {
    set j: nat | j < MAX_PROCS && IsMeant(k, killer, i, j)
  }

  /** proc_kill for pid 0 kills exactly those that are interruptable and that the killer, by its user, may kill. */
  lemma {:induction false} ZapAllFates(k: K, killer: nat, status: int, i: nat, now: int)
    requires Mid(k, {k.current}, 0) && i <= MAX_PROCS
    ensures Fates(k, ZapAll(k, killer, status, i), Meant(k, killer, i), now)
    ensures forall j: nat :: j in Meant(k, killer, i) ==> Gone(ZapAll(k, killer, status, i).procs[j])
    decreases MAX_PROCS - i
  {
    hide SlotsOk, PidsOk, CountsOk, QueuesOk, MailOk, Fate, Zap;
    var gone := Meant(k, killer, i);
    if i == MAX_PROCS {
      FatesSelf(k, gone, now);
    } else if k.procs[i].state != PROC_FREE && k.procs[i].interruptable {
      var k1 := Zap(k, killer, i, status);
      ZapKeeps(k, killer, i, status);
      if Refused(k, killer, i) {
        ZapRefused(k, killer, i, status);
        FatesSelf(k, gone, now);
      } else {
        ZapFates(k, killer, i, status, now);
        FatesMore(k, k1, {i}, gone, now);
      }
      ZapAllFates(k1, killer, status, i + 1, now);
      MeantAfter(k, k1, killer, i, now);
      FatesMore(k1, ZapAll(k1, killer, status, i + 1), Meant(k1, killer, i + 1), gone, now);
      FatesBoth(k, k1, ZapAll(k, killer, status, i), gone, now);
      StaysGone(k1, killer, status, i + 1);
    } else {
      ZapAllFates(k, killer, status, i + 1, now);
      assert Meant(k, killer, i + 1) == gone;
    }
  }

  lemma {:induction false} StaysGone(k: K, killer: nat, status: int, i: nat)
    requires Shape(k) && i <= MAX_PROCS
    ensures forall j: nat :: j < MAX_PROCS && Gone(k.procs[j]) ==> Gone(ZapAll(k, killer, status, i).procs[j])
  {
    ZapAllDead(k, killer, status, i);
  }

  lemma {:induction false} MeantAfter(k: K, k1: K, killer: nat, i: nat, now: int)
    requires Fates(k, k1, Meant(k, killer, i), now) && i < MAX_PROCS
    ensures Meant(k1, killer, i + 1) <= Meant(k, killer, i)
    ensures forall j: nat :: j in Meant(k, killer, i) && j != i ==> j in Meant(k1, killer, i + 1) || Gone(k1.procs[j])
  {
    forall j: nat | j < MAX_PROCS ensures SameRights(k.procs[j], k1.procs[j]) && (k1.procs[j].state != PROC_FREE ==> k.procs[j].state != PROC_FREE) {
      assert Fate(k, k1, Meant(k, killer, i), now, j);
    }
    forall j: nat | j in Meant(k1, killer, i + 1) ensures j in Meant(k, killer, i) {
      assert IsMeant(k1, killer, i + 1, j);
      assert IsMeant(k, killer, i, j);
    }
    forall j: nat | j in Meant(k, killer, i) && j != i ensures j in Meant(k1, killer, i + 1) || Gone(k1.procs[j]) {
      assert IsMeant(k, killer, i, j);
      assert k1.procs[j].state != PROC_FREE ==> IsMeant(k1, killer, i + 1, j);
    }
  }

  /** The slot of the process with this pid */
  ghost predicate IsAt(k: K, pid: nat, i: nat) {
    i < |k.procs| && k.procs[i].state != PROC_FREE && k.procs[i].pid == pid
  }

  lemma {:induction false} FindIs(k: K, pid: nat, i: nat)
    requires Inv(k) && IsAt(k, pid, i)
    ensures Find(k.procs, pid, 0) == i
  {
    hide SlotsOk, CountsOk, QueuesOk, MailOk;
  }

  /** A time before all others: proc_kill wakes up nobody because of the time. */
  const NEVER: int := -1

  /** proc_kill of one process, by the user of the killer: refused, it changes nothing (but gives up the processor if the
      victim is dead already); granted, the victim is dead, and nobody else dies. */
  lemma {:induction false} KillMeans(k: K, killer: nat, pid: nat, status: int, a: nat, v: nat)
    requires Inv(k) && pid != 0 && IsAt(k, killer, a) && IsAt(k, pid, v)
    ensures var k' := Kill(k, killer, pid, status);
      if k.procs[a].uid != 0 && k.procs[a].uid != k.procs[v].uid then
        k' == k.(yielding := k.yielding || k.procs[v].state == ZOMBIE)
      else Fates(k, k', {v}, NEVER) && Gone(k'.procs[v])
  {
    hide Inv, Zap, Fate;
    FindIs(k, killer, a);
    FindIs(k, pid, v);
    InvShape(k);
    ZapRefusedOrNot(k, a, v, status);
    if !Refused(k, a, v) { SameProcs(k, Zap(k, a, v, status), Kill(k, killer, pid, status), {v}, NEVER); }
  }

  lemma ZapRefusedOrNot(k: K, a: nat, v: nat, status: int)
    requires Inv(k) && a < MAX_PROCS && v < MAX_PROCS && k.procs[v].state != PROC_FREE
    ensures Shape(k) && if Refused(k, a, v) then Zap(k, a, v, status) == k
                        else Fates(k, Zap(k, a, v, status), {v}, NEVER) && Gone(Zap(k, a, v, status).procs[v])
  {
    hide Mid, Fate, Zap;
    InvShape(k);
    if Refused(k, a, v) { ZapRefused(k, a, v, status); } else { ZapFates(k, a, v, status, NEVER); }
  }

  lemma InvShape(k: K)
    requires Inv(k)
    ensures Shape(k) && Mid(k, {k.current}, 0)
  {}

  lemma SameProcs(k: K, k1: K, k2: K, gone: set<nat>, now: int)
    requires Fates(k, k1, gone, now) && Shape(k2) && k2.procs == k1.procs
    ensures Fates(k, k2, gone, now)
  {
    forall j: nat | j < MAX_PROCS ensures Fate(k, k2, gone, now, j) { assert Fate(k, k1, gone, now, j); }
  }

  /** proc_kill of all interruptable processes: dead afterwards are those that were, and those that are interruptable and
      of the user of the killer, or all interruptable ones if that is user 0. */
  lemma {:induction false} KillAllMeans(k: K, killer: nat, status: int, a: nat)
    requires Inv(k) && IsAt(k, killer, a)
    ensures var k' := Kill(k, killer, 0, status);
      && Fates(k, k', Meant(k, a, 0), NEVER)
      && forall j: nat :: j < MAX_PROCS ==>
           (Gone(k'.procs[j]) <==>
              Gone(k.procs[j]) || (k.procs[j].interruptable && (k.procs[a].uid == 0 || k.procs[a].uid == k.procs[j].uid)))
  {
    hide Mid, ZapAll;
    FindIs(k, killer, a);
    InvShape(k);
    var k1, k' := ZapAll(k, a, status, 0), Kill(k, killer, 0, status);
    ZapAllFates(k, a, status, 0, NEVER);
    SameProcs(k, k1, k', Meant(k, a, 0), NEVER);
    forall j: nat | j < MAX_PROCS
      ensures Gone(k'.procs[j]) <==>
        Gone(k.procs[j]) || (k.procs[j].interruptable && (k.procs[a].uid == 0 || k.procs[a].uid == k.procs[j].uid))
    {
      assert Fate(k, k', Meant(k, a, 0), NEVER, j);
      if k.procs[j].state != PROC_FREE && k.procs[j].interruptable && !Refused(k, a, j) {
        assert IsMeant(k, a, 0, j);
        assert j in Meant(k, a, 0);
      }
      if j in Meant(k, a, 0) { assert IsMeant(k, a, 0, j); }
    }
  }

  /** Nobody is killed by, or on behalf of, a process that does not exist. */
  lemma {:induction false} KillNobody(k: K, killer: nat, pid: nat, status: int)
    requires Shape(k) && ((forall i: nat :: !IsAt(k, killer, i)) || (pid != 0 && forall i: nat :: !IsAt(k, pid, i)))
    ensures Kill(k, killer, pid, status) == k
  {
    var i, j := Find(k.procs, killer, 0), Find(k.procs, pid, 0);
    if i < MAX_PROCS { assert IsAt(k, killer, i); }
    if j < MAX_PROCS { assert IsAt(k, pid, j); }
  }

  // ----- Creation -----

  /** A process can be created exactly if the system is not shutting down, its owner is there, and a slot is free. */
  lemma {:induction false} CreateOkMeans(k: K, owner: nat)
    requires Inv(k)
    ensures CreateOk(k, owner) <==>
      !k.shutdown && (exists i: nat :: IsAt(k, owner, i)) && exists f: nat :: f < MAX_PROCS && k.procs[f].state == PROC_FREE
  {
    hide PidsOk, CountsOk, QueuesOk, MailOk;
    var i := Find(k.procs, owner, 0);
    if i < MAX_PROCS { assert IsAt(k, owner, i); }
    if k.free != [] { assert k.free[0] in k.free; }
  }

  /** Nobody but user 0 can create processes of other users; the new process has a pid of its own and no mail, runs at
      once, and nobody else changes. */
  lemma {:induction false} CreateMeans(k: K, owner: nat, uid: nat, o: nat)
    requires Inv(k) && Ready(k) && CreateOk(k, owner) && IsAt(k, owner, o)
    ensures var k', n := Create(k, owner, uid), k.free[0];
      && Shape(k') && n < MAX_PROCS && k.procs[n].state == PROC_FREE && k'.current == n && n != k.current
      && k'.procs[n].uid == (if k.procs[o].uid == 0 then uid else k.procs[o].uid)
      && k'.procs[n].owner == owner && k'.procs[n].pid == k.pidGen && k'.procs[n].state == RUNNABLE
      && !k'.procs[n].interruptable && k'.procs[n].priority == 0
      && (forall t :: k'.procs[n].boxes.Get(t) == Mbox(false, []))
      && (forall i: nat :: i < MAX_PROCS && i != n ==> k'.procs[i] == k.procs[i])
      && k'.runq == k.runq[k.procs[k.current].priority := k.runq[k.procs[k.current].priority] + [k.current]]
      && (forall i: nat :: i < MAX_PROCS && k.procs[i].state != PROC_FREE ==> k.procs[i].pid != k.pidGen)
  {
    hide CountsOk, QueuesOk, MailOk;
    FindIs(k, owner, o);
    assert k.free[0] in k.free;
  }
}
