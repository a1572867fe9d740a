/** What becomes of messages: in every run, each process receives those that were sent to it, in order. */
module KernelMail {
  import opened KernelState
  import opened KernelInv
  import opened KernelSteps

  // ----- Messages on their way -----

  /** A message of type t for process to */
  datatype Post = Post(to: nat, t: MsgType, m: Message)

  /** The messages of type t for process pid, in order */
  ghost function For(ps: seq<Post>, pid: nat, t: MsgType): seq<Message> {
    if ps == [] then []
    else For(ps[..|ps| - 1], pid, t) + if ps[|ps| - 1].to == pid && ps[|ps| - 1].t == t then [ps[|ps| - 1].m] else []
  }

  lemma {:induction false} ForBoth(a: seq<Post>, b: seq<Post>, pid: nat, t: MsgType)
    ensures For(a + b, pid, t) == For(a, pid, t) + For(b, pid, t)
  {
    if b == [] {
      assert a + b == a;
    } else {
      assert (a + b)[..|a + b| - 1] == a + b[..|b| - 1];
      ForBoth(a, b[..|b| - 1], pid, t);
    }
  }

  lemma ForOne(p: Post, pid: nat, t: MsgType)
    ensures For([p], pid, t) == if p.to == pid && p.t == t then [p.m] else []
  {
    assert [p][..0] == [];
  }

  /** Nothing for a process that is not named */
  lemma {:induction false} ForNone(ps: seq<Post>, pid: nat, t: MsgType)
    requires forall p :: p in ps ==> p.to != pid
    ensures For(ps, pid, t) == []
  {
    if ps != [] {
      assert ps[|ps| - 1] in ps;
      forall p | p in ps[..|ps| - 1] ensures p.to != pid { assert p in ps; }
      ForNone(ps[..|ps| - 1], pid, t);
    }
  }

  // ----- Who can be sent what -----

  /** A process with this pid is there and not dead; for a reply it waits for one from src. */
  ghost predicate Reachable(k: K, src: nat, dst: nat, t: MsgType) {
    exists i: nat :: i < |k.procs| && IsAddressee(k.procs[i], src, dst, t)
  }

  ghost predicate IsAddressee(p: Proc, src: nat, dst: nat, t: MsgType) {
    && p.pid == dst && p.state != PROC_FREE && p.state != ZOMBIE
    && (t == REPLY ==> p.state == WAITING && p.boxes.reply.waiting && p.server == src)
  }

  /** proc_send succeeds exactly then. */
  lemma {:induction false} SendOkMeans(k: K, src: nat, dst: nat, t: MsgType)
    requires Shape(k) && PidsOk(k)
    ensures SendOk(k, src, dst, t) <==> Reachable(k, src, dst, t)
    ensures SendOk(k, src, dst, t) ==> k.procs[Find(k.procs, dst, 0)].pid == dst && k.procs[Find(k.procs, dst, 0)].state != PROC_FREE
  {
    var i := Find(k.procs, dst, 0);
    if SendOk(k, src, dst, t) { assert IsAddressee(k.procs[i], src, dst, t); }
    if Reachable(k, src, dst, t) {
      var j: nat :| j < |k.procs| && IsAddressee(k.procs[j], src, dst, t);
      assert i == j;
    }
  }

  // ----- What a step does to the mailboxes -----

  /** The messages of process p are those of q with ps added. */
  ghost predicate Gets(q: Proc, p: Proc, ps: seq<Post>) {
    forall t :: p.boxes.Get(t).messages == q.boxes.Get(t).messages + For(ps, q.pid, t)
  }

  /** Whoever waits has waited before, for the same and until the same time. */
  ghost predicate WaitsAsBefore(q: Proc, p: Proc) {
    p.state == WAITING ==>
      && q.state == WAITING && p.server == q.server && p.alarm == q.alarm && p.exptime == q.exptime && p.point == q.point
      && forall t :: p.boxes.Get(t).waiting == q.boxes.Get(t).waiting
  }

  /** ps are the messages that were put into mailboxes; processes that are there were there before. */
  ghost predicate Mailed(k: K, k': K, ps: seq<Post>) {
    && |k'.procs| == |k.procs| && k'.pidGen == k.pidGen
    && (forall p :: p in ps ==> p.to < k.pidGen)
    && forall i: nat :: i < |k.procs| && k'.procs[i].state != PROC_FREE ==>
         && k.procs[i].state != PROC_FREE && k'.procs[i].pid == k.procs[i].pid
         && Gets(k.procs[i], k'.procs[i], ps) && WaitsAsBefore(k.procs[i], k'.procs[i])
  }

  /** Processes are queued behind those that are queued already. */
  ghost predicate Appends(k: K, k': K) {
    |k'.runq| == |k.runq| && forall l :: 0 <= l < |k.runq| ==> k.runq[l] <= k'.runq[l]
  }

  ghost predicate Carries(k: K, k': K, ps: seq<Post>) {
    Shape(k) && PidsOk(k) && Shape(k') && PidsOk(k') && Mailed(k, k', ps)
  }

  ghost predicate Passes(k: K, k': K, ps: seq<Post>) {
    Carries(k, k', ps) && Appends(k, k')
  }

  lemma {:induction false} GetsBoth(a: Proc, b: Proc, c: Proc, ps: seq<Post>, qs: seq<Post>)
    requires b.pid == a.pid && Gets(a, b, ps) && Gets(b, c, qs)
    ensures Gets(a, c, ps + qs)
  {
    forall t ensures c.boxes.Get(t).messages == a.boxes.Get(t).messages + For(ps + qs, a.pid, t) {
      ForBoth(ps, qs, a.pid, t);
    }
  }

  lemma {:induction false} PassesBoth(k: K, k1: K, k2: K, ps: seq<Post>, qs: seq<Post>)
    requires Passes(k, k1, ps) && Passes(k1, k2, qs)
    ensures Passes(k, k2, ps + qs)
  {
    hide Carries;
    CarriesBoth(k, k1, k2, ps, qs);
  }

  lemma {:induction false} CarriesBoth(k: K, k1: K, k2: K, ps: seq<Post>, qs: seq<Post>)
    requires Carries(k, k1, ps) && Carries(k1, k2, qs)
    ensures Carries(k, k2, ps + qs)
  {
    hide PidsOk, Gets;
    forall i: nat | i < |k.procs| && k2.procs[i].state != PROC_FREE
      ensures Gets(k.procs[i], k2.procs[i], ps + qs) && WaitsAsBefore(k.procs[i], k2.procs[i])
    {
      GetsBoth(k.procs[i], k1.procs[i], k2.procs[i], ps, qs);
    }
  }

  /** Nothing is put into any mailbox. */
  lemma {:induction false} Quiet(k: K, k': K)
    requires Shape(k) && PidsOk(k) && Shape(k') && k'.pidGen == k.pidGen && Appends(k, k')
    requires forall i: nat {:trigger k'.procs[i]} :: i < MAX_PROCS && k'.procs[i].state != PROC_FREE ==>
      && k.procs[i].state != PROC_FREE && k'.procs[i].pid == k.procs[i].pid && WaitsAsBefore(k.procs[i], k'.procs[i])
      && forall t :: k'.procs[i].boxes.Get(t).messages == k.procs[i].boxes.Get(t).messages
    ensures Passes(k, k', [])
  {
    forall i: nat | i < MAX_PROCS && k'.procs[i].state != PROC_FREE ensures Gets(k.procs[i], k'.procs[i], []) {}
  }

  /** One process changes, and gets the messages ps. */
  lemma {:induction false} OneChanged(k: K, k': K, i: nat, ps: seq<Post>)
    requires Shape(k) && PidsOk(k) && Shape(k') && k'.pidGen == k.pidGen && Appends(k, k')
    requires i < MAX_PROCS && k'.procs == k.procs[i := k'.procs[i]] && k.procs[i].state != PROC_FREE
    requires k'.procs[i].pid == k.procs[i].pid && Gets(k.procs[i], k'.procs[i], ps) && WaitsAsBefore(k.procs[i], k'.procs[i])
    requires forall p :: p in ps ==> p.to == k.procs[i].pid
    ensures Passes(k, k', ps)
  {
    forall j: nat | j < MAX_PROCS && k'.procs[j].state != PROC_FREE && j != i ensures Gets(k.procs[j], k'.procs[j], ps) {
      forall u ensures For(ps, k.procs[j].pid, u) == [] { ForNone(ps, k.procs[j].pid, u); }
    }
  }

  lemma {:induction false} AddedGets(p: Proc, t: MsgType, m: Message)
    ensures Gets(p, WithMessage(p, t, m), [Post(p.pid, t, m)])
    ensures forall u :: u != t ==> WithMessage(p, t, m).boxes.Get(u) == p.boxes.Get(u)
    ensures !WithMessage(p, t, m).boxes.Get(t).waiting
  {
    forall u ensures WithMessage(p, t, m).boxes.Get(u).messages == p.boxes.Get(u).messages + For([Post(p.pid, t, m)], p.pid, u) {
      ForOne(Post(p.pid, t, m), p.pid, u);
    }
  }

  lemma SameGets(p: Proc, q: Proc, q': Proc, ps: seq<Post>)
    requires Gets(p, q, ps) && q'.boxes == q.boxes
    ensures Gets(p, q', ps)
  {}

  lemma ToRunqAppends(k: K, i: nat)
    requires Shape(k) && i < MAX_PROCS
    ensures Shape(ToRunq(k, i)) && Appends(k, ToRunq(k, i)) && ToRunq(k, i).procs == k.procs && ToRunq(k, i).pidGen == k.pidGen
  {}

  /** The message goes into the mailbox of process i. */
  lemma {:induction false} DeliverPasses(k: K, i: nat, t: MsgType, m: Message)
    requires Shape(k) && PidsOk(k) && i < MAX_PROCS && k.procs[i].state != PROC_FREE
    ensures Passes(k, Deliver(k, i, t, m), [Post(k.procs[i].pid, t, m)])
  {
    hide PidsOk, WithMessage, For, Gets;
    var p, k' := k.procs[i], Deliver(k, i, t, m);
    AddedGets(p, t, m);
    SameGets(p, WithMessage(p, t, m), k'.procs[i], [Post(p.pid, t, m)]) by { DeliverBoxes(k, i, t, m); }
    DeliverOne(k, i, t, m);
    OneChanged(k, k', i, [Post(p.pid, t, m)]);
  }

  lemma {:induction false} DeliverBoxes(k: K, i: nat, t: MsgType, m: Message)
    requires Shape(k) && i < MAX_PROCS
    ensures Deliver(k, i, t, m).procs[i].boxes == WithMessage(k.procs[i], t, m).boxes
  {}

  lemma {:induction false} DeliverOne(k: K, i: nat, t: MsgType, m: Message)
    requires Shape(k) && i < MAX_PROCS
    ensures var k' := Deliver(k, i, t, m);
      && k'.procs == k.procs[i := k'.procs[i]] && k'.pidGen == k.pidGen && Appends(k, k')
      && k'.procs[i].pid == k.procs[i].pid && WaitsAsBefore(k.procs[i], k'.procs[i])
  {
    AddedGets(k.procs[i], t, m);
  }

  /** What a call of proc_send puts into mailboxes */
  ghost function Sent(k: K, src: nat, dst: nat, t: MsgType, c: Contents): seq<Post> {
    if Reachable(k, src, dst, t) then [Post(dst, t, Message(src, c))] else []
  }

  lemma {:induction false} SendPasses(k: K, src: nat, dst: nat, t: MsgType, c: Contents)
    requires Shape(k) && PidsOk(k)
    ensures Passes(k, Send(k, src, dst, t, c), Sent(k, src, dst, t, c))
  {
    hide PidsOk, Deliver, Reachable;
    SendOkMeans(k, src, dst, t);
    if SendOk(k, src, dst, t) {
      DeliverPasses(k, Find(k.procs, dst, 0), t, Message(src, c));
    } else {
      Quiet(k, k);
    }
  }

  lemma NoMore(ps: seq<Post>)
    ensures ps + [] == ps && [] + ps == ps
  {}

  lemma {:induction false} WakeupPasses(k: K, i: nat)
    requires Shape(k) && PidsOk(k) && i < MAX_PROCS && k.procs[i].state != PROC_FREE
    ensures Passes(k, Wakeup(k, i), [])
  {
    hide PidsOk;
    var k' := Wakeup(k, i);
    assert k'.procs == k.procs[i := k'.procs[i]];
    Quiet(k, k');
  }

  lemma {:induction false} WakeClientsPasses(k: K, pid: nat, i: nat)
    requires Shape(k) && PidsOk(k) && i <= MAX_PROCS
    ensures Passes(k, WakeClients(k, pid, i), [])
    decreases MAX_PROCS - i
  {
    hide PidsOk, Wakeup, Mailed, Appends;
    if i == MAX_PROCS {
      Quiet(k, k) by { AppendsSelf(k); }
    } else {
      var k1 := if WaitsFor(k.procs[i], pid) then Wakeup(k, i) else k;
      if WaitsFor(k.procs[i], pid) { WakeupPasses(k, i); } else { Quiet(k, k) by { AppendsSelf(k); } }
      WakeClientsPasses(k1, pid, i + 1);
      NoMore([]);
      PassesBoth(k, k1, WakeClients(k, pid, i), [], []);
    }
  }

  lemma AppendsSelf(k: K)
    ensures Appends(k, k)
  {}

  // ----- Death notices -----

  /** The owner of process i, another process, is there and not dead. */
  ghost predicate OwnerThere(k: K, i: nat)
    requires i < |k.procs|
  {
    exists o: nat :: o < |k.procs| && o != i && k.procs[o].pid == k.procs[i].owner && k.procs[o].state != PROC_FREE && k.procs[o].state != ZOMBIE
  }

  /** The message about the death of process i, which was not dead yet */
  ghost function Notice(k: K, i: nat, status: int): seq<Post>
    requires i < |k.procs|
  {
    var p := k.procs[i];
    if p.state != ZOMBIE && OwnerThere(k, i) then [Post(p.owner, EVENT, Message(p.pid, Died(p.pid, status)))] else []
  }

  lemma {:induction false} DeadPasses(k: K, i: nat)
    requires Shape(k) && PidsOk(k) && i < MAX_PROCS && k.procs[i].state != PROC_FREE
    ensures Passes(k, Dead(k, i), [])
    ensures forall src: nat :: Reachable(Dead(k, i), src, k.procs[i].owner, EVENT) <==> OwnerThere(k, i)
  {
    hide PidsOk;
    var k', p := Dead(k, i), k.procs[i];
    assert k'.procs == k.procs[i := k'.procs[i]];
    Quiet(k, k');
    forall src: nat ensures Reachable(k', src, p.owner, EVENT) <==> OwnerThere(k, i) {
      if Reachable(k', src, p.owner, EVENT) {
        var o: nat :| o < MAX_PROCS && IsAddressee(k'.procs[o], src, p.owner, EVENT);
        assert o != i && k.procs[o] == k'.procs[o];
      }
      if OwnerThere(k, i) {
        var o: nat :| o < MAX_PROCS && o != i && k.procs[o].pid == p.owner && k.procs[o].state != PROC_FREE && k.procs[o].state != ZOMBIE;
        assert IsAddressee(k'.procs[o], src, p.owner, EVENT);
      }
    }
  }

  /** proc_term sends the death notice, if there is somebody to get it, and nothing else. */
  lemma {:induction false} TermPasses(k: K, i: nat, status: int)
    requires Shape(k) && PidsOk(k) && i < MAX_PROCS && k.procs[i].state != PROC_FREE
    ensures Passes(k, Term(k, i, status), Notice(k, i, status))
  {
    hide PidsOk, Mailed, Appends, Send, WakeClients, Reachable, OwnerThere, Dead;
    var p := k.procs[i];
    if p.state == ZOMBIE {
      Quiet(k, k) by { AppendsSelf(k); }
    } else {
      var k1 := Dead(k, i);
      DeadPasses(k, i);
      var o := Find(k1.procs, p.owner, 0);
      var c := Died(p.pid, status);
      var k2 := if o == MAX_PROCS then k1 else Send(k1, p.pid, k1.procs[o].pid, EVENT, c);
      SendPasses(k1, p.pid, p.owner, EVENT, c);
      if o == MAX_PROCS { NobodyThere(k1, p.pid, p.owner, EVENT, c); }
      assert Passes(k1, k2, Notice(k, i, status));
      PassesBoth(k, k1, k2, [], Notice(k, i, status));
      WakeClientsPasses(k2, p.pid, 0);
      NoMore(Notice(k, i, status));
      PassesBoth(k, k2, Term(k, i, status), Notice(k, i, status), []);
    }
  }

  lemma NobodyThere(k: K, src: nat, dst: nat, t: MsgType, c: Contents)
    requires Shape(k) && Find(k.procs, dst, 0) == MAX_PROCS
    ensures Send(k, src, dst, t, c) == k
  {}

  lemma {:induction false} ReleasePasses(k: K, i: nat)
    requires Shape(k) && PidsOk(k) && i < MAX_PROCS
    ensures Passes(k, Release(k, i), [])
  {
    hide PidsOk;
    var k' := Release(k, i);
    assert k'.procs == k.procs[i := k'.procs[i]];
    assert PidsOk(k') by { ReleasePids(k, i); }
    Quiet(k, k');
  }

  lemma ReleasePids(k: K, i: nat)
    requires Shape(k) && PidsOk(k) && i < MAX_PROCS
    ensures Shape(Release(k, i)) && PidsOk(Release(k, i))
  {}

  // ----- Killing -----

  /** The killer, by its user, has no right to kill process i. */
  ghost predicate Refused(k: K, killer: nat, i: nat)
    requires i < |k.procs|
  {
    killer < |k.procs| && k.procs[killer].uid != 0 && k.procs[killer].uid != k.procs[i].uid
  }

  ghost function ZapNotice(k: K, killer: nat, i: nat, status: int): seq<Post>
    requires i < |k.procs|
  {
    if Refused(k, killer, i) || !IsLive(k.procs[i]) then [] else Notice(k, i, status)
  }

  lemma {:induction false} ZapPasses(k: K, killer: nat, i: nat, status: int)
    requires Shape(k) && PidsOk(k) && i < MAX_PROCS
    ensures Passes(k, Zap(k, killer, i, status), ZapNotice(k, killer, i, status))
  {
    hide PidsOk, Mailed, Appends, Term, OwnerThere, Release;
    if Refused(k, killer, i) || !IsLive(k.procs[i]) {
      Quiet(k, k) by { AppendsSelf(k); }
    } else {
      TermPasses(k, i, status);
      var k1 := Term(k, i, status);
      ReleasePasses(k1, i);
      NoMore(Notice(k, i, status));
      PassesBoth(k, k1, Release(k1, i), Notice(k, i, status), []);
    }
  }

  /** The death notices of proc_kill for pid 0, in the order of the slots */
  ghost function ZapAllNotices(k: K, killer: nat, status: int, i: nat): seq<Post>
    requires Shape(k) && i <= MAX_PROCS
    decreases MAX_PROCS - i
  {
    if i == MAX_PROCS then []
    else if k.procs[i].interruptable then
      ZapNotice(k, killer, i, status) + ZapAllNotices(Zap(k, killer, i, status), killer, status, i + 1)
    else ZapAllNotices(k, killer, status, i + 1)
  }

  lemma {:induction false} ZapAllPasses(k: K, killer: nat, status: int, i: nat)
    requires Shape(k) && PidsOk(k) && i <= MAX_PROCS
    ensures Passes(k, ZapAll(k, killer, status, i), ZapAllNotices(k, killer, status, i))
    decreases MAX_PROCS - i
  {
    hide PidsOk, Mailed, Appends, Zap, ZapNotice;
    if i == MAX_PROCS {
      Quiet(k, k) by { AppendsSelf(k); }
    } else if k.procs[i].interruptable {
      var k1 := Zap(k, killer, i, status);
      if k.procs[i].state == PROC_FREE { ZapFree(k, killer, i, status); }
      ZapPasses(k, killer, i, status);
      ZapAllPasses(k1, killer, status, i + 1);
      PassesBoth(k, k1, ZapAll(k, killer, status, i), ZapNotice(k, killer, i, status), ZapAllNotices(k1, killer, status, i + 1));
    } else {
      ZapAllPasses(k, killer, status, i + 1);
    }
  }

  lemma ZapFree(k: K, killer: nat, i: nat, status: int)
    requires Shape(k) && i < MAX_PROCS && k.procs[i].state == PROC_FREE
    ensures Zap(k, killer, i, status) == k
  {}

  // ----- Rounds -----

  /** The death notices of the loop of proc_yield over all processes, when the system is shutting down */
  ghost function TickNotices(k: K, now: nat, i: nat): seq<Post>
    requires Shape(k) && i <= MAX_PROCS
    decreases MAX_PROCS - i
  {
    if i == MAX_PROCS then []
    else if k.shutdown then
      ZapNotice(k, MAX_PROCS, i, STAT_SHUTDOWN) + TickNotices(Zap(k, MAX_PROCS, i, STAT_SHUTDOWN), now, i + 1)
    else []
  }

  lemma {:induction false} TickPasses(k: K, now: nat, i: nat)
    requires Shape(k) && PidsOk(k) && i <= MAX_PROCS
    ensures Passes(k, Tick(k, now, i), TickNotices(k, now, i))
    decreases MAX_PROCS - i
  {
    hide PidsOk, Mailed, Appends, Zap, ZapNotice, Wakeup;
    if i == MAX_PROCS {
      Quiet(k, k) by { AppendsSelf(k); }
    } else if k.shutdown {
      var k1 := Zap(k, MAX_PROCS, i, STAT_SHUTDOWN);
      if k.procs[i].state == PROC_FREE { ZapFree(k, MAX_PROCS, i, STAT_SHUTDOWN); }
      ZapPasses(k, MAX_PROCS, i, STAT_SHUTDOWN);
      TickPasses(k1, now, i + 1);
      PassesBoth(k, k1, Tick(k, now, i), ZapNotice(k, MAX_PROCS, i, STAT_SHUTDOWN), TickNotices(k1, now, i + 1));
    } else {
      var p := k.procs[i];
      var wakes := p.state == WAITING && p.alarm && p.exptime <= now;
      var k1 := if wakes then Wakeup(k, i) else k;
      if wakes { WakeupPasses(k, i); } else { Quiet(k, k) by { AppendsSelf(k); } }
      assert !k1.shutdown by { WakeupFlag(k, i); }
      TickPasses(k1, now, i + 1);
      NoMore([]);
      QuietTick(k1, now, i + 1);
      PassesBoth(k, k1, Tick(k, now, i), [], []);
    }
  }

  lemma WakeupFlag(k: K, i: nat)
    requires Shape(k) && i < MAX_PROCS
    ensures Wakeup(k, i).shutdown == k.shutdown
  {}

  lemma QuietTick(k: K, now: nat, i: nat)
    requires Shape(k) && i <= MAX_PROCS && !k.shutdown
    ensures TickNotices(k, now, i) == []
  {}

  lemma {:induction false} PopCarries(k: K, level: nat)
    requires Shape(k) && PidsOk(k) && level < MAX_PRIORITY && k.runq[level] != []
    ensures Carries(k, Pop(k, level), [])
  {
    var k' := Pop(k, level);
    Quiet(k, k'.(runq := k.runq));
  }

  lemma {:induction false} SelectCarries(k: K, level: nat)
    requires QueueRange(k) && PidsOk(k) && level <= MAX_PRIORITY
    ensures Carries(k, Select(k, level).k, [])
    decreases MAX_PRIORITY - level, if level < MAX_PRIORITY then |k.runq[level]| else 0
  {
    hide PidsOk, Mailed, Release, Pop;
    if level == MAX_PRIORITY {
      Quiet(k, k);
    } else if k.runq[level] == [] {
      SelectCarries(k, level + 1);
    } else {
      var i, k1 := k.runq[level][0], Pop(k, level);
      PopCarries(k, level);
      if k.procs[i].state != RUNNABLE {
        PopShrinks(k, level, i);
        ReleasePasses(k1, i);
        SelectCarries(Release(k1, i), level);
        NoMore([]);
        CarriesBoth(k, k1, Release(k1, i), [], []);
        CarriesBoth(k, Release(k1, i), Select(k, level).k, [], []);
      }
    }
  }

  lemma PopShrinks(k: K, level: nat, i: nat)
    requires QueueRange(k) && level < MAX_PRIORITY && k.runq[level] != [] && i < MAX_PROCS
    ensures var k' := Release(Pop(k, level), i); QueueRange(k') && |k'.runq[level]| < |k.runq[level]|
  {
    var k' := Release(Pop(k, level), i);
    forall l, a | 0 <= l < MAX_PRIORITY && 0 <= a < |k'.runq[l]| ensures k'.runq[l][a] < MAX_PROCS {
      assert k'.runq[l][a] == k.runq[l][if l == level then a + 1 else a];
    }
  }

  lemma {:induction false} SwitchCarries(k: K, n: nat)
    requires Shape(k) && PidsOk(k) && n < MAX_PROCS
    ensures Carries(k, Switch(k, n), [])
  {
    hide PidsOk;
    var k', c := Switch(k, n), k.current;
    if k.procs[c].state == ZOMBIE {
      ReleasePasses(k, c);
      OtherFlags(Release(k, c), k');
      NoMore([]);
      CarriesBoth(k, Release(k, c), k', [], []);
    } else {
      OtherFlags(k, k');
    }
  }

  /** Only queues and flags change. */
  lemma {:induction false} OtherFlags(k: K, k': K)
    requires Shape(k) && PidsOk(k) && Shape(k') && k'.procs == k.procs && k'.pidGen == k.pidGen
    ensures Carries(k, k', [])
  {
    Quiet(k, k'.(runq := k.runq));
  }

  lemma {:induction false} RoundCarries(k: K, now: nat)
    requires Shape(k) && PidsOk(k)
    ensures Carries(k, Round(k, now).0, if QueueRange(Tick(k, now, 0)) then TickNotices(k, now, 0) else [])
  {
    hide PidsOk, Mailed, Tick, Select, Switch, QueueRange;
    var t := Tick(k, now, 0);
    TickPasses(k, now, 0);
    if QueueRange(t) {
      var c, ps := Select(t, 0), TickNotices(k, now, 0);
      SelectCarries(t, 0);
      var k' := Round(k, now).0;
      if c.next < MAX_PROCS { SwitchCarries(c.k, c.next); } else { OtherFlags(c.k, k'); }
      NoMore(ps);
      CarriesBoth(k, t, c.k, ps, []);
      CarriesBoth(k, c.k, k', ps, []);
    } else {
      OtherFlags(k, k);
    }
  }

  // ----- One step -----

  /** The messages that a step puts into mailboxes, in order */
  ghost function Posted(k: K, s: Step): seq<Post>
    requires Enabled(k, s)
  {
    var me := k.procs[k.current].pid;
    match s
    case SysSend(dst, t, c) => Sent(k, me, dst, t, c)
    case SysRpc(pid, c) => if pid == me then [] else Sent(k, me, pid, REQUEST, c)
    case Interrupt(src, dst, t, c) => Sent(k, src, dst, t, c)
    case SysExit(status) => Notice(k, k.current, status)
    case KillProc(killer, pid, status) =>
      var i, j := Find(k.procs, killer, 0), Find(k.procs, pid, 0);
      if i == MAX_PROCS then [] else if pid == 0 then ZapAllNotices(k, i, status, 0)
      else if j == MAX_PROCS then [] else ZapNotice(k, i, j, status)
    case NextRound(now) => if QueueRange(Tick(k, now, 0)) then TickNotices(k, now, 0) else []
    case _ => []
  }

  /** The message that a step gives to the current process, if it is the end of a proc_recv */
  ghost function Taken(k: K, s: Step): seq<Post>
    requires Enabled(k, s)
  {
    if s.Resume? && RecvFinish(k).1.Received? then
      [Post(k.procs[k.current].pid, k.procs[k.current].point.t, RecvFinish(k).1.m)]
    else []
  }

  ghost predicate IsThere(k: K, pid: nat) {
    exists i: nat :: i < |k.procs| && k.procs[i].state != PROC_FREE && k.procs[i].pid == pid
  }

  /** What is taken and what is left is what there was and what came. */
  ghost predicate Kept(q: Proc, p: Proc, ps: seq<Post>, tk: seq<Post>) {
    forall t :: For(tk, q.pid, t) + p.boxes.Get(t).messages == q.boxes.Get(t).messages + For(ps, q.pid, t)
  }

  /** A new process, with a new pid and no messages */
  ghost predicate IsNew(p: Proc, pidGen: nat) {
    p.pid >= pidGen && forall t :: p.boxes.Get(t).messages == []
  }

  ghost predicate StepMail(k: K, k': K, ps: seq<Post>, tk: seq<Post>) {
    && |k'.procs| == |k.procs| && k.pidGen <= k'.pidGen
    && (forall p :: p in ps ==> p.to < k.pidGen)
    && (forall p :: p in tk ==> p.to < k.pidGen && IsThere(k', p.to))
    && forall i: nat :: i < |k.procs| && k'.procs[i].state != PROC_FREE ==>
         IsNew(k'.procs[i], k.pidGen)
         || (k.procs[i].state != PROC_FREE && k'.procs[i].pid == k.procs[i].pid && Kept(k.procs[i], k'.procs[i], ps, tk))
  }

  ghost predicate SameMail(k: K, k': K) {
    && |k'.procs| == |k.procs| && k'.pidGen == k.pidGen
    && forall i: nat :: i < |k.procs| ==>
         && (k'.procs[i].state == PROC_FREE <==> k.procs[i].state == PROC_FREE) && k'.procs[i].pid == k.procs[i].pid
         && forall t :: k'.procs[i].boxes.Get(t).messages == k.procs[i].boxes.Get(t).messages
  }

  lemma {:induction false} CarriesStep(k: K, k1: K, k': K, ps: seq<Post>)
    requires Carries(k, k1, ps) && SameMail(k1, k')
    ensures StepMail(k, k', ps, [])
  {
    forall i: nat | i < |k.procs| && k'.procs[i].state != PROC_FREE ensures Kept(k.procs[i], k'.procs[i], ps, []) {
      assert Gets(k.procs[i], k1.procs[i], ps);
    }
  }

  lemma {:induction false} RecvStartMail(k: K, t: MsgType, maxTime: nat, now: nat)
    requires Ready(k)
    ensures SameMail(k, RecvStart(k, t, maxTime, now))
  {
    var k' := RecvStart(k, t, maxTime, now);
    assert k'.procs == k.procs[k.current := k'.procs[k.current]];
  }

  lemma {:induction false} RpcMail(k: K, pid: nat, c: Contents)
    requires Ready(k) && PidsOk(k)
    ensures StepMail(k, Rpc(k, pid, c), Posted(k, SysRpc(pid, c)), [])
  {
    hide PidsOk, Send, Reachable, RecvStart, Carries, SendOk;
    var me := k.procs[k.current].pid;
    SendPasses(k, me, pid, REQUEST, c);
    SendOkMeans(k, me, pid, REQUEST);
    if RpcOk(k, pid) {
      var k1, k2 := Send(k, me, pid, REQUEST, c), RpcSend(k, pid, c);
      assert Shape(k1) && SameMail(k1, k2) by { ServerMail(k, pid, c); }
      if Ready(k2) {
        RecvStartMail(k2, REPLY, 0, 0);
        SameTwice(k1, k2, Rpc(k, pid, c));
      }
      CarriesStep(k, k1, Rpc(k, pid, c), Sent(k, me, pid, REQUEST, c));
    } else {
      OtherFlags(k, k);
      CarriesStep(k, k, k, []);
    }
  }

  lemma SameTwice(k: K, k1: K, k2: K)
    requires SameMail(k, k1) && SameMail(k1, k2)
    ensures SameMail(k, k2)
  {}

  lemma ServerMail(k: K, pid: nat, c: Contents)
    requires Ready(k) && RpcOk(k, pid) && PidsOk(k)
    ensures var k1 := Send(k, k.procs[k.current].pid, pid, REQUEST, c); Shape(k1) && SameMail(k1, RpcSend(k, pid, c))
  {
    SendPasses(k, k.procs[k.current].pid, pid, REQUEST, c);
  }

  lemma {:induction false} ResumeMail(k: K)
    requires Receiving(k) && PidsOk(k)
    ensures StepMail(k, RecvFinish(k).0, [], Taken(k, Resume))
  {
    var k', c, tk := RecvFinish(k).0, k.current, Taken(k, Resume);
    var p := k.procs[c];
    assert k'.procs == k.procs[c := k'.procs[c]];
    forall i: nat | i < MAX_PROCS && k.procs[i].state != PROC_FREE ensures Kept(k.procs[i], k'.procs[i], [], tk) {
      forall t ensures For(tk, k.procs[i].pid, t) + k'.procs[i].boxes.Get(t).messages == k.procs[i].boxes.Get(t).messages {
        if tk != [] { ForOne(tk[0], k.procs[i].pid, t); }
      }
    }
    assert k'.procs[c].state != PROC_FREE && k'.procs[c].pid == p.pid;
  }

  lemma {:induction false} CreateMail(k: K, owner: nat, uid: nat)
    requires Inv(k)
    ensures StepMail(k, Create(k, owner, uid), [], [])
  {
    hide CountsOk, QueuesOk, MailOk;
    var k' := Create(k, owner, uid);
    if CreateOk(k, owner) {
      var f := k.free[0];
      assert k'.procs == k.procs[f := k'.procs[f]];
      assert IsNew(k'.procs[f], k.pidGen);
      forall i: nat | i < MAX_PROCS && i != f ensures Kept(k.procs[i], k'.procs[i], [], []) {}
    } else {
      forall i: nat | i < MAX_PROCS ensures Kept(k.procs[i], k'.procs[i], [], []) {}
    }
  }

  lemma {:induction false} KillMail(k: K, killer: nat, pid: nat, status: int)
    requires Shape(k) && PidsOk(k) && Enabled(k, KillProc(killer, pid, status))
    ensures StepMail(k, Kill(k, killer, pid, status), Posted(k, KillProc(killer, pid, status)), [])
  {
    hide PidsOk, Zap, ZapAll, Carries, Appends, ZapNotice;
    var i, j := Find(k.procs, killer, 0), Find(k.procs, pid, 0);
    var k' := Kill(k, killer, pid, status);
    if i == MAX_PROCS || (pid != 0 && j == MAX_PROCS) {
      OtherFlags(k, k);
      CarriesStep(k, k, k', []);
    } else if pid == 0 {
      ZapAllPasses(k, i, status, 0);
      CarriesStep(k, ZapAll(k, i, status, 0), k', ZapAllNotices(k, i, status, 0));
    } else {
      ZapPasses(k, i, j, status);
      CarriesStep(k, Zap(k, i, j, status), k', ZapNotice(k, i, j, status));
    }
  }

  /** Every step puts the messages it sends at the end of the mailboxes, and takes one only from the front. */
  lemma {:induction false} StepKeepsMail(k: K, s: Step)
    requires Inv(k) && Enabled(k, s)
    ensures StepMail(k, Next(k, s), Posted(k, s), Taken(k, s))
  {
    hide SlotsOk, PidsOk, CountsOk, QueuesOk, MailOk, Send, RecvStart, RecvFinish, Rpc, Term, Create, Kill, Round, StepMail, Carries, Tick;
    var me := k.procs[k.current].pid;
    match s
    case SysSend(dst, t, c) =>
      SendPasses(k, me, dst, t, c);
      CarriesOnly(k, Next(k, s), Posted(k, s));
    case SysRecv(t, maxTime, now) =>
      RecvStartMail(k, t, maxTime, now);
      OtherFlags(k, k);
      CarriesStep(k, k, Next(k, s), []);
    case SysRpc(pid, c) => RpcMail(k, pid, c);
    case Resume => ResumeMail(k);
    case SysExit(status) =>
      TermPasses(k, k.current, status);
      CarriesStep(k, Term(k, k.current, status), Next(k, s), Posted(k, s));
    case CreateProc(owner, uid) => CreateMail(k, owner, uid);
    case KillProc(killer, pid, status) => KillMail(k, killer, pid, status);
    case NextRound(now) =>
      RoundCarries(k, now);
      CarriesOnly(k, Next(k, s), Posted(k, s));
    case Interrupt(src, dst, t, c) =>
      SendPasses(k, src, dst, t, c);
      CarriesOnly(k, Next(k, s), Posted(k, s));
    case _ =>
      OtherFlags(k, k);
      SmallMail(k, s);
      CarriesStep(k, k, Next(k, s), []);
  }

  lemma CarriesOnly(k: K, k': K, ps: seq<Post>)
    requires Carries(k, k', ps)
    ensures StepMail(k, k', ps, [])
  {
    CarriesStep(k, k', k', ps);
  }

  lemma SmallMail(k: K, s: Step)
    requires Enabled(k, s) && (s == Yield || s == Demote || s.SetInterruptable? || s == ShutDown)
    ensures SameMail(k, Next(k, s))
  {}

  // ----- Whole runs -----

  /** A run with the messages posted and taken in it */
  ghost predicate History(k: K, steps: seq<Step>, k': K, ps: seq<Post>, tk: seq<Post>)
    decreases |steps|
  {
    if steps == [] then k' == k && ps == [] && tk == []
    else exists v, qs, uk :: History(k, steps[..|steps| - 1], v, qs, uk) && HistoryLast(v, steps, k', qs, uk, ps, tk)
  }

  ghost predicate HistoryLast(v: K, steps: seq<Step>, k': K, qs: seq<Post>, uk: seq<Post>, ps: seq<Post>, tk: seq<Post>)
    requires steps != []
  {
    TakesLast(v, steps, k') && ps == qs + Posted(v, steps[|steps| - 1]) && tk == uk + Taken(v, steps[|steps| - 1])
  }

  /** Each process that is there has taken what was posted to it, in order, but for what is in its mailboxes. */
  ghost predicate InOrder(k: K, ps: seq<Post>, tk: seq<Post>) {
    && (forall p :: p in ps || p in tk ==> p.to < k.pidGen)
    && (forall i: nat, t :: i < |k.procs| && k.procs[i].state != PROC_FREE ==>
         For(tk, k.procs[i].pid, t) + k.procs[i].boxes.Get(t).messages == For(ps, k.procs[i].pid, t))
    && (forall pid: nat, t :: For(tk, pid, t) <= For(ps, pid, t))
  }

  lemma {:induction false} SlotInOrder(k: K, k': K, qs: seq<Post>, uk: seq<Post>, ps: seq<Post>, tk: seq<Post>, i: nat, t: MsgType)
    requires InOrder(k, qs, uk) && StepMail(k, k', ps, tk) && i < |k.procs| && k'.procs[i].state != PROC_FREE
    ensures For(uk + tk, k'.procs[i].pid, t) + k'.procs[i].boxes.Get(t).messages == For(qs + ps, k'.procs[i].pid, t)
  {
    hide For;
    var pid := k'.procs[i].pid;
    ForBoth(uk, tk, pid, t);
    ForBoth(qs, ps, pid, t);
    if IsNew(k'.procs[i], k.pidGen) {
      ForNone(uk, pid, t);
      ForNone(tk, pid, t);
      ForNone(qs, pid, t);
      ForNone(ps, pid, t);
    } else {
      Joined(For(uk, pid, t), For(tk, pid, t), k'.procs[i].boxes.Get(t).messages,
             For(qs, pid, t), For(ps, pid, t), k.procs[i].boxes.Get(t).messages);
    }
  }

  /** What was taken and kept before, and what is taken and kept now */
  lemma Joined(u: seq<Message>, t: seq<Message>, b': seq<Message>, q: seq<Message>, p: seq<Message>, b: seq<Message>)
    requires u + b == q && t + b' == b + p
    ensures u + t + b' == q + p
  {
    assert u + t + b' == u + (t + b') && u + (b + p) == u + b + p;
  }

  lemma {:induction false} PrefixInOrder(k: K, k': K, qs: seq<Post>, uk: seq<Post>, ps: seq<Post>, tk: seq<Post>, pid: nat, t: MsgType)
    requires InOrder(k, qs, uk) && StepMail(k, k', ps, tk)
    ensures For(uk + tk, pid, t) <= For(qs + ps, pid, t)
  {
    ForBoth(uk, tk, pid, t);
    ForBoth(qs, ps, pid, t);
    if forall p :: p in tk ==> p.to != pid {
      ForNone(tk, pid, t);
    } else {
      var p :| p in tk && p.to == pid;
      var i: nat :| i < |k'.procs| && k'.procs[i].state != PROC_FREE && k'.procs[i].pid == pid;
      SlotInOrder(k, k', qs, uk, ps, tk, i, t);
    }
  }

  lemma {:induction false} OrderStep(k: K, k': K, qs: seq<Post>, uk: seq<Post>, ps: seq<Post>, tk: seq<Post>)
    requires InOrder(k, qs, uk) && StepMail(k, k', ps, tk)
    ensures InOrder(k', qs + ps, uk + tk)
  {
    hide StepMail, For;
    forall i: nat, t | i < |k'.procs| && k'.procs[i].state != PROC_FREE
      ensures For(uk + tk, k'.procs[i].pid, t) + k'.procs[i].boxes.Get(t).messages == For(qs + ps, k'.procs[i].pid, t)
    {
      SameCount(k, k', ps, tk);
      SlotInOrder(k, k', qs, uk, ps, tk, i, t);
    }
    forall pid: nat, t ensures For(uk + tk, pid, t) <= For(qs + ps, pid, t) {
      PrefixInOrder(k, k', qs, uk, ps, tk, pid, t);
    }
    forall p | p in qs + ps || p in uk + tk ensures p.to < k'.pidGen { BelowGen(k, k', ps, tk, p); }
  }

  lemma SameCount(k: K, k': K, ps: seq<Post>, tk: seq<Post>)
    requires StepMail(k, k', ps, tk)
    ensures |k'.procs| == |k.procs|
  {}

  lemma BelowGen(k: K, k': K, ps: seq<Post>, tk: seq<Post>, p: Post)
    requires StepMail(k, k', ps, tk)
    ensures k.pidGen <= k'.pidGen && (p in ps || p in tk ==> p.to < k.pidGen)
  {}

  /** In every run, for each process and each type of message: the messages that it has taken, followed by those in its
      mailbox, are those that were sent to it, in order, each with its sender and its contents; and what dead processes
      have taken is the beginning of what was sent to them. */
  lemma {:induction false} DeliveredInOrder(steps: seq<Step>, k: K, ps: seq<Post>, tk: seq<Post>)
    requires History(Initial(), steps, k, ps, tk)
    ensures Reaches(Initial(), steps, k) && InOrder(k, ps, tk)
    decreases |steps|
  {
    hide Next, Enabled, InOrder, Posted, Taken, Inv;
    if steps == [] {
      InitialInOrder();
    } else {
      var v, qs, uk :| History(Initial(), steps[..|steps| - 1], v, qs, uk) && HistoryLast(v, steps, k, qs, uk, ps, tk);
      DeliveredInOrder(steps[..|steps| - 1], v, qs, uk);
      AnyRun(steps[..|steps| - 1], v);
      var s := steps[|steps| - 1];
      StepKeepsMail(v, s);
      OrderStep(v, k, qs, uk, Posted(v, s), Taken(v, s));
    }
  }

  lemma InitialInOrder()
    ensures InOrder(Initial(), [], [])
  {
    var k := Initial();
    forall i: nat, t | i < |k.procs| && k.procs[i].state != PROC_FREE ensures k.procs[i].boxes.Get(t).messages == [] {}
  }

  /** Every run has its history. */
  lemma {:induction false} HistoryOf(k: K, steps: seq<Step>, k': K) returns (ps: seq<Post>, tk: seq<Post>)
    requires Reaches(k, steps, k')
    ensures History(k, steps, k', ps, tk)
    decreases |steps|
  {
    hide Next, Enabled, Posted, Taken;
    ps, tk := [], [];
    if steps != [] {
      var v :| Reaches(k, steps[..|steps| - 1], v) && TakesLast(v, steps, k');
      var qs, uk := HistoryOf(k, steps[..|steps| - 1], v);
      ps, tk := qs + Posted(v, steps[|steps| - 1]), uk + Taken(v, steps[|steps| - 1]);
      assert HistoryLast(v, steps, k', qs, uk, ps, tk);
    }
  }

  // ----- One message -----

  /** What proc_send has done when it has succeeded: the message is the last in that mailbox, no other mailbox has
      changed, and a process that waited for it can run. */
  lemma {:induction false} SendDelivers(k: K, src: nat, dst: nat, t: MsgType, c: Contents, i: nat)
    requires Inv(k) && i < MAX_PROCS && IsAddressee(k.procs[i], src, dst, t)
    ensures var k', p := Send(k, src, dst, t, c), k.procs[i];
      && SendOk(k, src, dst, t) && Shape(k')
      && k'.procs[i].boxes.Get(t).messages == p.boxes.Get(t).messages + [Message(src, c)]
      && (forall u :: u != t ==> k'.procs[i].boxes.Get(u) == p.boxes.Get(u))
      && (forall j: nat :: j < MAX_PROCS && j != i ==> k'.procs[j] == k.procs[j])
      && k'.procs[i].state == (if p.boxes.Get(t).waiting then RUNNABLE else p.state)
      && !k'.procs[i].boxes.Get(t).waiting
  {
    hide SlotsOk, CountsOk, QueuesOk, MailOk;
    SendOkMeans(k, src, dst, t);
    assert Reachable(k, src, dst, t);
    assert Find(k.procs, dst, 0) == i;
    AddedGets(k.procs[i], t, Message(src, c));
  }

  /** A reply that is accepted is what proc_recv returns when the client runs again. */
  lemma {:induction false} ReplyArrives(k: K, src: nat, dst: nat, c: Contents, i: nat)
    requires Inv(k) && i < MAX_PROCS && IsAddressee(k.procs[i], src, dst, REPLY)
    ensures var p := Send(k, src, dst, REPLY, c).procs[i];
      && p.boxes.reply.messages == [Message(src, c)] && p.point == InRecv(REPLY) && p.state == RUNNABLE
  {
    hide SlotsOk, PidsOk, CountsOk, QueuesOk;
    assert ProcOk(k.procs[i]);
    SendDelivers(k, src, dst, REPLY, c, i);
    assert k.procs[i].boxes.Get(REPLY).waiting;
    SendOkMeans(k, src, dst, REPLY) by { InvPids(k); }
    DeliverPoint(k, src, dst, c, i);
  }

  lemma InvPids(k: K)
    requires Inv(k)
    ensures Shape(k) && PidsOk(k)
  {}

  lemma DeliverPoint(k: K, src: nat, dst: nat, c: Contents, i: nat)
    requires Shape(k) && i < MAX_PROCS
    ensures Send(k, src, dst, REPLY, c).procs[i].point == k.procs[i].point
  {}
}
