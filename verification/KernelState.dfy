/** The process table, the run queues and the mailboxes of the kernel, as values, and what each
    step of the kernel does to them. */
module KernelState {
  const MAX_PROCS: nat := 100
  const MAX_PRIORITY: nat := 3

  datatype PState = PROC_FREE | RUNNABLE | WAITING | ZOMBIE
  datatype MsgType = REQUEST | REPLY | EVENT

  /** The contents of a message; Died is the event that tells an owner of a death. */
  datatype Contents = Bytes(bytes: seq<int>) | Died(pid: nat, status: int)
  datatype Message = Message(src: nat, contents: Contents)
  datatype Mbox = Mbox(waiting: bool, messages: seq<Message>)

  /** Where a process continues when it runs: in its own code, or in proc_recv behind the call of
      proc_yield. */
  datatype Point = InCode | InRecv(t: MsgType)

  type Priority = n: nat | n < 3

  datatype Boxes = Boxes(request: Mbox, reply: Mbox, event: Mbox) {
    function Get(t: MsgType): Mbox {
      match t case REQUEST => request case REPLY => reply case EVENT => event
    }
    function Set(t: MsgType, b: Mbox): (bs: Boxes)
      ensures forall u :: bs.Get(u) == if u == t then b else Get(u)
    {
      match t case REQUEST => this.(request := b) case REPLY => this.(reply := b) case EVENT => this.(event := b)
    }
    function NoneWaiting(): Boxes {
      Boxes(request.(waiting := false), reply.(waiting := false), event.(waiting := false))
    }
  }

  const NO_MAIL := Boxes(Mbox(false, []), Mbox(false, []), Mbox(false, []))

  datatype Proc = Proc(pid: nat, owner: nat, uid: nat, state: PState, boxes: Boxes, server: nat, alarm: bool,
                       exptime: nat, interruptable: bool, priority: Priority, point: Point)

  /** yielding: the current process is in proc_yield, where interrupts may come in. */
  datatype K = K(procs: seq<Proc>, current: nat, yielding: bool, runq: seq<seq<nat>>, free: seq<nat>,
                 nprocs: int, nrunnable: int, pidGen: nat, shutdown: bool)

  predicate Shape(k: K) {
    |k.procs| == MAX_PROCS && |k.runq| == MAX_PRIORITY && k.current < MAX_PROCS
  }

  predicate IsLive(p: Proc) {
    p.state == RUNNABLE || p.state == WAITING
  }

  // ----- Steps -----

  /** queue_add on the run queue of the process's priority */
  function ToRunq(k: K, i: nat): K
    requires Shape(k) && i < MAX_PROCS
  {
    k.(runq := k.runq[k.procs[i].priority := k.runq[k.procs[i].priority] + [i]])
  }

  /** The first process from i on with this pid that is not free, or |ps|. */
  function Find(ps: seq<Proc>, pid: nat, i: nat): (j: nat)
    requires i <= |ps|
    ensures i <= j <= |ps|
    ensures j < |ps| ==> ps[j].state != PROC_FREE && ps[j].pid == pid
    ensures forall l :: i <= l < j ==> ps[l].state == PROC_FREE || ps[l].pid != pid
    decreases |ps| - i
  {
    if i == |ps| || (ps[i].state != PROC_FREE && ps[i].pid == pid) then i else Find(ps, pid, i + 1)
  }

  function SetProc(k: K, i: nat, p: Proc): K
    requires i < |k.procs|
  {
    k.(procs := k.procs[i := p])
  }

  /** The process may be sent a message of this type from src. */
  predicate Accepts(p: Proc, src: nat, t: MsgType) {
    && p.state != ZOMBIE
    && (t == REPLY ==> p.state == WAITING && p.boxes.reply.waiting && p.server == src)
  }

  function WithMessage(p: Proc, t: MsgType, m: Message): Proc {
    p.(boxes := p.boxes.Set(t, Mbox(false, p.boxes.Get(t).messages + [m])))
  }

  /** Put message m in box t of process i, and wake it up if it waits for that. */
  function Deliver(k: K, i: nat, t: MsgType, m: Message): (k': K)
    requires Shape(k) && i < MAX_PROCS
    ensures Shape(k') && k'.current == k.current && k'.yielding == k.yielding
  {
    var p := k.procs[i];
    if !p.boxes.Get(t).waiting then SetProc(k, i, WithMessage(p, t, m))
    else
      var k1 := SetProc(k, i, WithMessage(p, t, m).(state := RUNNABLE, alarm := false)).(nrunnable := k.nrunnable + 1);
      if i == k.current then k1 else ToRunq(k1, i)
  }

  /** proc_send */
  function Send(k: K, src: nat, dst: nat, t: MsgType, c: Contents): K
    requires Shape(k)
  {
    if SendOk(k, src, dst, t) then Deliver(k, Find(k.procs, dst, 0), t, Message(src, c)) else k
  }

  predicate SendOk(k: K, src: nat, dst: nat, t: MsgType)
    requires Shape(k)
  {
    var i := Find(k.procs, dst, 0);
    i < MAX_PROCS && Accepts(k.procs[i], src, t)
  }

  /** proc_wakeup */
  function Wakeup(k: K, i: nat): K
    requires Shape(k) && i < MAX_PROCS
  {
    var p := k.procs[i].(state := RUNNABLE, alarm := false, boxes := k.procs[i].boxes.NoneWaiting());
    var k1 := k.(nrunnable := k.nrunnable + 1);
    if i == k.current then SetProc(k1, i, p)
    else ToRunq(SetProc(k1, i, p.(priority := if p.priority == MAX_PRIORITY - 1 then p.priority - 1 else p.priority)), i)
  }

  predicate WaitsFor(p: Proc, pid: nat) {
    p.state == WAITING && p.boxes.reply.waiting && p.server == pid
  }

  /** Fail the rpcs of the clients of pid. */
  function WakeClients(k: K, pid: nat, i: nat): (k': K)
    requires Shape(k) && i <= MAX_PROCS
    ensures Shape(k') && k'.current == k.current && k'.yielding == k.yielding
    decreases MAX_PROCS - i
  {
    if i == MAX_PROCS then k
    else WakeClients(if WaitsFor(k.procs[i], pid) then Wakeup(k, i) else k, pid, i + 1)
  }

  /** Process i is marked dead. */
  function Dead(k: K, i: nat): K
    requires Shape(k) && i < MAX_PROCS
  {
    var p := k.procs[i];
    SetProc(k, i, p.(state := ZOMBIE)).(nrunnable := if p.state == RUNNABLE then k.nrunnable - 1 else k.nrunnable)
  }

  /** proc_term, but for the page frames */
  function Term(k: K, i: nat, status: int): (k': K)
    requires Shape(k) && i < MAX_PROCS
    ensures Shape(k') && k'.current == k.current && k'.yielding == k.yielding
  {
    var p := k.procs[i];
    if p.state == ZOMBIE then k
    else
      var k1 := Dead(k, i);
      var o := Find(k1.procs, p.owner, 0);
      var k2 := if o == MAX_PROCS then k1 else Send(k1, p.pid, k1.procs[o].pid, EVENT, Died(p.pid, status));
      WakeClients(k2, p.pid, 0)
  }

  /** proc_release */
  function Release(k: K, i: nat): K
    requires Shape(k) && i < MAX_PROCS
  {
    SetProc(k, i, k.procs[i].(state := PROC_FREE, boxes := NO_MAIL)).(nprocs := k.nprocs - 1, free := k.free + [i])
  }

  /** The killer, a process or (MAX_PROCS) the kernel itself, may kill process i. */
  predicate MayKill(k: K, killer: nat, i: nat)
    requires Shape(k) && i < MAX_PROCS
  {
    killer < MAX_PROCS ==> k.procs[killer].uid == 0 || k.procs[killer].uid == k.procs[i].uid
  }

  /** proc_zap */
  function Zap(k: K, killer: nat, i: nat, status: int): (k': K)
    requires Shape(k) && i < MAX_PROCS
    ensures Shape(k') && k'.current == k.current && k'.yielding == k.yielding
  {
    if !MayKill(k, killer, i) then k
    else if k.procs[i].state == RUNNABLE then Term(k, i, status)
    else if k.procs[i].state == WAITING then
      if i != k.current then Release(Term(k, i, status), i) else Term(k, i, status)
    else k
  }

  /** The loop of proc_kill over all interruptable processes. */
  function ZapAll(k: K, killer: nat, status: int, i: nat): (k': K)
    requires Shape(k) && i <= MAX_PROCS
    ensures Shape(k') && k'.current == k.current && k'.yielding == k.yielding
    decreases MAX_PROCS - i
  {
    if i == MAX_PROCS then k
    else ZapAll(if k.procs[i].state != PROC_FREE && k.procs[i].interruptable then Zap(k, killer, i, status) else k, killer, status, i + 1)
  }

  const STAT_SHUTDOWN: int := -4

  /** The loop of proc_yield over all processes: shut them down, or wake up those whose time is up. */
  function Tick(k: K, now: nat, i: nat): (k': K)
    requires Shape(k) && i <= MAX_PROCS
    ensures Shape(k') && k'.current == k.current && k'.yielding == k.yielding
    decreases MAX_PROCS - i
  {
    if i == MAX_PROCS then k
    else
      var p := k.procs[i];
      var k1 :=
        if k.shutdown && p.state != PROC_FREE then Zap(k, MAX_PROCS, i, STAT_SHUTDOWN)
        else if p.state == WAITING && p.alarm && p.exptime <= now then Wakeup(k, i)
        else k;
      Tick(k1, now, i + 1)
  }

  datatype Choice = Choice(k: K, next: nat)

  function Pop(k: K, level: nat): K
    requires Shape(k) && level < MAX_PRIORITY && k.runq[level] != []
  {
    k.(runq := k.runq[level := k.runq[level][1..]])
  }

  /** The entries of all run queues are slots. */
  ghost predicate QueueRange(k: K) {
    Shape(k) && forall l, a :: 0 <= l < MAX_PRIORITY && 0 <= a < |k.runq[l]| ==> k.runq[l][a] < MAX_PROCS
  }

  /** The loops of proc_yield over the run queues: take the first runnable process, releasing the
      zombies before it.  MAX_PROCS if there is none. */
  function Select(k: K, level: nat): (c: Choice)
    requires QueueRange(k) && level <= MAX_PRIORITY
    ensures Shape(c.k) && c.k.current == k.current && c.k.yielding == k.yielding && c.next <= MAX_PROCS
    ensures c.next < MAX_PROCS ==> c.k.procs[c.next].state == RUNNABLE
    decreases MAX_PRIORITY - level, if level < MAX_PRIORITY then |k.runq[level]| else 0
  {
    if level == MAX_PRIORITY then Choice(k, MAX_PROCS)
    else if k.runq[level] == [] then Select(k, level + 1)
    else
      var i, k1 := k.runq[level][0], Pop(k, level);
      if k.procs[i].state == RUNNABLE then Choice(k1, i) else Select(Release(k1, i), level)
  }

  /** The end of proc_yield and proc_after_switch */
  function Switch(k: K, n: nat): K
    requires Shape(k) && n < MAX_PROCS
  {
    var p := k.procs[k.current];
    var k1 := if p.state == RUNNABLE then ToRunq(k, k.current) else if p.state == ZOMBIE then Release(k, k.current) else k;
    k1.(current := n, yielding := false)
  }
}
