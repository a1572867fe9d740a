/** User-level threads and semaphores with direct hand-off. */
module Threads {
  import opened Sequences

  /** A semaphore: a thread that is woken up has got its permit without the count changing. */
  datatype Sema = Sema(count: nat, waiting: seq<nat>)

  /** sema_dec by thread t */
  function Dec(s: Sema, t: nat): Sema {
    if s.count == 0 then s.(waiting := s.waiting + [t]) else s.(count := s.count - 1)
  }

  predicate Blocks(s: Sema) {
    s.count == 0
  }

  /** sema_inc */
  function Inc(s: Sema): Sema {
    if s.waiting != [] then s.(waiting := s.waiting[1..]) else s.(count := s.count + 1)
  }

  predicate Wakes(s: Sema) {
    s.waiting != []
  }

  /** An operation on a semaphore: sema_dec by a thread, or sema_inc */
  datatype SemaOp = Down(t: nat) | Up

  /** The semaphore after some operations */
  function After(s: Sema, ops: seq<SemaOp>): Sema {
    if ops == [] then s
    else
      match ops[|ops| - 1]
      case Down(t) => Dec(After(s, ops[..|ops| - 1]), t)
      case Up => Inc(After(s, ops[..|ops| - 1]))
  }

  /** The threads that have asked for a permit, in the order in which they did */
  function Asked(ops: seq<SemaOp>): seq<nat> {
    if ops == [] then []
    else Asked(ops[..|ops| - 1]) + match ops[|ops| - 1] { case Down(t) => [t] case Up => [] }
  }

  /** The permits that were given back */
  function Ups(ops: seq<SemaOp>): nat {
    if ops == [] then 0 else Ups(ops[..|ops| - 1]) + if ops[|ops| - 1] == Up then 1 else 0
  }

  /** The requests that a semaphore with n permits at first has granted, if it grants as many as it can */
  function Served(n: nat, ops: seq<SemaOp>): nat {
    if |Asked(ops)| <= n + Ups(ops) then |Asked(ops)| else n + Ups(ops)
  }

  /** First come, first served: of those who asked, the first as many as there were permits have got one, and the others
      wait in the order in which they asked; the permits left are those that nobody has asked for. */
  lemma {:induction false} FirstComeFirstServed(n: nat, ops: seq<SemaOp>)
    ensures After(Sema(n, []), ops) == Sema(n + Ups(ops) - Served(n, ops), Asked(ops)[Served(n, ops)..])
  {
    if ops != [] {
      FirstComeFirstServed(n, ops[..|ops| - 1]);
    }
  }

  /** Threads wait only if there is no permit. */
  ghost predicate SemaOk(s: Sema) {
    NoDup(s.waiting) && (s.waiting != [] ==> s.count == 0)
  }

  /** The states of threads that have run before; threads that were created and never entered are
      not part of this model. */
  datatype TState = RUNNING | STOPPED | BLOCKED | TERMINATED

  /** Switched: another thread runs.  Continues: the current one does.  Exited: no thread can run, and the
      program exits with status 1. */
  datatype Yielded = Switched | Continues | Exited

  /** The ready queue holds the stopped threads, each once. */
  ghost predicate ReadyOk(states: seq<TState>, ready: seq<nat>) {
    && NoDup(ready)
    && (forall t :: t in ready ==> t < |states| && states[t] == STOPPED)
    && (forall t: nat :: t < |states| && states[t] == STOPPED ==> t in ready)
  }

  /** The blocked threads are those in on, and each waits for one semaphore, once. */
  ghost predicate WaitOk(states: seq<TState>, semas: seq<Sema>, on: map<nat, nat>) {
    && (forall t :: t in on ==> t < |states| && states[t] == BLOCKED && on[t] < |semas|)
    && (forall t: nat :: t < |states| && states[t] == BLOCKED ==> t in on)
    && (forall k :: 0 <= k < |semas| ==> SemaOk(semas[k]))
    && (forall k, t {:trigger t in semas[k].waiting} :: 0 <= k < |semas| ==> (t in semas[k].waiting <==> t in on && on[t] == k))
  }

  /** Thread t stops or begins to run. */
  lemma {:induction false} WaitKept(states: seq<TState>, semas: seq<Sema>, on: map<nat, nat>, t: nat, st: TState)
    requires WaitOk(states, semas, on) && t < |states| && states[t] != BLOCKED && st != BLOCKED
    ensures WaitOk(states[t := st], semas, on)
  {}

  lemma {:induction false} WaitMore(states: seq<TState>, semas: seq<Sema>, on: map<nat, nat>, t: nat, k: nat)
    requires WaitOk(states, semas, on) && t < |states| && states[t] != BLOCKED && k < |semas| && semas[k].count == 0
    ensures WaitOk(states[t := BLOCKED], semas[k := Dec(semas[k], t)], on[t := k])
  {
    assert t !in semas[k].waiting;
    Appended(semas[k].waiting, t);
  }

  lemma {:induction false} WaitLess(states: seq<TState>, semas: seq<Sema>, on: map<nat, nat>, k: nat)
    requires WaitOk(states, semas, on) && k < |semas| && semas[k].waiting != []
    ensures var t := semas[k].waiting[0];
      && t < |states| && states[t] == BLOCKED
      && WaitOk(states[t := STOPPED], semas[k := Inc(semas[k])], on - {t})
  {
    var t := semas[k].waiting[0];
    assert t in semas[k].waiting;
    Head(semas[k].waiting);
  }

  lemma {:induction false} WaitCount(states: seq<TState>, semas: seq<Sema>, on: map<nat, nat>, k: nat, s: Sema)
    requires WaitOk(states, semas, on) && k < |semas| && s.waiting == semas[k].waiting && (s.waiting != [] ==> s.count == 0)
    ensures WaitOk(states, semas[k := s], on)
  {}

  lemma {:induction false} ReadyLess(states: seq<TState>, ready: seq<nat>)
    requires ReadyOk(states, ready) && ready != []
    ensures ready[0] < |states| && states[ready[0]] == STOPPED && ReadyOk(states[ready[0] := RUNNING], ready[1..])
  {
    assert ready[0] in ready;
    Head(ready);
  }

  lemma {:induction false} ReadyMore(states: seq<TState>, ready: seq<nat>, t: nat)
    requires ReadyOk(states, ready) && t < |states| && states[t] != STOPPED
    ensures ReadyOk(states[t := STOPPED], ready + [t])
  {
    Appended(ready, t);
  }

  lemma {:induction false} ReadyKept(states: seq<TState>, ready: seq<nat>, t: nat, st: TState)
    requires ReadyOk(states, ready) && t < |states| && states[t] != STOPPED && st != STOPPED
    ensures ReadyOk(states[t := st], ready)
  {}

  class Monitor {
    const states: array<TState>
    const semas: array<Sema>
    var current: nat
    var ready: seq<nat>        // thread_ready
    var exited: seq<nat>       // thread_exited, until they are freed
    ghost var on: map<nat, nat>

    /** n threads, all of which have been entered; the one called current runs. */
    constructor (n: nat, current: nat, counts: seq<nat>)
      requires current < n
      ensures Valid() && states.Length == n && semas.Length == |counts| && this.current == current && fresh(states) && fresh(semas)
      ensures forall k :: 0 <= k < |counts| ==> semas[k] == Sema(counts[k], [])
    {
      states := new TState[n](i => if i == current then RUNNING else STOPPED);
      semas := new Sema[|counts|](i requires 0 <= i < |counts| => Sema(counts[i], []));
      this.current := current;
      ready := seq(current, i => i) + seq(n - current - 1, i => current + 1 + i);
      exited := [];
      on := map[];
      new;
      forall t: nat | t < n && t != current ensures t in ready {
        assert ready[if t < current then t else t - 1] == t;
      }
    }

    ghost predicate Placed()
      reads this, states, semas
    {
      current < states.Length && ReadyOk(states[..], ready) && WaitOk(states[..], semas[..], on)
    }

    /** Each thread is in one place: the current one runs, stopped threads are on the ready queue, once,
        and blocked threads wait for one semaphore, once. */
    ghost predicate Valid()
      reads this, states, semas
    {
      Placed() && forall t: nat :: t < states.Length ==> (states[t] == RUNNING <==> t == current)
    }

    /** The current thread may be about to give up the processor. */
    ghost predicate Leaving()
      reads this, states, semas
    {
      Placed() && states[current] != STOPPED && forall t: nat :: t < states.Length && t != current ==> states[t] != RUNNING
    }

    /** thread_yield; thread_schedule takes the first thread of the ready queue. */
    method Yield() returns (r: Yielded)
      requires Leaving()
      modifies this`current, this`ready, this`exited, states
      ensures r == Exited <==> old(ready) == [] && old(states[current]) != RUNNING
      ensures r == Continues <==> old(ready) == [] && old(states[current]) == RUNNING
      ensures r != Exited ==> Valid()
      ensures r == Switched ==> current == old(ready)[0]
      ensures r == Switched ==> ready == old(ready)[1..] + if old(states[current]) == RUNNING then [old(current)] else []
      ensures r != Switched ==> current == old(current) && ready == old(ready) && states[..] == old(states[..])
      ensures r == Switched ==> states[old(current)] == if old(states[current]) == RUNNING then STOPPED else old(states[current])
    {
      hide ReadyOk, WaitOk;
      if ready == [] {
        if states[current] == TERMINATED || states[current] == BLOCKED {
          return Exited;
        }
        return Continues;
      }
      if states[current] != BLOCKED && states[current] != TERMINATED {
        exited := [];
      }
      var old_t, next := current, ready[0];
      ReadyLess(states[..], ready);
      WaitKept(states[..], semas[..], on, next, RUNNING);
      ghost var was := states[..];
      ready := ready[1..];
      states[next] := RUNNING;
      assert states[..] == was[next := RUNNING];
      if states[old_t] != BLOCKED && states[old_t] != TERMINATED {
        ReadyMore(states[..], ready, old_t);
        WaitKept(states[..], semas[..], on, old_t, STOPPED);
        states[old_t] := STOPPED;
        assert states[..] == was[next := RUNNING][old_t := STOPPED];
        ready := ready + [old_t];
      }
      current := next;
      r := Switched;
    }

    /** sema_dec */
    method SemaDec(k: nat) returns (r: Yielded)
      requires Valid() && k < semas.Length
      modifies this, states, semas
      ensures semas[..] == old(semas[..])[k := Dec(old(semas[k]), old(current))]
      ensures r == Continues <==> !Blocks(old(semas[k]))
      ensures r == Exited <==> Blocks(old(semas[k])) && old(ready) == []
      ensures r != Exited ==> Valid()
      ensures r == Continues ==> current == old(current) && states[..] == old(states[..])
      ensures r == Switched ==> states[old(current)] == BLOCKED && current == old(ready)[0]
    {
      hide ReadyOk, WaitOk;
      var s := semas[k];
      if s.count == 0 {
        WaitMore(states[..], semas[..], on, current, k);
        ReadyKept(states[..], ready, current, BLOCKED);
        ghost var was, sems := states[..], semas[..];
        states[current] := BLOCKED;
        semas[k] := s.(waiting := s.waiting + [current]);
        on := on[current := k];
        assert states[..] == was[current := BLOCKED] && semas[..] == sems[k := Dec(s, current)];
        r := Yield();
      } else {
        WaitCountDown(states[..], semas[..], on, k);
        ghost var sems := semas[..];
        semas[k] := s.(count := s.count - 1);
        assert semas[..] == sems[k := Dec(s, current)];
        r := Continues;
      }
    }

    /** sema_inc: the first thread that waits is made ready; the current one goes on. */
    method SemaInc(k: nat)
      requires Valid() && k < semas.Length
      modifies this, states, semas
      ensures Valid() && current == old(current)
      ensures semas[..] == old(semas[..])[k := Inc(old(semas[k]))]
      ensures ready == if Wakes(old(semas[k])) then old(ready) + [old(semas[k]).waiting[0]] else old(ready)
    {
      hide ReadyOk, WaitOk;
      ghost var was, sems := states[..], semas[..];
      var s := semas[k];
      if s.waiting != [] {
        var t := s.waiting[0];
        WaitLess(states[..], semas[..], on, k);
        ReadyMore(states[..], ready, t);
        semas[k] := s.(waiting := s.waiting[1..]);
        states[t] := STOPPED;
        ready := ready + [t];
        on := on - {t};
        assert states[..] == was[t := STOPPED] && semas[..] == sems[k := Inc(s)];
      } else {
        WaitCount(states[..], semas[..], on, k, Inc(s));
        semas[k] := s.(count := s.count + 1);
        assert semas[..] == sems[k := Inc(s)];
      }
    }

    /** thread_exit */
    method Exit() returns (r: Yielded)
      requires Valid()
      modifies this, states
      ensures r == if old(ready) == [] then Exited else Switched
      ensures r != Exited ==> Valid() && current == old(ready)[0] && states[old(current)] == TERMINATED
    {
      hide ReadyOk, WaitOk;
      ReadyKept(states[..], ready, current, TERMINATED);
      WaitKept(states[..], semas[..], on, current, TERMINATED);
      ghost var was := states[..];
      states[current] := TERMINATED;
      assert states[..] == was[current := TERMINATED];
      exited := exited + [current];
      r := Yield();
    }
  }

  lemma {:induction false} WaitCountDown(states: seq<TState>, semas: seq<Sema>, on: map<nat, nat>, k: nat)
    requires WaitOk(states, semas, on) && k < |semas| && semas[k].count > 0
    ensures WaitOk(states, semas[k := semas[k].(count := semas[k].count - 1)], on)
  {}
}
