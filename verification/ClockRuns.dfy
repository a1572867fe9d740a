/** Whole runs of the cache: the mark of an entry says that it was used since the hand last passed it. */
module ClockRuns {
  import opened Clock

  /** A read or write that uses block o, or a change of the number of blocks to n */
  datatype Event = Use(o: nat) | Cut(n: nat)

  ghost predicate Takes(m: Marks, e: Event, m': Marks) {
    match e
    case Use(o) => Hits(m, o, m') || Misses(m, o, m')
    case Cut(n) => Cuts(m, n, m')
  }

  /** The marks before the first event and after each */
  ghost predicate IsRun(ms: seq<Marks>, es: seq<Event>) {
    && |ms| == |es| + 1
    && |ms[0].status| == |ms[0].offset| >= 1 && (forall i :: 0 <= i < |ms[0].status| ==> ms[0].status[i] == Empty)
    && forall a: nat :: a < |es| ==> Takes(ms[a], es[a], ms[a + 1])
  }

  // ----- What happens to one entry -----

  /** Entry i holds the block that is used. */
  ghost predicate IsUsed(m: Marks, e: Event, m': Marks, i: nat) {
    e.Use? && i < |m'.status| == |m'.offset| && m'.status[i] != Empty && m'.offset[i] == e.o
  }

  /** The hand passes entry i. */
  ghost predicate IsPassed(m: Marks, e: Event, m': Marks, i: nat) {
    && e.Use? && !IsCached(m, e.o) && |m.status| >= 1
    && exists j: nat :: StartHand(m.hand, |m.status|) + j + 1 < m'.hand && ProbeAt(StartHand(m.hand, |m.status|), j, |m.status|) == i
  }

  /** Entry i becomes empty. */
  ghost predicate IsCut(m: Marks, e: Event, m': Marks, i: nat) {
    e.Cut? && i < |m'.status| && m'.status[i] == Empty
  }

  /** Entry i was used by event a, and then neither passed by the hand nor emptied. */
  ghost predicate UsedSince(ms: seq<Marks>, es: seq<Event>, a: nat, i: nat)
    requires |ms| == |es| + 1
  {
    && a < |es| && IsUsed(ms[a], es[a], ms[a + 1], i)
    && forall b: nat :: a < b < |es| ==> !IsPassed(ms[b], es[b], ms[b + 1], i) && !IsCut(ms[b], es[b], ms[b + 1], i)
  }

  ghost predicate Recent(ms: seq<Marks>, es: seq<Event>, i: nat)
    requires |ms| == |es| + 1
  {
    exists a: nat :: UsedSince(ms, es, a, i)
  }

  // ----- One event -----

  /** No block is cached twice. */
  ghost predicate Unique(m: Marks) {
    && |m.status| == |m.offset| >= 1
    && forall i, j :: 0 <= i < j < |m.status| && m.status[i] != Empty && m.status[j] != Empty ==> m.offset[i] != m.offset[j]
  }

  /** What was marked is marked, unless it was passed or emptied; and what is used is marked. */
  ghost predicate MarksAfter(m: Marks, e: Event, m': Marks) {
    && |m'.status| == |m.status|
    && forall i: nat :: i < |m.status| ==>
         (m'.status[i] == Used <==>
            IsUsed(m, e, m', i) || (m.status[i] == Used && !IsPassed(m, e, m', i) && !IsCut(m, e, m', i)))
  }

  lemma {:induction false} HitMarks(m: Marks, o: nat, m': Marks, v: nat)
    requires Unique(m) && HitsAt(m, o, m', v)
    ensures Unique(m') && MarksAfter(m, Use(o), m')
  {
    hide ProbeAt;
    assert IsCached(m, o);
  }

  lemma {:induction false} MissMarks(m: Marks, o: nat, m': Marks, k: nat)
    requires Unique(m) && MissesAt(m, o, m', k)
    ensures Unique(m') && MarksAfter(m, Use(o), m')
  {
    var n, h := |m.status|, StartHand(m.hand, |m.status|);
    var v := ProbeAt(h, k, n);
    forall i: nat | i < n
      ensures m'.status[i] == Empty ==> i != v && m.status[i] == Empty
      ensures i != v && m'.status[i] != Empty ==> m.status[i] != Empty
      ensures m'.status[i] == Used <==> IsUsed(m, Use(o), m', i) || (m.status[i] == Used && !IsPassed(m, Use(o), m', i))
    {
      MissEntry(m, o, m', k, i);
    }
  }

  lemma {:induction false} MissEntry(m: Marks, o: nat, m': Marks, k: nat, i: nat)
    requires MissesAt(m, o, m', k) && i < |m.status|
    ensures var v := ProbeAt(StartHand(m.hand, |m.status|), k, |m.status|);
      && (m'.status[i] == Empty ==> i != v && m.status[i] == Empty)
      && (i != v && m'.status[i] != Empty ==> m.status[i] != Empty)
      && (m'.status[i] == Used <==> IsUsed(m, Use(o), m', i) || (m.status[i] == Used && !IsPassed(m, Use(o), m', i)))
  {
    var n, h := |m.status|, StartHand(m.hand, |m.status|);
    var j := ProbesCover(h, i, n);
    var v := ProbeAt(h, k, n);
    assert !InCache(m.status, m.offset, o);
    assert IsPassed(m, Use(o), m', i) <==> j < k by { PassedIs(m, o, m', k, i, j); }
  }

  /** Entry i, which is probe j, is passed if that is one of the first k probes. */
  lemma {:induction false} PassedIs(m: Marks, o: nat, m': Marks, k: nat, i: nat, j: nat)
    requires MissesAt(m, o, m', k) && i < |m.status| && j < |m.status|
    requires ProbeAt(StartHand(m.hand, |m.status|), j, |m.status|) == i
    ensures IsPassed(m, Use(o), m', i) <==> j < k
  {
    var n, h := |m.status|, StartHand(m.hand, |m.status|);
    if IsPassed(m, Use(o), m', i) {
      var l: nat :| h + l + 1 < m'.hand && ProbeAt(h, l, n) == i;
      if l < j { ProbesDiffer(h, l, j, n); }
      if j < l < n { ProbesDiffer(h, j, l, n); }
    }
  }

  lemma {:induction false} CutMarks(m: Marks, n: nat, m': Marks)
    requires Unique(m) && Cuts(m, n, m')
    ensures Unique(m') && MarksAfter(m, Cut(n), m')
  {}

  lemma {:induction false} StepMarks(m: Marks, e: Event, m': Marks)
    requires Unique(m) && Takes(m, e, m')
    ensures Unique(m') && MarksAfter(m, e, m')
  {
    hide Unique, MarksAfter, HitsAt, MissesAt, Cuts;
    match e
    case Use(o) =>
      if Hits(m, o, m') {
        var v: nat :| HitsAt(m, o, m', v);
        HitMarks(m, o, m', v);
      } else {
        var k: nat :| MissesAt(m, o, m', k);
        MissMarks(m, o, m', k);
      }
    case Cut(n) => CutMarks(m, n, m');
  }

  // ----- A run -----

  lemma {:induction false} RecentNext(ms: seq<Marks>, es: seq<Event>, i: nat)
    requires |ms| == |es| + 1 && es != []
    ensures var z := |es| - 1;
      Recent(ms, es, i) <==>
        IsUsed(ms[z], es[z], ms[z + 1], i)
        || (Recent(ms[..|ms| - 1], es[..z], i) && !IsPassed(ms[z], es[z], ms[z + 1], i) && !IsCut(ms[z], es[z], ms[z + 1], i))
  {
    hide IsUsed, IsPassed, IsCut;
    var z := |es| - 1;
    var ms0, es0 := ms[..|ms| - 1], es[..z];
    if Recent(ms, es, i) {
      var a: nat :| UsedSince(ms, es, a, i);
      if a < z {
        assert UsedSince(ms0, es0, a, i) by {
          forall b: nat | a < b < z ensures !IsPassed(ms0[b], es0[b], ms0[b + 1], i) && !IsCut(ms0[b], es0[b], ms0[b + 1], i) {
            assert ms0[b] == ms[b] && es0[b] == es[b] && ms0[b + 1] == ms[b + 1];
          }
        }
      }
    }
    if IsUsed(ms[z], es[z], ms[z + 1], i) { assert UsedSince(ms, es, z, i); }
    if Recent(ms0, es0, i) && !IsPassed(ms[z], es[z], ms[z + 1], i) && !IsCut(ms[z], es[z], ms[z + 1], i) {
      var a: nat :| UsedSince(ms0, es0, a, i);
      assert UsedSince(ms, es, a, i) by {
        forall b: nat | a < b < |es| ensures !IsPassed(ms[b], es[b], ms[b + 1], i) && !IsCut(ms[b], es[b], ms[b + 1], i) {
          if b < z { assert ms0[b] == ms[b] && es0[b] == es[b] && ms0[b + 1] == ms[b + 1]; }
        }
      }
    }
  }

  /** Over any run, an entry is marked exactly if it was used since the hand last passed it (or since it was last emptied). */
  lemma {:induction false} MarkedIsRecent(ms: seq<Marks>, es: seq<Event>)
    requires IsRun(ms, es)
    ensures Unique(ms[|es|]) && |ms[|es|].status| == |ms[0].status|
    ensures forall i: nat :: i < |ms[0].status| ==> (ms[|es|].status[i] == Used <==> Recent(ms, es, i))
    decreases |es|
  {
    hide Takes, Recent, IsUsed, IsPassed, IsCut;
    if es == [] {
      forall i: nat ensures !Recent(ms, es, i) { NothingUsed(ms, i); }
    } else {
      var z := |es| - 1;
      var ms0, es0 := ms[..|ms| - 1], es[..z];
      assert IsRun(ms0, es0) by {
        forall a: nat | a < z ensures Takes(ms0[a], es0[a], ms0[a + 1]) {
          assert ms0[a] == ms[a] && es0[a] == es[a] && ms0[a + 1] == ms[a + 1];
        }
      }
      MarkedIsRecent(ms0, es0);
      StepMarks(ms[z], es[z], ms[z + 1]);
      forall i: nat | i < |ms[0].status| ensures ms[|es|].status[i] == Used <==> Recent(ms, es, i) {
        RecentNext(ms, es, i);
      }
    }
  }

  lemma NothingUsed(ms: seq<Marks>, i: nat)
    requires |ms| == 1
    ensures !Recent(ms, [], i)
  {}

  /** The entry that a missing block takes was not used since the hand last passed it, unless all were. */
  lemma {:induction false} VictimIsNotRecent(ms: seq<Marks>, es: seq<Event>, o: nat, m': Marks, k: nat)
    requires IsRun(ms, es) && MissesAt(ms[|es|], o, m', k)
    ensures var m := ms[|es|]; var v := ProbeAt(StartHand(m.hand, |m.status|), k, |m.status|);
      && m'.offset == m.offset[v := o] && (forall i: nat :: i < |m.status| && i != v ==> m'.offset[i] == m.offset[i])
      && (Recent(ms, es, v) ==> forall i: nat :: i < |m.status| ==> Recent(ms, es, i))
  {
    hide Takes, Recent;
    var m := ms[|es|];
    MarkedIsRecent(ms, es);
    var n, h := |m.status|, StartHand(m.hand, |m.status|);
    if Recent(ms, es, ProbeAt(h, k, n)) {
      forall i: nat | i < n ensures m.status[i] == Used {
        var j := ProbesCover(h, i, n);
      }
    }
  }
}
