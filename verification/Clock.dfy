/** A write-through CLOCK cache over a block device. */
module Clock {
  import opened Blocks
  import opened BlockDevice
  import Index

  datatype Status = Empty | Unused | Used

  /** The entry that the k-th probe looks at when the hand starts at h. */
  ghost function ProbeAt(h: nat, k: nat, n: nat): (i: nat)
    requires n >= 1
    ensures i < n
  {
    (h + k) % n
  }

  /** The first n probes look at every entry once. */
  lemma ProbesDiffer(h: nat, j: nat, k: nat, n: nat)
    requires n >= 1 && h <= n && j < k < n
    ensures ProbeAt(h, j, n) != ProbeAt(h, k, n)
  {
    ProbeValue(h, j, n);
    ProbeValue(h, k, n);
  }

  lemma ProbeValue(h: nat, k: nat, n: nat)
    requires n >= 1 && h <= n && k <= n
    ensures ProbeAt(h, k, n) == if h + k < n then h + k else if h + k < 2 * n then h + k - n else 0
  {
    var x := h + k;
    if x < n {
      Index.DivUnique(x, n, 0, x);
    } else if x < 2 * n {
      Index.DivUnique(x, n, 1, x - n);
    } else {
      Index.DivUnique(x, n, 2, 0);
    }
  }

  lemma ProbesCover(h: nat, i: nat, n: nat) returns (k: nat)
    requires n >= 1 && h <= n && i < n
    ensures k < n && ProbeAt(h, k, n) == i
  {
    k := if h == n then i else if i >= h then i - h else i + n - h;
    ProbeValue(h, k, n);
  }

  /** Second chance: from hand h, the first k entries were recently used, entry k was not
      (or all n were, and k == n comes back to the first). */
  ghost predicate IsVictim(was: seq<Status>, h: nat, k: nat)
    requires |was| >= 1
  {
    && k <= |was|
    && (forall j :: 0 <= j < k ==> was[ProbeAt(h, j, |was|)] == Used)
    && (k < |was| ==> was[ProbeAt(h, k, |was|)] != Used)
  }

  /** ... the k passed entries lose their mark, the victim gains one, the others keep theirs. */
  ghost predicate Aged(was: seq<Status>, now: seq<Status>, h: nat, k: nat)
    requires |was| == |now| >= 1
  {
    forall j :: 0 <= j < |was| ==>
      now[ProbeAt(h, j, |was|)] ==
        if ProbeAt(h, j, |was|) == ProbeAt(h, k, |was|) then Used
        else if j < k then Unused
        else was[ProbeAt(h, j, |was|)]
  }

  /** The victim and the marks left behind are determined by the marks before. */
  lemma SecondChanceUnique(was: seq<Status>, a: seq<Status>, b: seq<Status>, h: nat, k: nat, l: nat)
    requires |was| == |a| == |b| >= 1 && h <= |was|
    requires IsVictim(was, h, k) && Aged(was, a, h, k)
    requires IsVictim(was, h, l) && Aged(was, b, h, l)
    ensures k == l && a == b
  {
    forall i | 0 <= i < |was| ensures a[i] == b[i] {
      var j := ProbesCover(h, i, |was|);
    }
  }

  /** The state of the marks when k entries have been passed and none was taken yet. */
  ghost predicate Passed(was: seq<Status>, now: seq<Status>, h: nat, k: nat)
    requires |was| == |now| >= 1
  {
    && (forall j :: 0 <= j < k ==> was[ProbeAt(h, j, |was|)] == Used)
    && (forall j :: 0 <= j < |was| ==>
          now[ProbeAt(h, j, |was|)] == if j < k then Unused else was[ProbeAt(h, j, |was|)])
  }

  lemma PassOne(was: seq<Status>, now: seq<Status>, h: nat, k: nat)
    requires |was| == |now| >= 1 && h <= |was| && k <= |was|
    requires Passed(was, now, h, k) && now[ProbeAt(h, k, |was|)] == Used
    ensures k < |was|
    ensures Passed(was, now[ProbeAt(h, k, |was|) := Unused], h, k + 1)
  {
    var n := |was|;
    ProbeValue(h, 0, n);
    ProbeValue(h, n, n);
    assert n > 0 && k >= 1 ==> now[ProbeAt(h, 0, n)] == Unused;
    forall j | 0 <= j < n && j != k ensures ProbeAt(h, j, n) != ProbeAt(h, k, n) {
      if j < k { ProbesDiffer(h, j, k, n); } else { ProbesDiffer(h, k, j, n); }
    }
  }

  lemma TakeOne(was: seq<Status>, now: seq<Status>, h: nat, k: nat)
    requires |was| == |now| >= 1 && h <= |was| && k <= |was|
    requires Passed(was, now, h, k) && now[ProbeAt(h, k, |was|)] != Used
    ensures IsVictim(was, h, k)
    ensures Aged(was, now[ProbeAt(h, k, |was|) := Used], h, k)
    ensures forall i :: 0 <= i < |was| ==> (now[i] == Empty <==> was[i] == Empty)
  {
    forall i | 0 <= i < |was| ensures now[i] == Empty <==> was[i] == Empty {
      var j := ProbesCover(h, i, |was|);
    }
  }

  /** The hand at the start of a search. */
  function StartHand(hand: nat, n: nat): (h: nat)
    requires n >= 1
    ensures h <= n
  {
    if hand > n then hand % n else hand
  }

  /** Every entry in use holds what the store below holds, and no block is cached twice. */
  ghost predicate Coherent(status: seq<Status>, offset: seq<nat>, cache: seq<Block>, store: seq<Block>)
    requires |status| == |offset| == |cache|
  {
    && (forall i :: 0 <= i < |status| && status[i] != Empty ==>
          offset[i] < |store| && cache[i] == store[offset[i]])
    && (forall i, j :: 0 <= i < j < |status| && status[i] != Empty && status[j] != Empty ==>
          offset[i] != offset[j])
  }

  ghost predicate InCache(status: seq<Status>, offset: seq<nat>, o: nat)
    requires |status| == |offset|
  {
    exists i :: 0 <= i < |status| && status[i] != Empty && offset[i] == o
  }

  lemma AgingKeepsCoherent(was: seq<Status>, now: seq<Status>, offset: seq<nat>, cache: seq<Block>, store: seq<Block>)
    requires |was| == |now| == |offset| == |cache|
    requires forall i :: 0 <= i < |was| ==> (now[i] == Empty <==> was[i] == Empty)
    requires Coherent(was, offset, cache, store)
    ensures Coherent(now, offset, cache, store)
    ensures forall o :: InCache(now, offset, o) <==> InCache(was, offset, o)
  {}

  lemma InstallKeepsCoherent(status: seq<Status>, offset: seq<nat>, cache: seq<Block>, store: seq<Block>, v: nat, o: nat)
    requires |status| == |offset| == |cache| && v < |status| && o < |store|
    requires Coherent(status, offset, cache, store) && !InCache(status, offset, o)
    ensures Coherent(status[v := Used], offset[v := o], cache[v := store[o]], store)
    ensures InCache(status[v := Used], offset[v := o], o)
  {
    assert status[v := Used][v] != Empty && offset[v := o][v] == o;
  }

  /** The store and the entry that caches the block change together. */
  lemma WriteThroughHit(status: seq<Status>, offset: seq<nat>, cache: seq<Block>, store: seq<Block>, i: nat, o: nat, b: Block)
    requires |status| == |offset| == |cache| && i < |status| && o < |store|
    requires Coherent(status, offset, cache, store) && status[i] != Empty && offset[i] == o
    ensures Coherent(status, offset, cache[i := b], store[o := b]) && InCache(status, offset, o)
  {}

  lemma WriteThroughMiss(status: seq<Status>, offset: seq<nat>, cache: seq<Block>, store: seq<Block>, o: nat, b: Block)
    requires |status| == |offset| == |cache| && o < |store|
    requires Coherent(status, offset, cache, store) && !InCache(status, offset, o)
    ensures Coherent(status, offset, cache, store[o := b])
  {}

  // ----- What a call does to the marks -----

  /** Which blocks are cached where, which of them were recently used, and the hand */
  datatype Marks = Marks(status: seq<Status>, offset: seq<nat>, hand: nat)

  ghost predicate IsCached(m: Marks, o: nat) {
    |m.status| == |m.offset| && InCache(m.status, m.offset, o)
  }

  /** Block o is cached in entry i: that entry is marked as used, and nothing else changes. */
  ghost predicate HitsAt(m: Marks, o: nat, m': Marks, i: nat) {
    i < |m.status| == |m.offset| && m.status[i] != Empty && m.offset[i] == o && m' == m.(status := m.status[i := Used])
  }

  ghost predicate Hits(m: Marks, o: nat, m': Marks) {
    exists i: nat :: HitsAt(m, o, m', i)
  }

  /** Block o is not cached: k entries are passed and lose their marks, and it takes the place of the next. */
  ghost predicate MissesAt(m: Marks, o: nat, m': Marks, k: nat) {
    && |m.status| == |m.offset| == |m'.status| >= 1 && !IsCached(m, o) && k <= |m.status|
    && var n, h := |m.status|, StartHand(m.hand, |m.status|);
    && m'.hand == h + k + 1 && IsVictim(m.status, h, k) && Aged(m.status, m'.status, h, k)
    && m'.offset == m.offset[ProbeAt(h, k, n) := o]
  }

  ghost predicate Misses(m: Marks, o: nat, m': Marks) {
    exists k: nat :: MissesAt(m, o, m', k)
  }

  /** The entries of blocks from n on become empty. */
  ghost predicate Cuts(m: Marks, n: nat, m': Marks) {
    && |m'.status| == |m.status| == |m.offset| && m'.offset == m.offset && m'.hand == m.hand
    && forall i :: 0 <= i < |m.status| ==> m'.status[i] == if m.status[i] != Empty && m.offset[i] >= n then Empty else m.status[i]
  }

  class ClockDisk {
    const below: Device
    const cache: array<Block>      // memory for caching blocks
    const status: array<Status>    // per cached block
    const offset: array<nat>       // the block cached there, unless Empty
    var clockHand: nat

    ghost function Repr(): set<object> {
      {this, below, below.blocks, cache, status, offset}
    }

    ghost predicate Shape()
      reads this, below
    {
      && below.Valid()
      && cache.Length == status.Length == offset.Length >= 1
      && cache != below.blocks
      && clockHand <= 2 * cache.Length + 1
    }

    ghost predicate Valid()
      reads Repr()
    {
      && Shape()
      && Coherent(status[..], offset[..], cache[..], Store())
    }

    ghost function Store(): seq<Block>
      requires below.Valid()
      reads below, below.blocks
    {
      below.Store()
    }

    ghost function MarksNow(): Marks
      reads this, status, offset
    {
      Marks(status[..], offset[..], clockHand)
    }

    ghost predicate Cached(o: nat)
      requires Shape()
      reads this, below, status, offset
    {
      InCache(status[..], offset[..], o)
    }

    constructor (below: Device, chunk: array<Block>)
      requires below.Valid() && chunk.Length >= 1 && chunk != below.blocks
      ensures Valid() && this.below == below && cache == chunk
      ensures fresh(status) && fresh(offset)
      ensures clockHand == 0 && forall i :: 0 <= i < chunk.Length ==> status[i] == Empty
    {
      this.below := below;
      this.cache := chunk;
      this.status := new Status[chunk.Length](_ => Empty);
      this.offset := new nat[chunk.Length](_ => 0);
      this.clockHand := 0;
    }

    /** Find an entry that was not recently used and put the block there.  At most
        cache.Length + 1 probes are made: k entries are passed and the next one is taken. */
    method CacheUpdate(o: nat, block: Block) returns (ghost k: nat)
      requires Valid() && !Cached(o)
      requires o < below.nblocks && block == below.blocks[o]
      modifies this, cache, status, offset
      ensures Valid() && Cached(o)
      ensures k <= cache.Length
      ensures var h := StartHand(old(clockHand), cache.Length);
        && clockHand == h + k + 1
        && IsVictim(old(status[..]), h, k)
        && Aged(old(status[..]), status[..], h, k)
        && var v := ProbeAt(h, k, cache.Length);
           offset[..] == old(offset[..])[v := o] && cache[..] == old(cache[..])[v := block]
    {
      ghost var was, of, ca, st := status[..], offset[..], cache[..], Store();
      var i;
      i, k := FindVictim();
      ghost var now := status[..];
      AgingKeepsCoherent(was, now, of, ca, st);
      InstallKeepsCoherent(now, of, ca, st, i, o);
      status[i] := Used;
      offset[i] := o;
      cache[i] := block;
      assert status[..] == now[i := Used] && offset[..] == of[i := o] && cache[..] == ca[i := block];
      clockHand := clockHand + 1;
    }

    /** The search loop of cache_update. */
    method FindVictim() returns (i: nat, ghost k: nat)
      requires Shape()
      modifies this`clockHand, status
      ensures Shape() && i < cache.Length && k <= cache.Length
      ensures var h := StartHand(old(clockHand), cache.Length);
        && clockHand == h + k
        && i == ProbeAt(h, k, cache.Length)
        && IsVictim(old(status[..]), h, k)
        && Aged(old(status[..]), status[..][i := Used], h, k)
      ensures forall j :: 0 <= j < cache.Length ==> (status[..][j] == Empty <==> old(status[..])[j] == Empty)
    {
      var n := cache.Length;
      if clockHand > n {
        clockHand := clockHand % n;
      }
      ghost var h, was := clockHand, status[..];
      k := 0;
      while status[clockHand % n] == Used
        invariant k <= n && clockHand == h + k
        invariant Passed(was, status[..], h, k)
        decreases n - k
      {
        ghost var now := status[..];
        PassOne(was, now, h, k);
        status[clockHand % n] := Unused;
        assert status[..] == now[ProbeAt(h, k, n) := Unused];
        clockHand := clockHand + 1;
        k := k + 1;
      }
      i := clockHand % n;
      TakeOne(was, status[..], h, k);
    }

    method NBlocks() returns (n: nat)
      requires Valid()
      ensures n == |Store()|
    {
      n := below.nblocks;
    }

    method SetSize(n: nat) returns (ok: bool, before: nat)
      requires Valid() && n <= below.blocks.Length
      modifies status, below`nblocks
      ensures Valid()
      ensures ok ==> before == old(below.nblocks) && below.nblocks == n
      ensures !ok ==> below.nblocks == old(below.nblocks)
      ensures below.reliable ==> ok
      ensures Cuts(old(MarksNow()), n, MarksNow())
      ensures forall o: nat :: Cached(o) <==> old(Cached(o)) && o < n
    {
      for i := 0 to cache.Length
        invariant below.nblocks == old(below.nblocks)
        invariant forall j :: 0 <= j < cache.Length ==>
          status[j] == if j < i && old(status[j]) != Empty && offset[j] >= n then Empty else old(status[j])
      {
        if status[i] != Empty && offset[i] >= n {
          status[i] := Empty;
        }
      }
      ok, before := below.SetSize(n);
      forall o: nat ensures Cached(o) <==> old(Cached(o)) && o < n {
        if Cached(o) {
          var i :| 0 <= i < cache.Length && status[i] != Empty && offset[i] == o;
          assert old(status[i]) != Empty;
        }
        if old(Cached(o)) && o < n {
          var i :| 0 <= i < cache.Length && old(status[i]) != Empty && offset[i] == o;
          assert status[i] != Empty;
        }
      }
    }

    /** The entry that caches block o, or cache.Length: the loop at the start of clockdisk_read
        and clockdisk_write. */
    method Find(o: nat) returns (i: nat)
      requires Valid()
      ensures i <= cache.Length
      ensures i < cache.Length ==> status[i] != Empty && offset[i] == o
      ensures i < cache.Length <==> Cached(o)
    {
      i := 0;
      while i < cache.Length && !(offset[i] == o && status[i] != Empty)
        invariant i <= cache.Length
        invariant forall j :: 0 <= j < i ==> !(offset[j] == o && status[j] != Empty)
      {
        i := i + 1;
      }
      assert i < cache.Length ==> status[..][i] != Empty && offset[..][i] == o;
    }

    /** A cached read returns what the store below holds, and never fails on a hit. */
    method Read(o: nat) returns (ok: bool, block: Block)
      requires Valid()
      modifies this, cache, status, offset
      ensures Valid() && Store() == old(Store())
      ensures ok ==> o < |Store()| && block == Store()[o] && Cached(o)
      ensures old(Cached(o)) || (below.reliable && o < |Store()|) ==> ok
      ensures old(Cached(o)) ==> Hits(old(MarksNow()), o, MarksNow())
      ensures !old(Cached(o)) && ok ==> Misses(old(MarksNow()), o, MarksNow())
      ensures !ok ==> MarksNow() == old(MarksNow()) && cache[..] == old(cache[..])
    {
      hide InCache, IsVictim, Aged, ProbeAt;
      ghost var m := MarksNow();
      var i := Find(o);
      if i < cache.Length {
        MarkUsed(i);
        assert HitsAt(m, o, MarksNow(), i);
        return true, cache[i];
      }
      ok, block := below.Read(o);
      if !ok {
        return;
      }
      ghost var k := CacheUpdate(o, block);
      assert MissesAt(m, o, MarksNow(), k);
    }

    /** binfo[i].status = BI_USED, on a hit */
    method MarkUsed(i: nat)
      requires Valid() && i < cache.Length && status[i] != Empty
      modifies status
      ensures Valid() && Cached(offset[i])
      ensures status[..] == old(status[..])[i := Used]
    {
      ghost var was := status[..];
      status[i] := Used;
      AgingKeepsCoherent(was, status[..], offset[..], cache[..], Store());
      assert status[..][i] != Empty;
    }

    /** A write goes to the store first; the cache follows only if the store took it. */
    method Write(o: nat, block: Block) returns (ok: bool)
      requires Valid()
      modifies this, cache, status, offset, below.blocks
      ensures Valid()
      ensures ok ==> o < old(|Store()|) && Store() == old(Store())[o := block] && Cached(o)
      ensures !ok ==> Store() == old(Store()) && cache[..] == old(cache[..])
      ensures below.reliable ==> ok == (o < |Store()|)
      ensures old(Cached(o)) ==> Hits(old(MarksNow()), o, MarksNow())
      ensures !old(Cached(o)) && ok ==> Misses(old(MarksNow()), o, MarksNow())
      ensures !old(Cached(o)) && !ok ==> MarksNow() == old(MarksNow())
    {
      hide InCache, IsVictim, Aged, ProbeAt, Coherent;
      ghost var m := MarksNow();
      var i := Find(o);
      if i < cache.Length {
        MarkUsed(i);
        assert HitsAt(m, o, MarksNow(), i);
      }
      ghost var st, of, ca, store := status[..], offset[..], cache[..], Store();
      ok := below.Write(o, block);
      if !ok {
        return;
      }
      if i == cache.Length {
        WriteThroughMiss(st, of, ca, store, o, block);
        ghost var k := CacheUpdate(o, block);
        assert MissesAt(m, o, MarksNow(), k);
      } else {
        WriteThroughHit(st, of, ca, store, i, o, block);
        cache[i] := block;
        assert cache[..] == ca[i := block];
      }
    }
  }
}
