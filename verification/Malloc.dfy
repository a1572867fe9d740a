/** A first-fit allocator with boundary tags. */
module Malloc {
  import opened Blocks
  import opened ByteStrings
  import opened Heap

  /** size rounded up to a multiple of 16 */
  function RoundUp(size: nat): (r: nat)
    ensures size <= r < size + 16 && r % 16 == 0
  {
    (size + 15) / 16 * 16
  }

  // ----- What the calls do to the headers -----

  /** The first header from i on that is free and large enough for r bytes, or the last header. */
  ghost function FirstFit(hs: seq<Hdr>, r: nat, i: nat): (k: nat)
    requires i < |hs|
    ensures i <= k < |hs|
    ensures k < |hs| - 1 ==> hs[k].status == FREE && hs[k].size >= r
    ensures forall j :: i <= j < k ==> !(hs[j].status == FREE && hs[j].size >= r)
    decreases |hs| - i
  {
    if i == |hs| - 1 || (hs[i].status == FREE && hs[i].size >= r) then i else FirstFit(hs, r, i + 1)
  }

  /** The block of header h cut in two: r bytes in use and the rest free. */
  ghost function Cut(h: Hdr, r: nat): seq<Hdr>
    requires h.size == r || h.size >= r + HDR
  {
    if h.size == r then [Hdr(h.addr, r, INUSE)]
    else [Hdr(h.addr, r, INUSE), Hdr(h.addr + HDR + r, h.size - r - HDR, FREE)]
  }

  ghost function Place(hs: seq<Hdr>, i: nat, r: nat): seq<Hdr>
    requires i < |hs| && (hs[i].size == r || hs[i].size >= r + HDR)
  {
    Splice(hs, i, i + 1, Cut(hs[i], r))
  }

  /** Where the heap is extended: at the last header, or at a free block before it. */
  ghost function Tail(hs: seq<Hdr>): (j: nat)
    requires |hs| >= 1
    ensures j < |hs|
  {
    if |hs| > 1 && hs[|hs| - 2].status == FREE then |hs| - 2 else |hs| - 1
  }

  /** A free block of size bytes at address a, and the last header. */
  ghost function Fresh(a: nat, size: nat): seq<Hdr> {
    [Hdr(a, size, FREE), Hdr(a + HDR + size, 0, LAST)]
  }

  ghost function Grown(hs: seq<Hdr>, r: nat): (t: seq<Hdr>)
    requires |hs| >= 1
    ensures |t| == Tail(hs) + 2 && t[Tail(hs)] == Hdr(hs[Tail(hs)].addr, r + PAGESIZE - HDR, FREE)
  {
    Splice(hs, Tail(hs), |hs|, Fresh(hs[Tail(hs)].addr, r + PAGESIZE - HDR))
  }

  ghost predicate Found(hs: seq<Hdr>, r: nat)
    requires |hs| >= 1
  {
    FirstFit(hs, r, 0) < |hs| - 1
  }

  /** The headers with room for r bytes, and which header has that room. */
  ghost function Roomy(hs: seq<Hdr>, r: nat): seq<Hdr>
    requires |hs| >= 1
  {
    if Found(hs, r) then hs else Grown(hs, r)
  }

  ghost function Chosen(hs: seq<Hdr>, r: nat): (i: nat)
    requires |hs| >= 1
    ensures i < |Roomy(hs, r)|
  {
    if Found(hs, r) then FirstFit(hs, r, 0) else Tail(hs)
  }

  /** Sizes are multiples of 16, so a free block that is larger than needed can be split. */
  lemma FitsOrSplits(base: nat, hs: seq<Hdr>, i: nat, r: nat)
    requires Tiles(base, hs) && i < |hs| && hs[i].size >= r && r % 16 == 0
    ensures hs[i].size == r || hs[i].size >= r + HDR
  {
    assert HdrOk(hs[i]);
  }

  lemma {:induction false} ChosenFits(base: nat, hs: seq<Hdr>, r: nat)
    requires Tiles(base, hs) && r % 16 == 0
    ensures var h := Roomy(hs, r)[Chosen(hs, r)];
      h.status == FREE && (h.size == r || h.size >= r + HDR) && Chosen(hs, r) < |Roomy(hs, r)| - 1
  {
    if Found(hs, r) { FitsOrSplits(base, hs, FirstFit(hs, r, 0), r); }
  }

  /** m_alloc of r bytes, a multiple of 16 */
  ghost function AllocHs(base: nat, hs: seq<Hdr>, r: nat): seq<Hdr>
    requires Tiles(base, hs) && r % 16 == 0
  {
    ChosenFits(base, hs, r);
    Place(Roomy(hs, r), Chosen(hs, r), r)
  }

  /** The stretch of blocks that freeing block i joins. */
  ghost function JoinLow(hs: seq<Hdr>, i: nat): (lo: nat)
    requires i < |hs|
    ensures lo <= i
  {
    if i > 0 && hs[i - 1].status == FREE then i - 1 else i
  }

  ghost function JoinHigh(hs: seq<Hdr>, i: nat): (hi: nat)
    requires i < |hs| - 1
    ensures i < hi <= |hs|
  {
    if hs[i + 1].status == FREE then i + 2 else i + 1
  }

  /** m_free of block i */
  ghost function FreeHs(hs: seq<Hdr>, i: nat): seq<Hdr>
    requires i < |hs| - 1 && JoinHigh(hs, i) < |hs|
    requires hs[JoinLow(hs, i)].addr + HDR <= hs[JoinHigh(hs, i)].addr
  {
    var lo, hi := JoinLow(hs, i), JoinHigh(hs, i);
    Splice(hs, lo, hi, [Hdr(hs[lo].addr, hs[hi].addr - hs[lo].addr - HDR, FREE)])
  }

  // ----- Live blocks -----

  /** The n bytes at p have been handed out and not been freed. */
  ghost predicate Live(hs: seq<Hdr>, p: nat, n: nat) {
    exists k :: 0 <= k < |hs| && IsLive(hs[k], p, n)
  }

  ghost predicate IsLive(h: Hdr, p: nat, n: nat) {
    h.status == INUSE && h.Payload() == p && h.size == n
  }

  /** Live blocks do not overlap. */
  lemma {:induction false} LiveDisjoint(base: nat, hs: seq<Hdr>, p: nat, n: nat, q: nat, k: nat)
    requires Tiles(base, hs) && Live(hs, p, n) && Live(hs, q, k)
    ensures (p == q && n == k) || p + n + HDR <= q || q + k + HDR <= p
  {
    HeadersApart(base, hs);
  }

  lemma SpliceLive(hs: seq<Hdr>, i: nat, j: nat, mid: seq<Hdr>, p: nat, n: nat)
    requires i <= j <= |hs|
    ensures Live(Splice(hs, i, j, mid), p, n) <==> Live(hs[..i], p, n) || Live(mid, p, n) || Live(hs[j..], p, n)
    ensures Live(hs, p, n) <==> Live(hs[..i], p, n) || Live(hs[i..j], p, n) || Live(hs[j..], p, n)
  {
    LiveConcat(hs[..i], mid, p, n);
    LiveConcat(hs[..i] + mid, hs[j..], p, n);
    LiveConcat(hs[..i], hs[i..j], p, n);
    LiveConcat(hs[..i] + hs[i..j], hs[j..], p, n);
    assert hs[..i] + hs[i..j] + hs[j..] == hs;
  }

  lemma LiveConcat(a: seq<Hdr>, b: seq<Hdr>, p: nat, n: nat)
    ensures Live(a + b, p, n) <==> Live(a, p, n) || Live(b, p, n)
  {
    if k :| 0 <= k < |a| && IsLive(a[k], p, n) { assert (a + b)[k] == a[k]; }
    if k :| 0 <= k < |b| && IsLive(b[k], p, n) { assert (a + b)[|a| + k] == b[k]; }
  }

  lemma NoneLive(hs: seq<Hdr>, p: nat, n: nat)
    requires forall k :: 0 <= k < |hs| ==> hs[k].status != INUSE
    ensures !Live(hs, p, n)
  {}

  /** Allocation hands out one new block and keeps the others. */
  lemma {:induction false} AllocLive(base: nat, hs: seq<Hdr>, r: nat, p: nat, n: nat)
    requires Tiles(base, hs) && r % 16 == 0
    ensures Live(AllocHs(base, hs, r), p, n) <==>
      Live(hs, p, n) || (p == Roomy(hs, r)[Chosen(hs, r)].Payload() && n == r)
  {
    hide Live, Splice, Cut, Chosen, Roomy, FirstFit;
    ChosenFits(base, hs, r);
    var t, i := Roomy(hs, r), Chosen(hs, r);
    SpliceLive(t, i, i + 1, Cut(t[i], r), p, n);
    assert t[i..i + 1] == [t[i]];
    NoneLive([t[i]], p, n);
    CutLive(t[i], r, p, n);
    RoomyLive(base, hs, r, p, n);
  }

  lemma {:induction false} RoomyLive(base: nat, hs: seq<Hdr>, r: nat, p: nat, n: nat)
    requires Tiles(base, hs)
    ensures Live(Roomy(hs, r), p, n) <==> Live(hs, p, n)
  {
    hide Live, Splice, FirstFit;
    if !Found(hs, r) {
      var j := Tail(hs);
      SpliceLive(hs, j, |hs|, Fresh(hs[j].addr, r + PAGESIZE - HDR), p, n);
      assert hs[j..|hs|] == hs[j..];
      NoneLive(hs[j..], p, n);
      NoneLive(hs[|hs|..], p, n);
      NoneLive(Fresh(hs[j].addr, r + PAGESIZE - HDR), p, n);
    }
  }

  lemma CutLive(h: Hdr, r: nat, p: nat, n: nat)
    requires h.size == r || h.size >= r + HDR
    ensures Live(Cut(h, r), p, n) <==> p == h.Payload() && n == r
  {
    assert Cut(h, r)[0] == Hdr(h.addr, r, INUSE);
  }

  lemma {:induction false} JoinBounds(base: nat, hs: seq<Hdr>, i: nat)
    requires Tiles(base, hs) && i < |hs| && hs[i].status == INUSE
    ensures i < |hs| - 1 && JoinHigh(hs, i) < |hs|
    ensures hs[JoinLow(hs, i)].addr + HDR <= hs[JoinHigh(hs, i)].addr
  {
    HeadersApart(base, hs);
  }

  /** Freeing gives back one block and keeps the others. */
  lemma {:induction false} FreeLive(base: nat, hs: seq<Hdr>, i: nat, p: nat, n: nat)
    requires Tiles(base, hs) && i < |hs| && hs[i].status == INUSE
    ensures JoinHigh(hs, i) < |hs| && hs[JoinLow(hs, i)].addr + HDR <= hs[JoinHigh(hs, i)].addr && i < |hs| - 1
    ensures Live(FreeHs(hs, i), p, n) <==> Live(hs, p, n) && p != hs[i].Payload()
  {
    hide Live, Splice, Tiles;
    JoinBounds(base, hs, i);
    var lo, hi := JoinLow(hs, i), JoinHigh(hs, i);
    var f := [Hdr(hs[lo].addr, hs[hi].addr - hs[lo].addr - HDR, FREE)];
    SpliceLive(hs, lo, hi, f, p, n);
    NoneLive(f, p, n);
    OnlyLive(hs, lo, hi, i, p, n);
    if Live(hs[..lo], p, n) || Live(hs[hi..], p, n) { ElsewhereLive(base, hs, lo, hi, i, p, n); }
  }

  lemma OnlyLive(hs: seq<Hdr>, lo: nat, hi: nat, i: nat, p: nat, n: nat)
    requires lo <= i < hi <= |hs| && hs[i].status == INUSE && forall k :: lo <= k < hi && k != i ==> hs[k].status != INUSE
    ensures Live(hs[lo..hi], p, n) <==> IsLive(hs[i], p, n)
  {
    assert hs[lo..hi][i - lo] == hs[i];
  }

  lemma {:induction false} ElsewhereLive(base: nat, hs: seq<Hdr>, lo: nat, hi: nat, i: nat, p: nat, n: nat)
    requires Tiles(base, hs) && lo <= i < hi <= |hs| && (Live(hs[..lo], p, n) || Live(hs[hi..], p, n))
    ensures p != hs[i].Payload()
  {
    if k :| 0 <= k < |hs[..lo]| && IsLive(hs[..lo][k], p, n) {
      Ordered(base, hs, k, i);
    } else {
      var k :| 0 <= k < |hs[hi..]| && IsLive(hs[hi..][k], p, n);
      Ordered(base, hs, i, hi + k);
    }
  }

  // ----- What the calls do to memory -----

  /** No byte of a live block has changed. */
  ghost predicate SamePayloads(m: seq<Byte>, m': seq<Byte>, hs: seq<Hdr>) {
    && |m'| == |m|
    && forall k, x: nat :: 0 <= k < |hs| && hs[k].status == INUSE && hs[k].Payload() <= x < hs[k].End() && x < |m| ==> m'[x] == m[x]
  }

  /** A header at address a lies in no live block. */
  ghost predicate Away(hs: seq<Hdr>, a: nat) {
    forall k :: 0 <= k < |hs| && hs[k].status == INUSE ==> hs[k].End() <= a || a + HDR <= hs[k].Payload()
  }

  lemma {:induction false} AwayFromHeader(base: nat, hs: seq<Hdr>, i: nat)
    requires Tiles(base, hs) && i < |hs|
    ensures Away(hs, hs[i].addr)
  {
    HeadersApart(base, hs);
  }

  /** ... nor does one in a free block or behind the last header. */
  lemma {:induction false} AwayInFree(base: nat, hs: seq<Hdr>, i: nat, a: nat)
    requires Tiles(base, hs) && i < |hs| && hs[i].status != INUSE && hs[i].addr <= a
    requires i == |hs| - 1 || a + HDR <= hs[i].End()
    ensures Away(hs, a)
  {
    HeadersApart(base, hs);
  }

  lemma SetKeeps(m: seq<Byte>, m': seq<Byte>, a: nat, r: Rec, hs: seq<Hdr>)
    requires HdrSet(m, m', a, r) && Away(hs, a)
    ensures SamePayloads(m, m', hs)
  {}

  lemma SameTrans(m: seq<Byte>, m': seq<Byte>, m'': seq<Byte>, hs: seq<Hdr>)
    requires SamePayloads(m, m', hs) && SamePayloads(m', m'', hs)
    ensures SamePayloads(m, m'', hs)
  {}

  ghost predicate Kept(m: seq<Byte>, m': seq<Byte>, base: nat, hs: seq<Hdr>, hs': seq<Hdr>) {
    HeapOk(m', base, hs') && SamePayloads(m, m', hs)
  }

  /** The block fits exactly. */
  lemma {:induction false} TakeWhole(m: seq<Byte>, m': seq<Byte>, base: nat, hs: seq<Hdr>, i: nat)
    requires HeapOk(m, base, hs) && i < |hs| - 1 && hs[i].status == FREE && hs[i].size < WORD_LIMIT && PrevSize(hs, i) < WORD_LIMIT
    requires HdrSet(m, m', hs[i].addr, Rec(hs[i].size, PrevSize(hs, i), Code(INUSE)))
    ensures Kept(m, m', base, hs, Place(hs, i, hs[i].size))
  {
    hide Tiles, Away, SamePayloads, RecAt;
    AwayFromHeader(base, hs, i);
    SetKeeps(m, m', hs[i].addr, Rec(hs[i].size, PrevSize(hs, i), Code(INUSE)), hs);
    HeadersApart(base, hs);
    assert Stored(m, hs, i) && Stored(m, hs, i + 1);
    CutFits(base, hs, i, hs[i].size);
    SpliceOk(m, m', base, hs, i, i + 1, Cut(hs[i], hs[i].size));
  }

  /** The block is cut in two. */
  lemma {:induction false} TakePart(m: seq<Byte>, m1: seq<Byte>, m2: seq<Byte>, m3: seq<Byte>, base: nat, hs: seq<Hdr>, i: nat, r: Word)
    requires HeapOk(m, base, hs) && i < |hs| - 1 && hs[i].status == FREE && r % 16 == 0 && r + HDR <= hs[i].size < WORD_LIMIT
    requires PrevSize(hs, i) < WORD_LIMIT
    requires HdrSet(m, m1, hs[i].addr + HDR + r, Rec(hs[i].size - r - HDR, r, Code(FREE)))
    requires hs[i + 1].addr + HDR <= |m|
    requires HdrSet(m1, m2, hs[i + 1].addr, RecAt(m1, hs[i + 1].addr).(prev := hs[i].size - r - HDR))
    requires HdrSet(m2, m3, hs[i].addr, Rec(r, PrevSize(hs, i), Code(INUSE)))
    ensures Kept(m, m3, base, hs, Place(hs, i, r))
  {
    hide RecAt, HdrSet, Tiles, Away, SamePayloads, IsRec;
    AwayInFree(base, hs, i, hs[i].addr + HDR + r);
    AwayFromHeader(base, hs, i);
    AwayFromHeader(base, hs, i + 1);
    SetKeeps(m, m1, hs[i].addr + HDR + r, Rec(hs[i].size - r - HDR, r, Code(FREE)), hs);
    SetKeeps(m1, m2, hs[i + 1].addr, RecAt(m1, hs[i + 1].addr).(prev := hs[i].size - r - HDR), hs);
    SetKeeps(m2, m3, hs[i].addr, Rec(r, PrevSize(hs, i), Code(INUSE)), hs);
    SameTrans(m, m1, m2, hs);
    SameTrans(m, m2, m3, hs);
    PartSpliced(m, m1, m2, m3, base, hs, i, r);
    CutFits(base, hs, i, r);
    SpliceOk(m, m3, base, hs, i, i + 1, Cut(hs[i], r));
  }

  lemma {:induction false} CutFits(base: nat, hs: seq<Hdr>, i: nat, r: nat)
    requires Tiles(base, hs) && i < |hs| - 1 && hs[i].status == FREE
    requires hs[i].size == r || (hs[i].size >= r + HDR && r % 16 == 0)
    ensures Fits(hs, i, i + 1, Cut(hs[i], r))
  {
    assert Linked(hs, i + 1) && (i > 0 ==> Linked(hs, i));
    assert HdrOk(hs[i]);
  }

  lemma {:induction false} PartSpliced(m: seq<Byte>, m1: seq<Byte>, m2: seq<Byte>, m3: seq<Byte>, base: nat, hs: seq<Hdr>, i: nat, r: Word)
    requires HeapOk(m, base, hs) && i < |hs| - 1 && hs[i].status == FREE && r % 16 == 0 && r + HDR <= hs[i].size < WORD_LIMIT
    requires PrevSize(hs, i) < WORD_LIMIT
    requires HdrSet(m, m1, hs[i].addr + HDR + r, Rec(hs[i].size - r - HDR, r, Code(FREE)))
    requires hs[i + 1].addr + HDR <= |m|
    requires HdrSet(m1, m2, hs[i + 1].addr, RecAt(m1, hs[i + 1].addr).(prev := hs[i].size - r - HDR))
    requires HdrSet(m2, m3, hs[i].addr, Rec(r, PrevSize(hs, i), Code(INUSE)))
    ensures Spliced(m, m3, hs, i, i + 1, Cut(hs[i], r))
  {
    hide RecAt;
    HeadersApart(base, hs);
    var a, o, next, mid := hs[i].addr, hs[i].addr + HDR + r, hs[i + 1].addr, Cut(hs[i], r);
    assert Linked(hs, i + 1);
    assert Stored(m, hs, i + 1);
    assert Apart(a, o) && Apart(a, next) && Apart(next, o);
    forall k | (0 <= k < i || i + 1 < k < |hs|) && hs[k].addr + HDR <= |m|
      ensures RecAt(m3, hs[k].addr) == RecAt(m, hs[k].addr)
    {
      assert Apart(a, hs[k].addr) && Apart(next, hs[k].addr) && Apart(o, hs[k].addr);
    }
  }

  /** The heap is extended. */
  lemma {:induction false} GrowOk(m: seq<Byte>, m1: seq<Byte>, m2: seq<Byte>, base: nat, hs: seq<Hdr>, r: nat)
    requires HeapOk(m, base, hs) && r % 16 == 0 && r + PAGESIZE < WORD_LIMIT && PrevSize(hs, Tail(hs)) < WORD_LIMIT
    requires HdrSet(m, m1, hs[Tail(hs)].addr, Rec(r + PAGESIZE - HDR, PrevSize(hs, Tail(hs)), Code(FREE)))
    requires HdrSet(m1, m2, hs[Tail(hs)].addr + r + PAGESIZE, Rec(0, r + PAGESIZE - HDR, Code(LAST)))
    ensures Kept(m, m2, base, hs, Grown(hs, r))
  {
    hide RecAt, Away;
    var j := Tail(hs);
    var a, mid := hs[j].addr, Fresh(hs[j].addr, r + PAGESIZE - HDR);
    AwayFromHeader(base, hs, j);
    TailIsLast(base, hs);
    BehindLast(base, hs, a + r + PAGESIZE);
    SetKeeps(m, m1, a, Rec(r + PAGESIZE - HDR, PrevSize(hs, j), Code(FREE)), hs);
    SetKeeps(m1, m2, a + r + PAGESIZE, Rec(0, r + PAGESIZE - HDR, Code(LAST)), hs);
    SameTrans(m, m1, m2, hs);
    HeadersApart(base, hs);
    assert Apart(a, a + r + PAGESIZE);
    assert Spliced(m, m2, hs, j, |hs|, mid);
    SpliceOk(m, m2, base, hs, j, |hs|, mid);
  }

  lemma {:induction false} TailIsLast(base: nat, hs: seq<Hdr>)
    requires Tiles(base, hs)
    ensures Tail(hs) > 0 ==> hs[Tail(hs) - 1].status == INUSE && Linked(hs, Tail(hs))
  {
    assert |hs| > 1 ==> Linked(hs, |hs| - 1);
    assert |hs| > 2 ==> Linked(hs, |hs| - 2);
    assert |hs| > 1 ==> HdrOk(hs[|hs| - 2]);
  }

  /** Behind the block at the tail there is nothing but the last header. */
  lemma {:induction false} BehindLast(base: nat, hs: seq<Hdr>, a: nat)
    requires Tiles(base, hs) && hs[Tail(hs)].addr + HDR <= a
    ensures Away(hs, a)
  {
    HeadersApart(base, hs);
  }

  /** The first free block. */
  lemma {:induction false} StartOk(m: seq<Byte>, m1: seq<Byte>, m2: seq<Byte>, base: nat)
    requires |m| <= WORD_LIMIT && base % 16 == 0
    requires HdrSet(m, m1, base, Rec(PAGESIZE - HDR, 0, Code(FREE)))
    requires HdrSet(m1, m2, base + PAGESIZE, Rec(0, PAGESIZE - HDR, Code(LAST)))
    ensures HeapOk(m2, base, Fresh(base, PAGESIZE - HDR))
  {
    hide RecAt;
    assert Apart(base, base + PAGESIZE);
    var hs := Fresh(base, PAGESIZE - HDR);
    assert PrevSize(hs, 0) == 0 && PrevSize(hs, 1) == PAGESIZE - HDR;
    assert RecAt(m2, base) == RecAt(m1, base);
    forall k | 0 <= k < |hs| ensures Stored(m2, hs, k) {
      assert k == 0 || k == 1;
    }
  }

  // ----- Freeing -----

  /** The headers outside lo .. hi and all live blocks are as they were. */
  ghost predicate OthersKept(m: seq<Byte>, m': seq<Byte>, hs: seq<Hdr>, lo: nat, hi: nat)
    requires lo <= |hs|
  {
    && SamePayloads(m, m', hs)
    && forall k :: (0 <= k < lo || hi < k < |hs|) && hs[k].addr + HDR <= |m| ==> RecAt(m', hs[k].addr) == RecAt(m, hs[k].addr)
  }

  lemma {:induction false} SetWithin(m: seq<Byte>, m': seq<Byte>, m'': seq<Byte>, base: nat, hs: seq<Hdr>, lo: nat, hi: nat, k: nat, r: Rec)
    requires Tiles(base, hs) && lo <= k <= hi < |hs| && OthersKept(m, m', hs, lo, hi) && HdrSet(m', m'', hs[k].addr, r)
    ensures OthersKept(m, m'', hs, lo, hi)
  {
    hide RecAt;
    AwayFromHeader(base, hs, k);
    SetKeeps(m', m'', hs[k].addr, r, hs);
    SameTrans(m, m', m'', hs);
    HeadersApart(base, hs);
    forall j | (0 <= j < lo || hi < j < |hs|) && hs[j].addr + HDR <= |m| ensures RecAt(m'', hs[j].addr) == RecAt(m, hs[j].addr) {
      assert Apart(hs[k].addr, hs[j].addr);
    }
  }

  /** The size of the block that headers lo .. hi join to. */
  ghost function JoinedSize(hs: seq<Hdr>, lo: nat, hi: nat): nat
    requires lo < hi < |hs| && hs[lo].addr + HDR <= hs[hi].addr
  {
    hs[hi].addr - hs[lo].addr - HDR
  }

  /** Blocks lo .. hi are one block with the given status. */
  ghost predicate Joined(m: seq<Byte>, m': seq<Byte>, hs: seq<Hdr>, lo: nat, hi: nat, status: Status)
    requires lo < hi < |hs| && hs[lo].addr + HDR <= hs[hi].addr
  {
    && OthersKept(m, m', hs, lo, hi)
    && IsRec(m', Hdr(hs[lo].addr, JoinedSize(hs, lo, hi), status), PrevSize(hs, lo))
    && IsRec(m', hs[hi], JoinedSize(hs, lo, hi))
  }

  lemma {:induction false} FreeOk(m: seq<Byte>, m': seq<Byte>, base: nat, hs: seq<Hdr>, i: nat)
    requires HeapOk(m, base, hs) && i < |hs| && hs[i].status == INUSE
    requires JoinHigh(hs, i) < |hs| && i < |hs| - 1 && hs[JoinLow(hs, i)].addr + HDR <= hs[JoinHigh(hs, i)].addr
    requires Joined(m, m', hs, JoinLow(hs, i), JoinHigh(hs, i), FREE)
    ensures Kept(m, m', base, hs, FreeHs(hs, i))
  {
    hide RecAt;
    var lo, hi := JoinLow(hs, i), JoinHigh(hs, i);
    var mid := [Hdr(hs[lo].addr, JoinedSize(hs, lo, hi), FREE)];
    JoinFits(base, hs, i);
    assert Spliced(m, m', hs, lo, hi, mid);
    SpliceOk(m, m', base, hs, lo, hi, mid);
  }

  lemma {:induction false} JoinFits(base: nat, hs: seq<Hdr>, i: nat)
    requires Tiles(base, hs) && i < |hs| && hs[i].status == INUSE
    requires JoinHigh(hs, i) < |hs| && i < |hs| - 1 && hs[JoinLow(hs, i)].addr + HDR <= hs[JoinHigh(hs, i)].addr
    ensures var lo, hi := JoinLow(hs, i), JoinHigh(hs, i);
      Fits(hs, lo, hi, [Hdr(hs[lo].addr, JoinedSize(hs, lo, hi), FREE)])
  {
    var lo, hi := JoinLow(hs, i), JoinHigh(hs, i);
    assert Linked(hs, i + 1) && Linked(hs, hi) && (i > 0 ==> Linked(hs, i)) && (lo > 0 ==> Linked(hs, lo));
    assert HdrOk(hs[i]) && HdrOk(hs[i + 1]) && HdrOk(hs[lo]);
  }

  lemma {:induction false} JoinedSizeOf(base: nat, hs: seq<Hdr>, lo: nat, hi: nat)
    requires Tiles(base, hs) && lo < hi < |hs|
    ensures hs[lo].addr + HDR <= hs[hi].addr
    ensures hi == lo + 1 ==> JoinedSize(hs, lo, hi) == hs[lo].size
    ensures lo + 1 < hi ==> hs[lo + 1].addr + HDR <= hs[hi].addr && JoinedSize(hs, lo, hi) == hs[lo].size + HDR + JoinedSize(hs, lo + 1, hi)
  {
    Ordered(base, hs, lo, hi);
    assert Linked(hs, lo + 1);
    if lo + 1 < hi { Ordered(base, hs, lo + 1, hi); }
  }
}
