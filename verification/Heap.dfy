/** The layout of the user heap: headers and blocks in one array of bytes. */
module Heap {
  import opened Blocks
  import opened ByteStrings

  const PAGESIZE: nat := 4096
  const HDR: nat := 16       // sizeof(struct m_hdr)

  datatype Status = LAST | FREE | INUSE

  function Code(s: Status): Word {
    match s case LAST => 0 case FREE => 1 case INUSE => 2
  }

  // ----- Headers in memory -----

  /** The fields of a struct m_hdr: three words; the fourth is not used. */
  datatype Rec = Rec(size: Word, prev: Word, status: Word)

  function WordAt(m: seq<Byte>, a: nat): Word
    requires a + 4 <= |m|
  {
    BytesWord(m[a..a + 4])
  }

  function RecAt(m: seq<Byte>, a: nat): Rec
    requires a + HDR <= |m|
  {
    Rec(WordAt(m, a), WordAt(m, a + 4), WordAt(m, a + 8))
  }

  /** Memory m with word w at address a. */
  function PutWord(m: seq<Byte>, a: nat, w: Word): (m': seq<Byte>)
    requires a + 4 <= |m|
    ensures |m'| == |m|
    ensures forall i :: 0 <= i < |m| && !(a <= i < a + 4) ==> m'[i] == m[i]
  {
    m[..a] + WordBytes(w) + m[a + 4..]
  }

  lemma BytesOfWord(w: Word)
    ensures BytesWord(WordBytes(w)) == w
  {
    var a: nat := w / 256;
    var b: nat := a / 256;
    assert w == w % 256 + 256 * a && a == a % 256 + 256 * b && b == b % 256 + 256 * (b / 256);
  }

  lemma PutWordAt(m: seq<Byte>, a: nat, w: Word, b: nat)
    requires a + 4 <= |m| && b + 4 <= |m| && (b == a || b + 4 <= a || a + 4 <= b)
    ensures WordAt(PutWord(m, a, w), b) == if b == a then w else WordAt(m, b)
  {
    BytesOfWord(w);
    var m' := PutWord(m, a, w);
    if b == a {
      assert m'[a..a + 4] == WordBytes(w);
    } else {
      assert m'[b..b + 4] == m[b..b + 4];
    }
  }

  /** m' is m with header r at address a. */
  ghost predicate HdrSet(m: seq<Byte>, m': seq<Byte>, a: nat, r: Rec) {
    && |m'| == |m| && a + HDR <= |m| && RecAt(m', a) == r
    && (forall i :: 0 <= i < |m| && !(a <= i < a + HDR) ==> m'[i] == m[i])
    && (forall b: nat {:trigger RecAt(m', b)} {:trigger RecAt(m, b)} :: b + HDR <= |m| && Apart(a, b) ==> RecAt(m', b) == RecAt(m, b))
  }

  ghost predicate Apart(a: nat, b: nat) {
    a + HDR <= b || b + HDR <= a
  }

  lemma FieldSet(m: seq<Byte>, a: nat, field: nat, w: Word)
    requires a + HDR <= |m| && field in {0, 4, 8}
    ensures HdrSet(m, PutWord(m, a + field, w), a,
                   match field
                   case 0 => RecAt(m, a).(size := w)
                   case 4 => RecAt(m, a).(prev := w)
                   case _ => RecAt(m, a).(status := w))
  {
    hide BytesWord, WordAt;
    var m' := PutWord(m, a + field, w);
    forall b: nat | b + HDR <= |m| && Apart(a, b) ensures RecAt(m', b) == RecAt(m, b) {
      PutWordAt(m, a + field, w, b);
      PutWordAt(m, a + field, w, b + 4);
      PutWordAt(m, a + field, w, b + 8);
    }
    PutWordAt(m, a + field, w, a);
    PutWordAt(m, a + field, w, a + 4);
    PutWordAt(m, a + field, w, a + 8);
  }

  // ----- The sequence of headers -----

  /** A header at address addr and the block behind it. */
  datatype Hdr = Hdr(addr: nat, size: nat, status: Status) {
    ghost function End(): nat { addr + HDR + size }
    ghost function Payload(): nat { addr + HDR }
  }

  ghost predicate HdrOk(h: Hdr) {
    h.size % 16 == 0 && (h.status == LAST ==> h.size == 0)
  }

  /** Header h is followed directly by header g. */
  ghost predicate Follows(h: Hdr, g: Hdr) {
    g.addr == h.End() && h.status != LAST && !(h.status == FREE && g.status == FREE)
  }

  /** The headers tile the heap from base to the last header, and no two free blocks are adjacent. */
  ghost predicate Tiles(base: nat, hs: seq<Hdr>) {
    && |hs| >= 1 && hs[0].addr == base && hs[|hs| - 1].status == LAST
    && (forall k :: 0 <= k < |hs| ==> HdrOk(hs[k]))
    && (forall k {:trigger Linked(hs, k)} :: 0 < k < |hs| ==> Linked(hs, k))
  }

  ghost predicate Linked(hs: seq<Hdr>, k: nat)
    requires 0 < k < |hs|
  {
    Follows(hs[k - 1], hs[k])
  }

  ghost function PrevSize(hs: seq<Hdr>, k: nat): nat
    requires k <= |hs|
  {
    if k == 0 then 0 else hs[k - 1].size
  }

  ghost predicate IsRec(m: seq<Byte>, h: Hdr, prev: nat) {
    && h.addr + HDR <= |m| && h.size < WORD_LIMIT && prev < WORD_LIMIT
    && RecAt(m, h.addr) == Rec(h.size, prev, Code(h.status))
  }

  /** Each header is in memory, with the size of the block before it. */
  ghost predicate InMemory(m: seq<Byte>, hs: seq<Hdr>) {
    forall k {:trigger Stored(m, hs, k)} :: 0 <= k < |hs| ==> Stored(m, hs, k)
  }

  ghost predicate Stored(m: seq<Byte>, hs: seq<Hdr>, k: nat)
    requires k < |hs|
  {
    IsRec(m, hs[k], PrevSize(hs, k))
  }

  ghost predicate HeapOk(m: seq<Byte>, base: nat, hs: seq<Hdr>) {
    Tiles(base, hs) && InMemory(m, hs) && base % 16 == 0 && |m| <= WORD_LIMIT
  }

  lemma {:induction false} Ordered(base: nat, hs: seq<Hdr>, j: nat, k: nat)
    requires Tiles(base, hs) && j < k < |hs|
    ensures hs[j].End() <= hs[k].addr
    decreases k
  {
    assert Linked(hs, k);
    if j < k - 1 { Ordered(base, hs, j, k - 1); }
  }

  /** Two headers are apart, and no header lies in the block of another. */
  lemma {:induction false} HeadersApart(base: nat, hs: seq<Hdr>)
    requires Tiles(base, hs)
    ensures forall j, k :: 0 <= j < k < |hs| ==> hs[j].End() <= hs[k].addr
  {
    forall j, k | 0 <= j < k < |hs| ensures hs[j].End() <= hs[k].addr { Ordered(base, hs, j, k); }
  }

  // ----- Replacing a stretch of the heap -----

  /** hs with headers i .. j replaced by mid. */
  ghost function Splice(hs: seq<Hdr>, i: nat, j: nat, mid: seq<Hdr>): seq<Hdr>
    requires i <= j <= |hs|
  {
    hs[..i] + mid + hs[j..]
  }

  /** mid fits in the gap that headers i .. j leave. */
  ghost predicate Fits(hs: seq<Hdr>, i: nat, j: nat, mid: seq<Hdr>)
    requires i < j <= |hs|
  {
    && |mid| >= 1 && mid[0].addr == hs[i].addr
    && (forall k :: 0 <= k < |mid| ==> HdrOk(mid[k]))
    && (forall k {:trigger Linked(mid, k)} :: 0 < k < |mid| ==> Linked(mid, k))
    && (i > 0 ==> Follows(hs[i - 1], mid[0]))
    && (if j < |hs| then Follows(mid[|mid| - 1], hs[j]) else mid[|mid| - 1].status == LAST)
  }

  lemma {:induction false} SpliceTiles(base: nat, hs: seq<Hdr>, i: nat, j: nat, mid: seq<Hdr>)
    requires Tiles(base, hs) && i < j <= |hs| && Fits(hs, i, j, mid)
    ensures Tiles(base, Splice(hs, i, j, mid))
  {
    hide Follows, HdrOk;
    var t, n := Splice(hs, i, j, mid), |mid|;
    forall k | 0 < k < |t| ensures Linked(t, k) {
      if k < i {
        assert Linked(hs, k) && t[k] == hs[k] && t[k - 1] == hs[k - 1];
      } else if k < i + n {
        assert t[k] == mid[k - i];
        assert k > i ==> Linked(mid, k - i) && t[k - 1] == mid[k - i - 1];
      } else {
        assert t[k] == hs[k - i - n + j];
        assert k > i + n ==> Linked(hs, k - i - n + j) && t[k - 1] == hs[k - i - n + j - 1];
      }
    }
  }

  ghost function MidPrev(hs: seq<Hdr>, i: nat, mid: seq<Hdr>, k: nat): nat
    requires i <= |hs| && k <= |mid|
  {
    if k == 0 then PrevSize(hs, i) else mid[k - 1].size
  }

  /** Memory m' holds mid where m held headers i .. j, the size of its last block in the next
      header, and the other headers as before. */
  ghost predicate Spliced(m: seq<Byte>, m': seq<Byte>, hs: seq<Hdr>, i: nat, j: nat, mid: seq<Hdr>)
    requires i < j <= |hs| && |mid| >= 1
  {
    && (forall k :: 0 <= k < |mid| ==> IsRec(m', mid[k], MidPrev(hs, i, mid, k)))
    && (j < |hs| ==> IsRec(m', hs[j], mid[|mid| - 1].size))
    && (forall k :: (0 <= k < i || j < k < |hs|) && hs[k].addr + HDR <= |m| ==>
          hs[k].addr + HDR <= |m'| && RecAt(m', hs[k].addr) == RecAt(m, hs[k].addr))
  }

  lemma {:induction false} SpliceInMemory(m: seq<Byte>, m': seq<Byte>, hs: seq<Hdr>, i: nat, j: nat, mid: seq<Hdr>)
    requires i < j <= |hs| && |mid| >= 1 && InMemory(m, hs) && Spliced(m, m', hs, i, j, mid)
    ensures InMemory(m', Splice(hs, i, j, mid))
  {
    hide IsRec;
    var t, n := Splice(hs, i, j, mid), |mid|;
    forall k | 0 <= k < |t| ensures Stored(m', t, k) {
      if k < i {
        assert Stored(m, hs, k);
        assert t[k] == hs[k] && PrevSize(t, k) == PrevSize(hs, k);
        SameRec(m, m', hs[k], PrevSize(hs, k));
      } else if k < i + n {
        assert t[k] == mid[k - i] && (k > 0 ==> t[k - 1] == if k == i then hs[i - 1] else mid[k - i - 1]);
        assert PrevSize(t, k) == MidPrev(hs, i, mid, k - i);
      } else {
        var l := k - i - n + j;
        assert t[k] == hs[l] && t[k - 1] == if l == j then mid[n - 1] else hs[l - 1];
        assert PrevSize(t, k) == if l == j then mid[n - 1].size else PrevSize(hs, l);
        if l > j {
          assert Stored(m, hs, l);
          SameRec(m, m', hs[l], PrevSize(hs, l));
        }
      }
    }
  }

  lemma SameRec(m: seq<Byte>, m': seq<Byte>, h: Hdr, prev: nat)
    requires IsRec(m, h, prev)
    requires h.addr + HDR <= |m| ==> h.addr + HDR <= |m'| && RecAt(m', h.addr) == RecAt(m, h.addr)
    ensures IsRec(m', h, prev)
  {}

  lemma {:induction false} SpliceOk(m: seq<Byte>, m': seq<Byte>, base: nat, hs: seq<Hdr>, i: nat, j: nat, mid: seq<Hdr>)
    requires HeapOk(m, base, hs) && i < j <= |hs| && Fits(hs, i, j, mid) && Spliced(m, m', hs, i, j, mid) && |m'| <= WORD_LIMIT
    ensures HeapOk(m', base, Splice(hs, i, j, mid))
  {
    SpliceTiles(base, hs, i, j, mid);
    SpliceInMemory(m, m', hs, i, j, mid);
  }
}
