/** Bytes in blocks, and byte strings that read as zeros beyond their end. */
module ByteStrings {
  import opened Blocks
  import Index
  import opened TreeFS

  type Byte = b: nat | b < 256

  /** BLOCK_SIZE, in bytes */
  const BS: nat := 4 * R

  // ----- The bytes of a block, words in little-endian order -----

  function WordBytes(w: Word): (s: seq<Byte>)
    ensures |s| == 4
  {
    [w % 256, w / 256 % 256, w / 256 / 256 % 256, w / 256 / 256 / 256]
  }

  function BytesWord(s: seq<Byte>): (w: Word)
    requires |s| == 4
    ensures WordBytes(w) == s
  {
    var b0: nat, b1: nat, b2: nat, b3: nat := s[0], s[1], s[2], s[3];
    SplitByte(b0, b1 + 256 * (b2 + 256 * b3));
    SplitByte(b1, b2 + 256 * b3);
    SplitByte(b2, b3);
    b0 + 256 * (b1 + 256 * (b2 + 256 * b3))
  }

  lemma SplitByte(b: nat, q: nat)
    requires b < 256
    ensures (b + 256 * q) % 256 == b && (b + 256 * q) / 256 == q
  {}

  function WordsBytes(ws: seq<Word>): (s: seq<Byte>)
    ensures |s| == 4 * |ws|
  {
    if ws == [] then [] else WordBytes(ws[0]) + WordsBytes(ws[1..])
  }

  function {:induction false} BytesWords(s: seq<Byte>): (ws: seq<Word>)
    requires |s| % 4 == 0
    ensures 4 * |ws| == |s| && WordsBytes(ws) == s
  {
    if s == [] then [] else
      var w, rest := BytesWord(s[..4]), BytesWords(s[4..]);
      assert ([w] + rest)[1..] == rest && s == s[..4] + s[4..];
      [w] + rest
  }

  function BlockBytes(b: Block): (s: seq<Byte>)
    ensures |s| == BS
  {
    WordsBytes(b)
  }

  function BytesBlock(s: seq<Byte>): (b: Block)
    requires |s| == BS
    ensures BlockBytes(b) == s
  {
    BytesWords(s)
  }

  lemma {:induction false} ZeroWords(ws: seq<Word>)
    requires forall i :: 0 <= i < |ws| ==> ws[i] == 0
    ensures forall i :: 0 <= i < |WordsBytes(ws)| ==> WordsBytes(ws)[i] == 0
  {
    if ws != [] { ZeroWords(ws[1..]); }
  }

  // ----- Byte strings -----

  /** Byte i; a string goes on with zeros beyond its end. */
  function At(s: seq<Byte>, i: nat): Byte {
    if i < |s| then s[i] else 0
  }

  /** s with x at position a. */
  function Overlay(s: seq<Byte>, a: nat, x: seq<Byte>): (t: seq<Byte>)
    ensures |t| == if a + |x| > |s| then a + |x| else |s|
    ensures forall i: nat :: At(t, i) == if a <= i < a + |x| then x[i - a] else At(s, i)
  {
    seq(if a + |x| > |s| then a + |x| else |s|, i requires 0 <= i => if a <= i < a + |x| then x[i - a] else At(s, i))
  }

  lemma {:induction false} SameBytes(s: seq<Byte>, t: seq<Byte>)
    requires |s| == |t| && forall i: nat :: i < |s| ==> At(s, i) == At(t, i)
    ensures s == t
  {
    forall i | 0 <= i < |s| ensures s[i] == t[i] {
      assert At(s, i) == At(t, i);
    }
  }

  lemma {:induction false} OverlayTwice(s: seq<Byte>, a: nat, x: seq<Byte>, y: seq<Byte>)
    requires x != []
    ensures Overlay(Overlay(s, a, x), a + |x|, y) == Overlay(s, a, x + y)
  {
    SameBytes(Overlay(Overlay(s, a, x), a + |x|, y), Overlay(s, a, x + y));
  }

  // ----- Positions: block number and offset in the block -----

  /** k blocks, in bytes: k * BS */
  function Span(k: nat): nat {
    if k == 0 then 0 else Span(k - 1) + BS
  }

  lemma {:induction false} SpanIsProduct(k: nat)
    ensures Span(k) == k * BS
  {
    if k > 0 {
      SpanIsProduct(k - 1);
      assert k * BS == (k - 1) * BS + BS;
    }
  }

  lemma {:induction false} SpanMonotone(j: nat, k: nat)
    requires j <= k
    ensures Span(j) <= Span(k)
    ensures j < k ==> Span(j) + BS <= Span(k)
    decreases k
  {
    if j < k { SpanMonotone(j, k - 1); }
  }

  lemma {:induction false} SpanAdds(j: nat, k: nat)
    ensures Span(j + k) == Span(j) + Span(k)
  {
    if k > 0 { SpanAdds(j, k - 1); }
  }

  /** i / BLOCK_SIZE */
  function BlockOf(i: nat): (b: nat)
    ensures Span(b) <= i < Span(b) + BS
  {
    SpanOfQuotient(i);
    i / BS
  }

  lemma RefsBoundsBS()
    ensures BS >= 16
  {
    RefsBounds();
  }

  lemma SpanOfQuotient(i: nat)
    ensures BS >= 1 && i / BS >= 0 && Span(i / BS) + i % BS == i && i % BS < BS
  {
    RefsBoundsBS();
    var q, r := Index.DivMod(i, BS);
    SpanIsProduct(q);
    Index.MulCommutes(BS, q);
  }

  /** i % BLOCK_SIZE */
  function PosOf(i: nat): (p: nat)
    ensures p < BS && i == Span(BlockOf(i)) + p
  {
    SpanOfQuotient(i);
    i % BS
  }

  lemma {:induction false} BlockOfUnique(i: nat, b: nat)
    requires Span(b) <= i < Span(b) + BS
    ensures BlockOf(i) == b
  {
    if b < BlockOf(i) { SpanMonotone(b, BlockOf(i)); }
    if BlockOf(i) < b { SpanMonotone(BlockOf(i), b); }
  }

  lemma {:induction false} BlockOfMonotone(i: nat, j: nat)
    requires i <= j
    ensures BlockOf(i) <= BlockOf(j)
  {
    if BlockOf(j) < BlockOf(i) { SpanMonotone(BlockOf(j), BlockOf(i)); }
  }

  // ----- The bytes of a file of blocks -----

  function Flat(f: seq<Block>): (s: seq<Byte>)
    ensures |s| == Span(|f|)
  {
    if f == [] then [] else Flat(f[..|f| - 1]) + BlockBytes(f[|f| - 1])
  }

  lemma {:induction false} FlatAt(f: seq<Block>, o: nat, p: nat)
    requires o < |f| && p < BS
    ensures Span(o) + p < |Flat(f)| && Flat(f)[Span(o) + p] == BlockBytes(f[o])[p]
  {
    SpanMonotone(o, |f|);
    if o < |f| - 1 {
      FlatAt(f[..|f| - 1], o, p);
    }
  }

  lemma {:induction false} FlatAtFlat(f: seq<Block>, i: nat)
    ensures At(Flat(f), i) == if BlockOf(i) < |f| then BlockBytes(f[BlockOf(i)])[PosOf(i)] else 0
  {
    hide Flat, WordsBytes, BlockBytes, BlockOf, PosOf, Span;
    var o := BlockOf(i);
    if o < |f| {
      FlatAt(f, o, PosOf(i));
    } else {
      SpanMonotone(|f|, o);
    }
  }

  /** A block written into a file, in bytes. */
  lemma {:induction false} FlatWrite(f: seq<Block>, o: nat, b: Block)
    ensures Flat(WriteAt(f, o, b)) == Overlay(Flat(f), Span(o), BlockBytes(b))
  {
    hide Flat, WordsBytes, BlockOf, PosOf, Span, At;
    var g, t := WriteAt(f, o, b), Overlay(Flat(f), Span(o), BlockBytes(b));
    if o + 1 <= |f| { SpanMonotone(o + 1, |f|); } else { SpanMonotone(|f|, o + 1); }
    SpanNext(o);
    assert |Flat(g)| == |t|;
    forall i: nat | i < |t| ensures At(Flat(g), i) == At(t, i) {
      FlatWriteAt(f, o, b, i);
    }
    SameBytes(Flat(g), t);
  }

  lemma {:induction false} SpanNext(o: nat)
    ensures Span(o + 1) == Span(o) + BS
  {}

  lemma {:induction false} FlatWriteAt(f: seq<Block>, o: nat, b: Block, i: nat)
    ensures At(Flat(WriteAt(f, o, b)), i)
         == if Span(o) <= i < Span(o) + BS then BlockBytes(b)[i - Span(o)] else At(Flat(f), i)
  {
    hide Flat, WordsBytes, BlockOf, PosOf, Span, At;
    FlatAtFlat(f, i);
    FlatAtFlat(WriteAt(f, o, b), i);
    ZeroWords(NullBlock());
    if Span(o) <= i < Span(o) + BS { BlockOfUnique(i, o); }
  }

  /** Some blocks of a file, in bytes. */
  lemma {:induction false} FlatSlice(f: seq<Block>, lo: nat, hi: nat)
    requires lo <= hi <= |f|
    ensures Span(lo) <= Span(hi) <= |Flat(f)| && Flat(f[lo..hi]) == Flat(f)[Span(lo)..Span(hi)]
  {
    hide Flat, Span, At;
    SpanMonotone(lo, hi);
    SpanMonotone(hi, |f|);
    SpanAdds(lo, hi - lo);
    SameSlice(f, f[lo..hi], lo, hi);
  }

  lemma {:induction false} SameSlice(f: seq<Block>, g: seq<Block>, lo: nat, hi: nat)
    requires lo <= hi <= |f| && g == f[lo..hi]
    requires Span(lo) <= Span(hi) <= |Flat(f)| && |Flat(g)| == Span(hi) - Span(lo)
    ensures Flat(g) == Flat(f)[Span(lo)..Span(hi)]
  {
    hide Flat, Span, At;
    var s, t, a := Flat(f), Flat(g), Span(lo);
    SpanAdds(lo, hi - lo);
    forall i: nat | i < |t| ensures t[i] == s[a + i] {
      FlatSliceAt(f, lo, hi, i);
      AtInside(t, i);
      AtInside(s, a + i);
    }
  }

  lemma {:induction false} AtInside(s: seq<Byte>, i: nat)
    requires i < |s|
    ensures At(s, i) == s[i]
  {}

  lemma {:induction false} FlatSliceAt(f: seq<Block>, lo: nat, hi: nat, i: nat)
    requires lo <= hi <= |f| && i < Span(hi - lo)
    ensures At(Flat(f[lo..hi]), i) == At(Flat(f), Span(lo) + i)
  {
    hide Flat, WordsBytes, BlockBytes, BlockOf, PosOf, Span, At;
    var b := BlockOf(i);
    FlatAtFlat(f[lo..hi], i);
    FlatAtFlat(f, Span(lo) + i);
    SpanAdds(lo, b);
    BlockOfUnique(Span(lo) + i, lo + b);
    if b >= hi - lo { SpanMonotone(hi - lo, b); }
  }
}
