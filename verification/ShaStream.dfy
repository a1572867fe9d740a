/** Hashing a message that arrives in pieces. */
module ShaStream {
  import opened ShaWords
  import opened ShaBlock
  import Index

  type Message = seq<bv8>

  // ----- FIPS 180-2 -----

  /** The initial hash value of section 5.3.2 */
  const H0: Regs := Regs(0x6A09_E667, 0xBB67_AE85, 0x3C6E_F372, 0xA54F_F53A, 0x510E_527F, 0x9B05_688C, 0x1F83_D9AB, 0x5BE0_CD19)

  /** The hash value after all the whole blocks of m */
  function Absorb(s: Regs, m: Message): Regs
    decreases |m|
  {
    if |m| < 64 then s else Absorb(Compress(s, m[..64]), m[64..])
  }

  function Zeros(n: nat): Message {
    seq(n, i => 0)
  }

  /** A 64-bit number, most significant byte first */
  function LengthBytes(n: nat): (s: Message)
    requires n < 0x1_0000_0000_0000_0000
    ensures |s| == 8
  {
    [ByteOf(n / 0x100_0000_0000_0000), ByteOf(n / 0x1_0000_0000_0000), ByteOf(n / 0x100_0000_0000), ByteOf(n / 0x1_0000_0000),
     ByteOf(n / 0x100_0000), ByteOf(n / 0x1_0000), ByteOf(n / 0x100), ByteOf(n)]
  }

  /** The low eight bits */
  function ByteOf(n: nat): bv8 {
    (n % 256) as bv8
  }

  /** The smallest number of zeros that make the message with its 1 bit end 8 bytes before the end of a block */
  function ZeroCount(n: nat): (k: nat)
    ensures (n + 1 + k) % 64 == 56 && (n + 1 + k + 8) % 64 == 0 && k < 64
  {
    (119 - n % 64) % 64
  }

  /** The padding of section 5.1.1 for a message of n bytes: the bit 1, zeros, and the length in bits */
  function Padding(n: nat): (p: Message)
    requires n < 0x2000_0000_0000_0000
    ensures |p| == 1 + ZeroCount(n) + 8
  {
    [0x80] + Zeros(ZeroCount(n)) + LengthBytes(8 * n)
  }

  function DigestOf(r: Regs): Message {
    Bytes32(r.a) + Bytes32(r.b) + Bytes32(r.c) + Bytes32(r.d) + Bytes32(r.e) + Bytes32(r.f) + Bytes32(r.g) + Bytes32(r.h)
  }

  /** SHA-256 of a whole message */
  function Sha256(m: Message): Message
    requires |m| < 0x2000_0000_0000_0000
  {
    DigestOf(Absorb(H0, m + Padding(|m|)))
  }

  // ----- Absorbing piece by piece -----

  /** The whole blocks of a, and then those of b */
  lemma {:induction false} AbsorbTwice(s: Regs, a: Message, b: Message)
    requires |a| % 64 == 0
    ensures Absorb(s, a + b) == Absorb(Absorb(s, a), b)
    decreases |a|
  {
    hide Compress;
    if |a| >= 64 {
      assert (a + b)[..64] == a[..64] && (a + b)[64..] == a[64..] + b;
      AbsorbTwice(Compress(s, a[..64]), a[64..], b);
    } else {
      assert a + b == b;
    }
  }

  /** What is left of m when its whole blocks are gone */
  function Rest(m: Message): (r: Message)
    ensures |r| == |m| % 64
  {
    m[|m| - |m| % 64..]
  }

  lemma {:induction false} AbsorbRest(s: Regs, m: Message, x: Message)
    ensures Absorb(s, m + x) == Absorb(Absorb(s, m), Rest(m) + x)
    ensures Absorb(s, m) == Absorb(s, m[..|m| - |m| % 64])
  {
    hide Compress;
    var whole := m[..|m| - |m| % 64];
    assert m == whole + Rest(m) && m + x == whole + (Rest(m) + x);
    AbsorbTwice(s, whole, Rest(m));
    AbsorbTwice(s, whole, Rest(m) + x);
    AbsorbTwice(s, whole, []);
    assert whole + [] == whole;
  }

  /** The first block of what is to come */
  lemma {:induction false} AbsorbBlock(s: Regs, b: Message, x: Message)
    requires |b| == 64
    ensures Absorb(s, b + x) == Absorb(Compress(s, b), x)
    ensures Rest(b + x) == Rest(x)
  {
    hide Compress;
    assert (b + x)[..64] == b && (b + x)[64..] == x;
    assert |b + x| % 64 == |x| % 64;
  }

  // ----- The implementation -----

  const WORD: nat := 0x1_0000_0000

  /** total[1] is incremented exactly if total[0] is less than the length after the addition. */
  function CarryOf(total0: nat, length: nat): nat {
    if (total0 + length) % WORD < length then 1 else 0
  }

  /** In words of more than 32 bits, that is the right carry if the length fits in 32 bits, and
      otherwise only if a carry of one happens to be right. */
  lemma CarryIsRight(total0: nat, length: nat)
    requires total0 < WORD
    ensures CarryOf(total0, length) == (total0 + length) / WORD <==> length < WORD || (total0 + length) / WORD == 1
  {}

  /** A piece of 2^33 bytes counts as 2^32 only. */
  lemma CarryLost()
    ensures CarryOf(0, 2 * WORD) == 1 != (0 + 2 * WORD) / WORD
  {}

  class Context {
    var total0: nat
    var total1: nat
    const state: array<Wide>
    const buffer: array<bv8>
    ghost var message: Message

    ghost predicate Shape()
      reads this
    {
      state.Length == 8 && buffer.Length == 64
    }

    /** All of the context but total1 belongs to the message seen so far. */
    ghost predicate Holds()
      reads this, state, buffer
    {
      && Shape()
      && StateRegs(state[..]) == Absorb(H0, message)
      && buffer[..|message| % 64] == Rest(message)
      && total0 == |message| % WORD
    }

    ghost predicate Valid()
      reads this, state, buffer
    {
      Holds() && total1 == |message| / WORD
    }

    /** sha256_starts */
    constructor ()
      ensures Valid() && message == [] && fresh(state) && fresh(buffer)
    {
      total0, total1, message := 0, 0, [];
      state := new Wide[8] [0x6A09_E667, 0xBB67_AE85, 0x3C6E_F372, 0xA54F_F53A, 0x510E_527F, 0x9B05_688C, 0x1F83_D9AB, 0x5BE0_CD19];
      buffer := new bv8[64](_ => 0);
      new;
      InitialLow();
      assert StateRegs(state[..]) == H0;
    }

    /** sha256_update */
    method Update(input: Message)
      requires Holds()
      modifies this, state, buffer
      ensures Holds() && message == old(message) + input
      ensures total1 == old(total1) + CarryOf(old(total0), |input|)
      ensures old(Valid()) ==> (Valid() <==> |input| < WORD || (old(total0) + |input|) / WORD == 1)
    {
      hide Absorb, Compress, StateRegs, H0, Rest, CarryOf;
      ghost var m := message;
      message := m + input;
      CountAfter(|m|, |input|);
      CarryIsRight(total0, |input|);
      if |input| == 0 {
        assert message == m;
        CarryIsOne(total0, 0);
        return;
      }
      var left := total0 % 64;
      total0 := (total0 + |input|) % WORD;
      if total0 < |input| {
        total1 := total1 + 1;
      }
      assert total1 == old(total1) + CarryOf(old(total0), |input|) by { CarryIsOne(old(total0), |input|); }
      Fill(input, left, m);
    }

    /** sha256_update from the use of the buffer on */
    method Fill(input0: Message, left0: nat, ghost m: Message)
      requires Shape() && left0 == |m| % 64 && |input0| > 0
      requires StateRegs(state[..]) == Absorb(H0, m) && buffer[..left0] == Rest(m)
      modifies state, buffer
      ensures StateRegs(state[..]) == Absorb(H0, m + input0)
      ensures buffer[..|m + input0| % 64] == Rest(m + input0)
    {
      hide Absorb, Compress, StateRegs, H0;
      var input, left, fill := input0, left0, 64 - left0;
      AbsorbRest(H0, m, input0);
      RestOf(m, input0);
      ghost var pending := Rest(m) + input;
      if left != 0 && |input| >= fill {
        CopyIn(left, input[..fill]);
        assert buffer[..] == Rest(m) + input[..fill];
        assert pending == buffer[..] + input[fill..];
        AbsorbBlock(StateRegs(state[..]), buffer[..], input[fill..]);
        Process(state, buffer[..]);
        input := input[fill..];
        left := 0;
        pending := input;
      }
      assert left == 0 ==> pending == input by { if left0 == 0 { assert Rest(m) + input0 == input0; } }
      input, pending := WholeBlocks(input, left, pending);
      NothingToAbsorb(StateRegs(state[..]), pending);
      if |input| != 0 {
        ghost var front := buffer[..left];
        CopyIn(left, input);
        assert buffer[..left + |input|] == front + input;
      }
    }

    /** The loop of sha256_update over whole blocks; pending is what has not been absorbed yet. */
    method WholeBlocks(input0: Message, left: nat, ghost pending0: Message) returns (input: Message, ghost pending: Message)
      requires Shape() && (if left == 0 then pending0 == input0 else left + |input0| < 64 && pending0 == buffer[..left] + input0)
      modifies state
      ensures |pending| < 64 && pending == (if left == 0 then input else buffer[..left] + input)
      ensures left + |input| == |pending|
      ensures Absorb(StateRegs(state[..]), pending) == Absorb(StateRegs(old(state[..])), pending0)
      ensures Rest(pending) == Rest(pending0)
    {
      hide Absorb, Compress, StateRegs, H0, Rest;
      input, pending := input0, pending0;
      while |input| >= 64
        invariant if left == 0 then pending == input else left + |input| < 64 && pending == buffer[..left] + input
        invariant Absorb(StateRegs(state[..]), pending) == Absorb(StateRegs(old(state[..])), pending0)
        invariant Rest(pending) == Rest(pending0)
        decreases |input|
      {
        assert input == input[..64] + input[64..];
        AbsorbBlock(StateRegs(state[..]), input[..64], input[64..]);
        Process(state, input[..64]);
        input := input[64..];
        pending := input;
      }
    }

    /** sha256_finish */
    method Finish() returns (digest: Message)
      requires Valid() && |message| < 0x2000_0000_0000_0000
      modifies this, state, buffer
      ensures digest == Sha256(old(message))
    {
      hide Absorb, Compress, StateRegs, H0, Rest, LengthBytes, Padding, CarryOf, DigestOf;
      ghost var m := message;
      var msglen := PutLength();
      var last := total0 % 64;
      var padn := if last < 56 then 56 - last else 120 - last;
      var padding := [0x80] + seq(63, i => 0);
      PaddingParts(|m|, padn, padding, msglen);
      Update(padding[..padn]);
      Update(msglen);
      assert message == m + Padding(|m|);
      digest := PutState();
    }

    /** The length in bits, from its high and its low half, whose bits do not overlap */
    method PutLength() returns (msglen: Message)
      requires Valid() && |message| < 0x2000_0000_0000_0000
      ensures msglen == LengthBytes(8 * |message|)
    {
      hide ByteOf, Absorb, StateRegs, Rest;
      var high := total0 / 0x2000_0000 + total1 * 8;
      var low := total0 * 8;
      LengthHalves(|message|, high, low);
      HighBytes(8 * |message|, high);
      LowBytesOf(8 * |message|, high, low);
      msglen := [ByteOf(high / 0x100_0000), ByteOf(high / 0x1_0000), ByteOf(high / 0x100), ByteOf(high),
                 ByteOf(low / 0x100_0000), ByteOf(low / 0x1_0000), ByteOf(low / 0x100), ByteOf(low)];
    }

    /** The digest */
    method PutState() returns (digest: Message)
      requires Shape()
      ensures digest == DigestOf(StateRegs(state[..]))
    {
      hide Low, BytesWide, Bytes32;
      LowBytes(state[0]);
      LowBytes(state[1]);
      LowBytes(state[2]);
      LowBytes(state[3]);
      LowBytes(state[4]);
      LowBytes(state[5]);
      LowBytes(state[6]);
      LowBytes(state[7]);
      digest := BytesWide(state[0]) + BytesWide(state[1]) + BytesWide(state[2]) + BytesWide(state[3])
              + BytesWide(state[4]) + BytesWide(state[5]) + BytesWide(state[6]) + BytesWide(state[7]);
    }

    /** memcpy to the buffer at position left */
    method CopyIn(left: nat, x: Message)
      requires Shape() && left + |x| <= 64
      modifies buffer
      ensures buffer[..] == old(buffer[..left]) + x + old(buffer[left + |x|..])
    {
      for i := 0 to |x|
        invariant forall j :: 0 <= j < 64 ==> buffer[j] == if left <= j < left + i then x[j - left] else old(buffer[j])
      {
        buffer[left + i] := x[i];
      }
    }
  }

  lemma InitialLow()
    ensures Low(0x6A09_E667) == 0x6A09_E667 && Low(0xBB67_AE85) == 0xBB67_AE85 && Low(0x3C6E_F372) == 0x3C6E_F372
    ensures Low(0xA54F_F53A) == 0xA54F_F53A && Low(0x510E_527F) == 0x510E_527F && Low(0x9B05_688C) == 0x9B05_688C
    ensures Low(0x1F83_D9AB) == 0x1F83_D9AB && Low(0x5BE0_CD19) == 0x5BE0_CD19
  {}

  lemma CountAfter(n: nat, l: nat)
    ensures (n + l) % WORD == (n % WORD + l) % WORD && (n + l) / WORD == n / WORD + (n % WORD + l) / WORD
    ensures n % WORD % 64 == n % 64
  {
    var q, r := n / WORD, n % WORD;
    var q', r' := (r + l) / WORD, (r + l) % WORD;
    Index.DivUnique(n + l, WORD, q + q', r');
    Index.DivUnique(n, 64, q * 0x400_0000 + r / 64, r % 64);
  }

  lemma RestOf(m: Message, x: Message)
    ensures Rest(m + x) == Rest(Rest(m) + x)
  {
    var k, z := |m| / 64, Rest(m) + x;
    var w := 64 * k;
    assert |m| - |m| % 64 == w;
    assert m + x == m[..w] + z;
    assert |m + x| % 64 == |z| % 64 by { WholeOff(k, |z|); }
    LastOf(m[..w], z, |z| % 64);
  }

  lemma WholeOff(k: nat, n: nat)
    ensures (64 * k + n) % 64 == n % 64
  {}

  lemma LastOf(a: Message, b: Message, n: nat)
    requires n <= |b|
    ensures (a + b)[|a + b| - n..] == b[|b| - n..]
  {}

  lemma NothingToAbsorb(s: Regs, x: Message)
    ensures |x| < 64 ==> Absorb(s, x) == s && Rest(x) == x
  {}

  lemma CarryIsOne(total0: nat, length: nat)
    ensures CarryOf(total0, length) == if (total0 + length) % WORD < length then 1 else 0
  {}

  lemma LengthHalves(n: nat, high: nat, low: nat)
    requires n < 0x2000_0000_0000_0000
    requires high == n % WORD / 0x2000_0000 + n / WORD * 8 && low == n % WORD * 8
    ensures 8 * n == high * WORD + low % WORD && 8 * n < 0x1_0000_0000_0000_0000
    ensures low % 0x100_0000 == low % WORD % 0x100_0000
  {
    var q, r := n / WORD, n % WORD;
    assert n == q * WORD + r && r == (r / 0x2000_0000) * 0x2000_0000 + r % 0x2000_0000;
    assert low == (r / 0x2000_0000) * WORD + 8 * (r % 0x2000_0000);
  }

  /** The upper four bytes */
  lemma HighBytes(n: nat, high: nat)
    requires high == n / WORD
    ensures n / 0x100_0000_0000_0000 == high / 0x100_0000 && n / 0x1_0000_0000_0000 == high / 0x1_0000
    ensures n / 0x100_0000_0000 == high / 0x100 && n / 0x1_0000_0000 == high
  {}

  /** The lower four bytes */
  lemma LowBytesOf(n: nat, high: nat, low: nat)
    requires n == high * WORD + low % WORD
    ensures ByteOf(n / 0x100_0000) == ByteOf(low / 0x100_0000) && ByteOf(n / 0x1_0000) == ByteOf(low / 0x1_0000)
    ensures ByteOf(n / 0x100) == ByteOf(low / 0x100) && ByteOf(n) == ByteOf(low)
  {
    hide ByteOf;
    var q, l := low / WORD, low % WORD;
    SameBytesOf(high, l);
    SameBytesOf(q, l);
  }

  /** The lower four bytes do not depend on the upper ones. */
  lemma SameBytesOf(q: nat, l: nat)
    ensures var n := q * WORD + l;
      && ByteOf(n / 0x100_0000) == ByteOf(l / 0x100_0000) && ByteOf(n / 0x1_0000) == ByteOf(l / 0x1_0000)
      && ByteOf(n / 0x100) == ByteOf(l / 0x100) && ByteOf(n) == ByteOf(l)
  {
    var n := q * WORD + l;
    assert n / 0x100_0000 == q * 0x100 + l / 0x100_0000 && n / 0x1_0000 == q * 0x1_0000 + l / 0x1_0000;
    assert n / 0x100 == q * 0x100_0000 + l / 0x100;
    SameByte(q, l / 0x100_0000);
    SameByte(q * 0x100, l / 0x1_0000);
    SameByte(q * 0x1_0000, l / 0x100);
    SameByte(q * 0x100_0000, l);
  }

  lemma SameByte(q: nat, l: nat)
    ensures ByteOf(q * 0x100 + l) == ByteOf(l)
  {
    assert (q * 0x100 + l) % 256 == l % 256;
  }

  /** What sha256_finish appends is the padding of the standard. */
  lemma PaddingParts(n: nat, padn: nat, padding: Message, msglen: Message)
    requires n < 0x2000_0000_0000_0000 && msglen == LengthBytes(8 * n)
    requires padn == if n % 64 < 56 then 56 - n % 64 else 120 - n % 64
    requires padding == [0x80] + seq(63, i => 0)
    ensures padn <= 64 && padding[..padn] + msglen == Padding(n)
  {
    hide LengthBytes;
    assert padn == 1 + ZeroCount(n);
    assert padding[..padn] == [0x80] + Zeros(ZeroCount(n));
  }

  // ----- Any way of cutting a message -----

  function Concat(pieces: seq<Message>): Message {
    if pieces == [] then [] else Concat(pieces[..|pieces| - 1]) + pieces[|pieces| - 1]
  }

  /** However a message is cut into pieces of less than 2^32 bytes, the digest is that of the whole. */
  method HashPieces(pieces: seq<Message>) returns (digest: Message)
    requires |Concat(pieces)| < 0x2000_0000_0000_0000
    requires forall i :: 0 <= i < |pieces| ==> |pieces[i]| < WORD
    ensures digest == Sha256(Concat(pieces))
  {
    hide Sha256, StateRegs;
    var ctx := new Context();
    for i := 0 to |pieces|
      invariant ctx.Valid() && fresh(ctx) && fresh(ctx.state) && fresh(ctx.buffer)
      invariant ctx.message == Concat(pieces[..i])
    {
      assert pieces[..i + 1][..i] == pieces[..i];
      ctx.Update(pieces[i]);
    }
    assert pieces[..|pieces|] == pieces;
    digest := ctx.Finish();
  }
}
