/** The SHA-256 compression function (FIPS 180-2, section 6.2.2) and sha256_process. */
module ShaBlock {
  import opened ShaWords

  // ----- FIPS 180-2 -----

  /** The constants of section 4.2.2, eight in each row */
  function Constants(row: nat): (k: seq<Word32>)
    requires row < 8
    ensures |k| == 8
  {
    match row
    case 0 => [0x428A_2F98, 0x7137_4491, 0xB5C0_FBCF, 0xE9B5_DBA5, 0x3956_C25B, 0x59F1_11F1, 0x923F_82A4, 0xAB1C_5ED5]
    case 1 => [0xD807_AA98, 0x1283_5B01, 0x2431_85BE, 0x550C_7DC3, 0x72BE_5D74, 0x80DE_B1FE, 0x9BDC_06A7, 0xC19B_F174]
    case 2 => [0xE49B_69C1, 0xEFBE_4786, 0x0FC1_9DC6, 0x240C_A1CC, 0x2DE9_2C6F, 0x4A74_84AA, 0x5CB0_A9DC, 0x76F9_88DA]
    case 3 => [0x983E_5152, 0xA831_C66D, 0xB003_27C8, 0xBF59_7FC7, 0xC6E0_0BF3, 0xD5A7_9147, 0x06CA_6351, 0x1429_2967]
    case 4 => [0x27B7_0A85, 0x2E1B_2138, 0x4D2C_6DFC, 0x5338_0D13, 0x650A_7354, 0x766A_0ABB, 0x81C2_C92E, 0x9272_2C85]
    case 5 => [0xA2BF_E8A1, 0xA81A_664B, 0xC24B_8B70, 0xC76C_51A3, 0xD192_E819, 0xD699_0624, 0xF40E_3585, 0x106A_A070]
    case 6 => [0x19A4_C116, 0x1E37_6C08, 0x2748_774C, 0x34B0_BCB5, 0x391C_0CB3, 0x4ED8_AA4A, 0x5B9C_CA4F, 0x682E_6FF3]
    case _ => [0x748F_82EE, 0x78A5_636F, 0x84C8_7814, 0x8CC7_0208, 0x90BE_FFFA, 0xA450_6CEB, 0xBEF9_A3F7, 0xC671_78F2]
  }

  function Constant(t: nat): Word32
    requires t < 64
  {
    Constants(t / 8)[t % 8]
  }

  type Bytes64 = b: seq<bv8> | |b| == 64 witness seq(64, i => 0)

  /** The working variables, and also the hash value */
  datatype Regs = Regs(a: Word32, b: Word32, c: Word32, d: Word32, e: Word32, f: Word32, g: Word32, h: Word32)

  /** W_t, the message schedule */
  function Schedule(block: Bytes64, t: nat): Word32 {
    if t < 16 then Get32(block, 4 * t)
    else
      Add(Add(Add(SmallSigma1(Schedule(block, t - 2)), Schedule(block, t - 7)), SmallSigma0(Schedule(block, t - 15))),
          Schedule(block, t - 16))
  }

  function T1(r: Regs, k: Word32, w: Word32): Word32 {
    Add(Add(Add(Add(r.h, BigSigma1(r.e)), Ch(r.e, r.f, r.g)), k), w)
  }

  function T2(r: Regs): Word32 {
    Add(BigSigma0(r.a), Maj(r.a, r.b, r.c))
  }

  function Round(r: Regs, k: Word32, w: Word32): Regs {
    Regs(Add(T1(r, k, w), T2(r)), r.a, r.b, r.c, Add(r.d, T1(r, k, w)), r.e, r.f, r.g)
  }

  /** The first n rounds */
  function Rounds(r: Regs, block: Bytes64, n: nat): Regs
    requires n <= 64
  {
    if n == 0 then r else Round(Rounds(r, block, n - 1), Constant(n - 1), Schedule(block, n - 1))
  }

  /** The next hash value */
  function Compress(s: Regs, block: Bytes64): Regs {
    var r := Rounds(s, block, 64);
    Regs(Add(r.a, s.a), Add(r.b, s.b), Add(r.c, s.c), Add(r.d, s.d), Add(r.e, s.e), Add(r.f, s.f), Add(r.g, s.g), Add(r.h, s.h))
  }

  // ----- sha256_process -----

  /** The low halves of eight wide words */
  function LowRegs(a: Wide, b: Wide, c: Wide, d: Wide, e: Wide, f: Wide, g: Wide, h: Wide): Regs {
    Regs(Low(a), Low(b), Low(c), Low(d), Low(e), Low(f), Low(g), Low(h))
  }

  function StateRegs(s: seq<Wide>): Regs
    requires |s| == 8
  {
    LowRegs(s[0], s[1], s[2], s[3], s[4], s[5], s[6], s[7])
  }

  lemma LowOfNarrow(k: Word32)
    ensures Low(k as bv64) == k
  {}

  lemma AddCommutes(x: Word32, y: Word32)
    ensures Add(x, y) == Add(y, x)
  {}

  /** The macro P: one round, which leaves two of the registers changed and the others where they are. */
  method P(a: Wide, b: Wide, c: Wide, d: Wide, e: Wide, f: Wide, g: Wide, h: Wide, x: Wide, k: Word32)
      returns (d': Wide, h': Wide)
    ensures LowRegs(h', a, b, c, d', e, f, g) == Round(LowRegs(a, b, c, d, e, f, g, h), k, Low(x))
  {
    hide Low, Plus, Add, S2, S3, F0, F1, BigSigma0, BigSigma1, Maj, Ch;
    var s3, f1, wide := S3(e), F1(e, f, g), k as bv64;
    var temp1 := Plus(Plus(Plus(Plus(h, s3), f1), wide), x);
    var temp2 := Plus(S2(a), F0(a, b, c));
    d' := Plus(d, temp1);
    h' := Plus(temp1, temp2);
    LowS3(e);
    LowF1(e, f, g);
    LowOfNarrow(k);
    LowPlus(h, s3);
    LowPlus(Plus(h, s3), f1);
    LowPlus(Plus(Plus(h, s3), f1), wide);
    LowPlus(Plus(Plus(Plus(h, s3), f1), wide), x);
    LowS2(a);
    LowF0(a, b, c);
    LowPlus(S2(a), F0(a, b, c));
    LowPlus(d, temp1);
    LowPlus(temp1, temp2);
  }

  /** The first t words of the schedule have been computed. */
  ghost predicate Scheduled(W: seq<Wide>, block: Bytes64, t: nat) {
    |W| == 64 && t <= 64 && forall j :: 0 <= j < t ==> Low(W[j]) == Schedule(block, j)
  }

  /** The macro R */
  method R(W: array<Wide>, t: nat, ghost block: Bytes64) returns (x: Wide)
    requires W.Length == 64 && 16 <= t < 64 && Scheduled(W[..], block, t)
    modifies W
    ensures Scheduled(W[..], block, t + 1) && Low(x) == Schedule(block, t)
  {
    hide Low, Plus, Add, S0, S1, SmallSigma0, SmallSigma1;
    ghost var was := W[..];
    var w2, w7, w15, w16 := W[t - 2], W[t - 7], W[t - 15], W[t - 16];
    assert was[t - 2] == w2 && was[t - 7] == w7 && was[t - 15] == w15 && was[t - 16] == w16;
    x := Plus(Plus(Plus(S1(w2), w7), S0(w15)), w16);
    W[t] := x;
    LowS1(w2);
    LowS0(w15);
    LowPlus(S1(w2), w7);
    LowPlus(Plus(S1(w2), w7), S0(w15));
    LowPlus(Plus(Plus(S1(w2), w7), S0(w15)), w16);
    assert W[..] == was[t := x];
  }

  /** W[t] in the first 16 rounds, R(t) in the others */
  method Word(W: array<Wide>, t: nat, ghost block: Bytes64, ghost n: nat) returns (x: Wide)
    requires W.Length == 64 && t < 64 && n == (if t < 16 then 16 else t) && Scheduled(W[..], block, n)
    modifies W
    ensures Scheduled(W[..], block, if t < 16 then 16 else t + 1) && Low(x) == Schedule(block, t)
  {
    if t < 16 {
      x := W[t];
      assert W[..][t] == x;
    } else {
      x := R(W, t, block);
    }
  }

  /** The GET_UINT32s at the start */
  method GetBlock(W: array<Wide>, data: Bytes64)
    requires W.Length == 64
    modifies W
    ensures Scheduled(W[..], data, 16)
  {
    hide Low;
    for i := 0 to 16
      invariant forall j :: 0 <= j < i ==> Low(W[j]) == Schedule(data, j)
    {
      LowGet(data, 4 * i);
      W[i] := GetWide(data, 4 * i);
    }
  }

  /** One line of the 64 in sha256_process */
  method Line(W: array<Wide>, t: nat, a: Wide, b: Wide, c: Wide, d: Wide, e: Wide, f: Wide, g: Wide, h: Wide,
              ghost block: Bytes64, ghost s: Regs) returns (d': Wide, h': Wide)
    requires W.Length == 64 && t < 64 && Scheduled(W[..], block, if t < 16 then 16 else t)
    requires LowRegs(a, b, c, d, e, f, g, h) == Rounds(s, block, t)
    modifies W
    ensures Scheduled(W[..], block, if t < 15 then 16 else t + 1)
    ensures LowRegs(h', a, b, c, d', e, f, g) == Rounds(s, block, t + 1)
  {
    hide Low, Round, LowRegs, Schedule, Constant;
    var x := Word(W, t, block, if t < 16 then 16 else t);
    d', h' := P(a, b, c, d, e, f, g, h, x, Constant(t));
  }

  /** Eight lines, after which each register has its own name again */
  method EightLines(W: array<Wide>, t: nat, a: Wide, b: Wide, c: Wide, d: Wide, e: Wide, f: Wide, g: Wide, h: Wide,
                    ghost block: Bytes64, ghost s: Regs)
      returns (A: Wide, B: Wide, C: Wide, D: Wide, E: Wide, F: Wide, G: Wide, H: Wide)
    requires W.Length == 64 && t + 8 <= 64 && t % 8 == 0 && Scheduled(W[..], block, if t < 16 then 16 else t)
    requires LowRegs(a, b, c, d, e, f, g, h) == Rounds(s, block, t)
    modifies W
    ensures Scheduled(W[..], block, if t + 8 < 16 then 16 else t + 8)
    ensures LowRegs(A, B, C, D, E, F, G, H) == Rounds(s, block, t + 8)
  {
    hide Low, LowRegs, Rounds, Scheduled;
    A, B, C, D, E, F, G, H := a, b, c, d, e, f, g, h;
    D, H := Line(W, t, A, B, C, D, E, F, G, H, block, s);
    C, G := Line(W, t + 1, H, A, B, C, D, E, F, G, block, s);
    B, F := Line(W, t + 2, G, H, A, B, C, D, E, F, block, s);
    A, E := Line(W, t + 3, F, G, H, A, B, C, D, E, block, s);
    H, D := Line(W, t + 4, E, F, G, H, A, B, C, D, block, s);
    G, C := Line(W, t + 5, D, E, F, G, H, A, B, C, block, s);
    F, B := Line(W, t + 6, C, D, E, F, G, H, A, B, block, s);
    E, A := Line(W, t + 7, B, C, D, E, F, G, H, A, block, s);
  }

  /** sha256_process: the low halves of the state become the next hash value, whatever the high halves
      hold. */
  method Process(state: array<Wide>, data: Bytes64)
    requires state.Length == 8
    modifies state
    ensures StateRegs(state[..]) == Compress(StateRegs(old(state[..])), data)
  {
    hide Low, Rounds, Scheduled, Plus, Add;
    var W := new Wide[64](_ => 0);
    GetBlock(W, data);
    ghost var s := StateRegs(state[..]);
    var A, B, C, D, E, F, G, H := state[0], state[1], state[2], state[3], state[4], state[5], state[6], state[7];
    assert Rounds(s, data, 0) == s by { NoRounds(s, data); }
    var t := 0;
    while t < 64
      invariant 0 <= t <= 64 && t % 8 == 0 && Scheduled(W[..], data, if t < 16 then 16 else t)
      invariant LowRegs(A, B, C, D, E, F, G, H) == Rounds(s, data, t)
      invariant state[..] == old(state[..])
    {
      A, B, C, D, E, F, G, H := EightLines(W, t, A, B, C, D, E, F, G, H, data, s);
      t := t + 8;
    }
    AddTo(state, A, B, C, D, E, F, G, H);
  }

  lemma NoRounds(s: Regs, block: Bytes64)
    ensures Rounds(s, block, 0) == s
  {}

  /** The additions at the end of sha256_process */
  method AddTo(state: array<Wide>, A: Wide, B: Wide, C: Wide, D: Wide, E: Wide, F: Wide, G: Wide, H: Wide)
    requires state.Length == 8
    modifies state
    ensures var r, s := LowRegs(A, B, C, D, E, F, G, H), StateRegs(old(state[..]));
      StateRegs(state[..]) == Regs(Add(r.a, s.a), Add(r.b, s.b), Add(r.c, s.c), Add(r.d, s.d),
                                   Add(r.e, s.e), Add(r.f, s.f), Add(r.g, s.g), Add(r.h, s.h))
  {
    hide Low, Plus, Add;
    AddOne(state, 0, A);
    AddOne(state, 1, B);
    AddOne(state, 2, C);
    AddOne(state, 3, D);
    AddOne(state, 4, E);
    AddOne(state, 5, F);
    AddOne(state, 6, G);
    AddOne(state, 7, H);
  }

  method AddOne(state: array<Wide>, i: nat, x: Wide)
    requires i < state.Length
    modifies state
    ensures forall j :: 0 <= j < state.Length && j != i ==> state[j] == old(state[j])
    ensures Low(state[i]) == Add(Low(x), Low(old(state[i])))
  {
    hide Low, Plus, Add;
    LowPlus(state[i], x);
    AddCommutes(Low(state[i]), Low(x));
    state[i] := Plus(state[i], x);
  }
}
