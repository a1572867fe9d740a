/** Where the constants of SHA-256 come from (FIPS 180-2, sections 4.2.2 and 5.3.2). */
module ShaConstants {
  import opened ShaWords
  import opened ShaBlock
  import opened ShaStream
  import Index

  // ----- The first 64 primes -----

  ghost predicate Divides(d: nat, q: nat) {
    d > 0 && q % d == 0
  }

  ghost predicate IsPrime(q: nat) {
    q >= 2 && forall d: nat :: Divides(d, q) ==> d == 1 || d == q
  }

  /** q is the least prime greater than p. */
  ghost predicate NextPrime(p: nat, q: nat) {
    p < q && IsPrime(q) && forall c: nat :: p < c < q ==> !IsPrime(c)
  }

  /** The first 64 primes, eight in each row */
  function Primes(row: nat): (p: seq<nat>)
    requires row < 8
    ensures |p| == 8
  {
    match row
    case 0 => [2, 3, 5, 7, 11, 13, 17, 19]
    case 1 => [23, 29, 31, 37, 41, 43, 47, 53]
    case 2 => [59, 61, 67, 71, 73, 79, 83, 89]
    case 3 => [97, 101, 103, 107, 109, 113, 127, 131]
    case 4 => [137, 139, 149, 151, 157, 163, 167, 173]
    case 5 => [179, 181, 191, 193, 197, 199, 211, 223]
    case 6 => [227, 229, 233, 239, 241, 251, 257, 263]
    case _ => [269, 271, 277, 281, 283, 293, 307, 311]
  }

  function Prime(k: nat): nat
    requires k < 64
  {
    Primes(k / 8)[k % 8]
  }

  /** No prime up to 17 divides q, unless it is q. */
  predicate Passes(q: nat) {
    && (q == 2 || q % 2 != 0) && (q == 3 || q % 3 != 0) && (q == 5 || q % 5 != 0) && (q == 7 || q % 7 != 0)
    && (q == 11 || q % 11 != 0) && (q == 13 || q % 13 != 0) && (q == 17 || q % 17 != 0)
  }

  lemma SmallFactor(c: nat, q: nat)
    requires 2 <= c <= 18 && c < q && q % c == 0
    ensures !Passes(q)
  {
    hide Passes;
    var s := if c % 2 == 0 then 2 else if c % 3 == 0 then 3 else if c % 5 == 0 then 5 else if c % 7 == 0 then 7 else c;
    Multiple(s, c, q);
    SmallDivisor(s, q);
  }

  lemma Multiple(s: nat, c: nat, q: nat)
    requires s >= 1 && c >= 1 && c % s == 0 && q % c == 0
    ensures q % s == 0
  {
    var m, k := c / s, q / c;
    assert q == c * k && c == s * m;
    assert q == s * (m * k);
    Index.DivUnique(q, s, m * k, 0);
  }

  lemma SmallDivisor(s: nat, q: nat)
    requires (s == 2 || s == 3 || s == 5 || s == 7 || s == 11 || s == 13 || s == 17) && s < q && q % s == 0
    ensures !Passes(q)
  {}

  /** Below 19 * 19, that makes q a prime. */
  lemma PassesIsPrime(q: nat)
    requires 2 <= q < 361
    ensures Passes(q) <==> IsPrime(q)
  {
    if Passes(q) {
      forall d: nat | Divides(d, q) ensures d == 1 || d == q {
        if d != 1 && d != q { ProperDivisor(d, q); }
      }
    } else {
      var s := if q % 2 == 0 && q != 2 then 2 else if q % 3 == 0 && q != 3 then 3 else if q % 5 == 0 && q != 5 then 5
               else if q % 7 == 0 && q != 7 then 7 else if q % 11 == 0 && q != 11 then 11 else if q % 13 == 0 && q != 13 then 13 else 17;
      assert Divides(s, q);
    }
  }

  lemma Factors(d: nat, e: nat)
    requires d >= 1
    ensures e == 0 ==> d * e == 0
    ensures e == 1 ==> d * e == d
    ensures d >= 2 && e >= 2 ==> d * e > d
    ensures d >= 19 && e >= 19 ==> d * e >= 361
  {
    if d >= 2 && e >= 2 { Index.MulGrows(e, d); Index.MulCommutes(d, e); }
    if d >= 19 && e >= 19 { assert (d - 19) * (e - 19) >= 0; }
  }

  lemma ProperDivisor(d: nat, q: nat)
    requires 2 <= q < 361 && Divides(d, q) && d != 1 && d != q
    ensures !Passes(q)
  {
    var e := q / d;
    assert q == d * e;
    Factors(d, e);
    Index.DivUnique(q, e, d, 0);
    if d <= 18 {
      SmallFactor(d, q);
    } else {
      SmallFactor(e, q);
    }
  }

  /** No odd number between the odd numbers p and q, at most 14 apart, passes. */
  predicate OddsFail(p: nat, q: nat) {
    && p % 2 == 1 && q <= p + 14
    && (p + 2 < q ==> !Passes(p + 2)) && (p + 4 < q ==> !Passes(p + 4)) && (p + 6 < q ==> !Passes(p + 6))
    && (p + 8 < q ==> !Passes(p + 8)) && (p + 10 < q ==> !Passes(p + 10)) && (p + 12 < q ==> !Passes(p + 12))
  }

  lemma EvenFails(c: nat)
    ensures c > 2 && c % 2 == 0 ==> !Passes(c)
  {}

  lemma Next(k: nat, p: nat, q: nat)
    requires 2 <= p < q < 361 && Passes(q) && (q == p + 1 || OddsFail(p, q)) && k < 63 && Prime(k) == p && Prime(k + 1) == q
    ensures NextPrime(Prime(k), Prime(k + 1))
  {
    hide Prime, Passes, IsPrime;
    PassesIsPrime(q);
    forall c: nat | p < c < q ensures !IsPrime(c) {
      PassesIsPrime(c);
      EvenFails(c);
      if c % 2 == 1 { assert c == p + 2 || c == p + 4 || c == p + 6 || c == p + 8 || c == p + 10 || c == p + 12; }
    }
  }

  lemma Nexts0(k: nat)
    requires 0 <= k < 8
    ensures NextPrime(Prime(k), Prime(k + 1))
  {
    hide NextPrime;
    if k == 0 { Next(0, 2, 3); }
    if k == 1 { Next(1, 3, 5); }
    if k == 2 { Next(2, 5, 7); }
    if k == 3 { Next(3, 7, 11); }
    if k == 4 { Next(4, 11, 13); }
    if k == 5 { Next(5, 13, 17); }
    if k == 6 { Next(6, 17, 19); }
    if k == 7 { Next(7, 19, 23); }
  }

  lemma Nexts8(k: nat)
    requires 8 <= k < 16
    ensures NextPrime(Prime(k), Prime(k + 1))
  {
    hide NextPrime;
    if k == 8 { Next(8, 23, 29); }
    if k == 9 { Next(9, 29, 31); }
    if k == 10 { Next(10, 31, 37); }
    if k == 11 { Next(11, 37, 41); }
    if k == 12 { Next(12, 41, 43); }
    if k == 13 { Next(13, 43, 47); }
    if k == 14 { Next(14, 47, 53); }
    if k == 15 { Next(15, 53, 59); }
  }

  lemma Nexts16(k: nat)
    requires 16 <= k < 24
    ensures NextPrime(Prime(k), Prime(k + 1))
  {
    hide NextPrime;
    if k == 16 { Next(16, 59, 61); }
    if k == 17 { Next(17, 61, 67); }
    if k == 18 { Next(18, 67, 71); }
    if k == 19 { Next(19, 71, 73); }
    if k == 20 { Next(20, 73, 79); }
    if k == 21 { Next(21, 79, 83); }
    if k == 22 { Next(22, 83, 89); }
    if k == 23 { Next(23, 89, 97); }
  }

  lemma Nexts24(k: nat)
    requires 24 <= k < 32
    ensures NextPrime(Prime(k), Prime(k + 1))
  {
    hide NextPrime;
    if k == 24 { Next(24, 97, 101); }
    if k == 25 { Next(25, 101, 103); }
    if k == 26 { Next(26, 103, 107); }
    if k == 27 { Next(27, 107, 109); }
    if k == 28 { Next(28, 109, 113); }
    if k == 29 { Next(29, 113, 127); }
    if k == 30 { Next(30, 127, 131); }
    if k == 31 { Next(31, 131, 137); }
  }

  lemma Nexts32(k: nat)
    requires 32 <= k < 40
    ensures NextPrime(Prime(k), Prime(k + 1))
  {
    hide NextPrime;
    if k == 32 { Next(32, 137, 139); }
    if k == 33 { Next(33, 139, 149); }
    if k == 34 { Next(34, 149, 151); }
    if k == 35 { Next(35, 151, 157); }
    if k == 36 { Next(36, 157, 163); }
    if k == 37 { Next(37, 163, 167); }
    if k == 38 { Next(38, 167, 173); }
    if k == 39 { Next(39, 173, 179); }
  }

  lemma Nexts40(k: nat)
    requires 40 <= k < 48
    ensures NextPrime(Prime(k), Prime(k + 1))
  {
    hide NextPrime;
    if k == 40 { Next(40, 179, 181); }
    if k == 41 { Next(41, 181, 191); }
    if k == 42 { Next(42, 191, 193); }
    if k == 43 { Next(43, 193, 197); }
    if k == 44 { Next(44, 197, 199); }
    if k == 45 { Next(45, 199, 211); }
    if k == 46 { Next(46, 211, 223); }
    if k == 47 { Next(47, 223, 227); }
  }

  lemma Nexts48(k: nat)
    requires 48 <= k < 56
    ensures NextPrime(Prime(k), Prime(k + 1))
  {
    hide NextPrime;
    if k == 48 { Next(48, 227, 229); }
    if k == 49 { Next(49, 229, 233); }
    if k == 50 { Next(50, 233, 239); }
    if k == 51 { Next(51, 239, 241); }
    if k == 52 { Next(52, 241, 251); }
    if k == 53 { Next(53, 251, 257); }
    if k == 54 { Next(54, 257, 263); }
    if k == 55 { Next(55, 263, 269); }
  }

  lemma Nexts56(k: nat)
    requires 56 <= k < 63
    ensures NextPrime(Prime(k), Prime(k + 1))
  {
    hide NextPrime;
    if k == 56 { Next(56, 269, 271); }
    if k == 57 { Next(57, 271, 277); }
    if k == 58 { Next(58, 277, 281); }
    if k == 59 { Next(59, 281, 283); }
    if k == 60 { Next(60, 283, 293); }
    if k == 61 { Next(61, 293, 307); }
    if k == 62 { Next(62, 307, 311); }
  }

  /** They are the first primes, all in their order. */
  lemma PrimesInOrder(k: nat)
    requires k < 64
    ensures k == 0 ==> IsPrime(Prime(k)) && forall c: nat :: c < Prime(k) ==> !IsPrime(c)
    ensures k > 0 ==> NextPrime(Prime(k - 1), Prime(k))
  {
    hide NextPrime, Prime;
    if k == 0 {
      FirstPrime();
    } else {
      if 0 <= k - 1 < 8 { Nexts0(k - 1); }
      if 8 <= k - 1 < 16 { Nexts8(k - 1); }
      if 16 <= k - 1 < 24 { Nexts16(k - 1); }
      if 24 <= k - 1 < 32 { Nexts24(k - 1); }
      if 32 <= k - 1 < 40 { Nexts32(k - 1); }
      if 40 <= k - 1 < 48 { Nexts40(k - 1); }
      if 48 <= k - 1 < 56 { Nexts48(k - 1); }
      if 56 <= k - 1 < 63 { Nexts56(k - 1); }
    }
  }

  lemma FirstPrime()
    ensures IsPrime(Prime(0)) && forall c: nat :: c < Prime(0) ==> !IsPrime(c)
  {
    PassesIsPrime(2);
  }

  // ----- Fractions of roots -----

  function Cube(x: nat): nat {
    x * x * x
  }

  function Square(x: nat): nat {
    x * x
  }

  /** w is the first 32 bits of the fractional part of the cube root of p. */
  ghost predicate IsCubeRootFraction(p: nat, w: Word32) {
    exists n: nat :: CubeRootIs(p, n, w)
  }

  /** ... whose integer part is n */
  ghost predicate CubeRootIs(p: nat, n: nat, w: Word32) {
    Cube(n * 0x1_0000_0000 + w as nat) <= p * 0x1_0000_0000_0000_0000_0000_0000 < Cube(n * 0x1_0000_0000 + w as nat + 1)
  }

  /** w is the first 32 bits of the fractional part of the square root of p. */
  ghost predicate IsSquareRootFraction(p: nat, w: Word32) {
    exists n: nat :: SquareRootIs(p, n, w)
  }

  ghost predicate SquareRootIs(p: nat, n: nat, w: Word32) {
    Square(n * 0x1_0000_0000 + w as nat) <= p * 0x1_0000_0000_0000_0000 < Square(n * 0x1_0000_0000 + w as nat + 1)
  }

  lemma Root(k: nat, p: nat, n: nat, w: Word32)
    requires k < 64 && Prime(k) == p && Constant(k) == w && CubeRootIs(p, n, w)
    ensures IsCubeRootFraction(Prime(k), Constant(k))
  {
    hide CubeRootIs, Constant, Prime;
  }

  lemma Roots0(k: nat)
    requires 0 <= k < 8
    ensures IsCubeRootFraction(Prime(k), Constant(k))
  {
    hide IsCubeRootFraction;
    if k == 0 { Root(0, 2, 1, 0x428A_2F98); }
    if k == 1 { Root(1, 3, 1, 0x7137_4491); }
    if k == 2 { Root(2, 5, 1, 0xB5C0_FBCF); }
    if k == 3 { Root(3, 7, 1, 0xE9B5_DBA5); }
    if k == 4 { Root(4, 11, 2, 0x3956_C25B); }
    if k == 5 { Root(5, 13, 2, 0x59F1_11F1); }
    if k == 6 { Root(6, 17, 2, 0x923F_82A4); }
    if k == 7 { Root(7, 19, 2, 0xAB1C_5ED5); }
  }

  lemma Roots8(k: nat)
    requires 8 <= k < 16
    ensures IsCubeRootFraction(Prime(k), Constant(k))
  {
    hide IsCubeRootFraction;
    if k == 8 { Root(8, 23, 2, 0xD807_AA98); }
    if k == 9 { Root(9, 29, 3, 0x1283_5B01); }
    if k == 10 { Root(10, 31, 3, 0x2431_85BE); }
    if k == 11 { Root(11, 37, 3, 0x550C_7DC3); }
    if k == 12 { Root(12, 41, 3, 0x72BE_5D74); }
    if k == 13 { Root(13, 43, 3, 0x80DE_B1FE); }
    if k == 14 { Root(14, 47, 3, 0x9BDC_06A7); }
    if k == 15 { Root(15, 53, 3, 0xC19B_F174); }
  }

  lemma Roots16(k: nat)
    requires 16 <= k < 24
    ensures IsCubeRootFraction(Prime(k), Constant(k))
  {
    hide IsCubeRootFraction;
    if k == 16 { Root(16, 59, 3, 0xE49B_69C1); }
    if k == 17 { Root(17, 61, 3, 0xEFBE_4786); }
    if k == 18 { Root(18, 67, 4, 0x0FC1_9DC6); }
    if k == 19 { Root(19, 71, 4, 0x240C_A1CC); }
    if k == 20 { Root(20, 73, 4, 0x2DE9_2C6F); }
    if k == 21 { Root(21, 79, 4, 0x4A74_84AA); }
    if k == 22 { Root(22, 83, 4, 0x5CB0_A9DC); }
    if k == 23 { Root(23, 89, 4, 0x76F9_88DA); }
  }

  lemma Roots24(k: nat)
    requires 24 <= k < 32
    ensures IsCubeRootFraction(Prime(k), Constant(k))
  {
    hide IsCubeRootFraction;
    if k == 24 { Root(24, 97, 4, 0x983E_5152); }
    if k == 25 { Root(25, 101, 4, 0xA831_C66D); }
    if k == 26 { Root(26, 103, 4, 0xB003_27C8); }
    if k == 27 { Root(27, 107, 4, 0xBF59_7FC7); }
    if k == 28 { Root(28, 109, 4, 0xC6E0_0BF3); }
    if k == 29 { Root(29, 113, 4, 0xD5A7_9147); }
    if k == 30 { Root(30, 127, 5, 0x06CA_6351); }
    if k == 31 { Root(31, 131, 5, 0x1429_2967); }
  }

  lemma Roots32(k: nat)
    requires 32 <= k < 40
    ensures IsCubeRootFraction(Prime(k), Constant(k))
  {
    hide IsCubeRootFraction;
    if k == 32 { Root(32, 137, 5, 0x27B7_0A85); }
    if k == 33 { Root(33, 139, 5, 0x2E1B_2138); }
    if k == 34 { Root(34, 149, 5, 0x4D2C_6DFC); }
    if k == 35 { Root(35, 151, 5, 0x5338_0D13); }
    if k == 36 { Root(36, 157, 5, 0x650A_7354); }
    if k == 37 { Root(37, 163, 5, 0x766A_0ABB); }
    if k == 38 { Root(38, 167, 5, 0x81C2_C92E); }
    if k == 39 { Root(39, 173, 5, 0x9272_2C85); }
  }

  lemma Roots40(k: nat)
    requires 40 <= k < 48
    ensures IsCubeRootFraction(Prime(k), Constant(k))
  {
    hide IsCubeRootFraction;
    if k == 40 { Root(40, 179, 5, 0xA2BF_E8A1); }
    if k == 41 { Root(41, 181, 5, 0xA81A_664B); }
    if k == 42 { Root(42, 191, 5, 0xC24B_8B70); }
    if k == 43 { Root(43, 193, 5, 0xC76C_51A3); }
    if k == 44 { Root(44, 197, 5, 0xD192_E819); }
    if k == 45 { Root(45, 199, 5, 0xD699_0624); }
    if k == 46 { Root(46, 211, 5, 0xF40E_3585); }
    if k == 47 { Root(47, 223, 6, 0x106A_A070); }
  }

  lemma Roots48(k: nat)
    requires 48 <= k < 56
    ensures IsCubeRootFraction(Prime(k), Constant(k))
  {
    hide IsCubeRootFraction;
    if k == 48 { Root(48, 227, 6, 0x19A4_C116); }
    if k == 49 { Root(49, 229, 6, 0x1E37_6C08); }
    if k == 50 { Root(50, 233, 6, 0x2748_774C); }
    if k == 51 { Root(51, 239, 6, 0x34B0_BCB5); }
    if k == 52 { Root(52, 241, 6, 0x391C_0CB3); }
    if k == 53 { Root(53, 251, 6, 0x4ED8_AA4A); }
    if k == 54 { Root(54, 257, 6, 0x5B9C_CA4F); }
    if k == 55 { Root(55, 263, 6, 0x682E_6FF3); }
  }

  lemma Roots56(k: nat)
    requires 56 <= k < 64
    ensures IsCubeRootFraction(Prime(k), Constant(k))
  {
    hide IsCubeRootFraction;
    if k == 56 { Root(56, 269, 6, 0x748F_82EE); }
    if k == 57 { Root(57, 271, 6, 0x78A5_636F); }
    if k == 58 { Root(58, 277, 6, 0x84C8_7814); }
    if k == 59 { Root(59, 281, 6, 0x8CC7_0208); }
    if k == 60 { Root(60, 283, 6, 0x90BE_FFFA); }
    if k == 61 { Root(61, 293, 6, 0xA450_6CEB); }
    if k == 62 { Root(62, 307, 6, 0xBEF9_A3F7); }
    if k == 63 { Root(63, 311, 6, 0xC671_78F2); }
  }

  /** The constants of the rounds are the first 32 bits of the fractional parts of the cube roots of the first 64 primes. */
  lemma ConstantsAreRoots(k: nat)
    requires k < 64
    ensures IsCubeRootFraction(Prime(k), Constant(k))
  {
    hide IsCubeRootFraction, Constant, Prime;
    if 0 <= k < 8 { Roots0(k); }
    if 8 <= k < 16 { Roots8(k); }
    if 16 <= k < 24 { Roots16(k); }
    if 24 <= k < 32 { Roots24(k); }
    if 32 <= k < 40 { Roots32(k); }
    if 40 <= k < 48 { Roots40(k); }
    if 48 <= k < 56 { Roots48(k); }
    if 56 <= k < 64 { Roots56(k); }
  }

  /** The initial hash value is made of those of the square roots of the first eight. */
  lemma InitialIsRoots()
    ensures IsSquareRootFraction(Prime(0), H0.a) && IsSquareRootFraction(Prime(1), H0.b)
    ensures IsSquareRootFraction(Prime(2), H0.c) && IsSquareRootFraction(Prime(3), H0.d)
    ensures IsSquareRootFraction(Prime(4), H0.e) && IsSquareRootFraction(Prime(5), H0.f)
    ensures IsSquareRootFraction(Prime(6), H0.g) && IsSquareRootFraction(Prime(7), H0.h)
  {
    assert SquareRootIs(2, 1, 0x6A09_E667);
    assert SquareRootIs(3, 1, 0xBB67_AE85);
    assert SquareRootIs(5, 2, 0x3C6E_F372);
    assert SquareRootIs(7, 2, 0xA54F_F53A);
    assert SquareRootIs(11, 3, 0x510E_527F);
    assert SquareRootIs(13, 3, 0x9B05_688C);
    assert SquareRootIs(17, 4, 0x1F83_D9AB);
    assert SquareRootIs(19, 4, 0x5BE0_CD19);
  }

  // ----- The length of the message -----

  /** The last k digits of n to the base 256, the most significant first */
  function Digits(n: nat, k: nat): (d: seq<nat>)
    ensures |d| == k && forall i :: 0 <= i < k ==> d[i] < 256
    decreases k
  {
    if k == 0 then [] else Digits(n / 256, k - 1) + [n % 256]
  }

  /** The number with these digits */
  function Number(d: seq<nat>): nat {
    if d == [] then 0 else 256 * Number(d[..|d| - 1]) + d[|d| - 1]
  }

  function Power(k: nat): (p: nat)
    ensures p >= 1
  {
    if k == 0 then 1 else 256 * Power(k - 1)
  }

  lemma {:induction false} NumberOfDigits(n: nat, k: nat)
    requires n < Power(k)
    ensures Number(Digits(n, k)) == n
    decreases k
  {
    if k > 0 {
      var d := Digits(n, k);
      assert d[..|d| - 1] == Digits(n / 256, k - 1);
      NumberOfDigits(n / 256, k - 1);
    }
  }

  /** Digit i from the right */
  lemma {:induction false} DigitAt(n: nat, k: nat, i: nat)
    requires i < k
    ensures Digits(n, k)[k - 1 - i] == n / Power(i) % 256
    decreases k
  {
    if i > 0 {
      DigitAt(n / 256, k - 1, i - 1);
      Index.DivDiv(n, 256, Power(i - 1));
    }
  }

  lemma Powers()
    ensures Power(0) == 1 && Power(1) == 0x100 && Power(2) == 0x1_0000 && Power(3) == 0x100_0000
    ensures Power(4) == 0x1_0000_0000 && Power(5) == 0x100_0000_0000 && Power(6) == 0x1_0000_0000_0000
    ensures Power(7) == 0x100_0000_0000_0000 && Power(8) == 0x1_0000_0000_0000_0000
  {}

  /** The bytes of the length, at the end of the padding, are the digits of the length to the base 256. */
  lemma LengthAt(n: nat)
    requires n < 0x1_0000_0000_0000_0000
    ensures var b := LengthBytes(n);
      && b[0] == ByteOf(n / Power(7)) && b[1] == ByteOf(n / Power(6)) && b[2] == ByteOf(n / Power(5)) && b[3] == ByteOf(n / Power(4))
      && b[4] == ByteOf(n / Power(3)) && b[5] == ByteOf(n / Power(2)) && b[6] == ByteOf(n / Power(1)) && b[7] == ByteOf(n / Power(0))
  {
    hide Power, ByteOf;
    Powers();
  }
}
