/** Base-R digits of block offsets: how the shifts of the source cut an offset into the
    indices of the nodes on the path from the root to a data block. */
module Index {
  import opened Blocks

  /** The index of the parent of the node with index x: x / R ... */
  function Parent(x: nat): (p: nat)
    ensures p <= x && (x > 0 ==> p < x)
  {
    RefsBounds();
    if x < R then 0 else 1 + Parent(x - R)
  }

  /** ... and the reference in the parent that leads to it: x % R. */
  function Slot(x: nat): (i: nat)
    ensures i < R
  {
    RefsBounds();
    if x < R then x else Slot(x - R)
  }

  lemma {:induction false} ParentIsQuotient(x: nat)
    ensures Parent(x) == x / R && Slot(x) == x % R
  {
    RefsBounds();
    if x < R {
      DivUnique(x, R, 0, x);
    } else {
      ParentIsQuotient(x - R);
      DivStep(x, R);
    }
  }

  lemma DivStep(x: nat, d: nat)
    requires 1 <= d <= x
    ensures x / d == 1 + (x - d) / d && x % d == (x - d) % d
  {
    var q, r := DivMod(x - d, d);
    OneMore(d, q);
    DivUnique(x - d, d, q, r);
    DivUnique(x, d, q + 1, r);
  }

  lemma OneMore(d: nat, q: nat)
    ensures d * (q + 1) == d * q + d
  {}

  /** The index of the ancestor, k levels up, of the node with index x. */
  ghost function Up(x: nat, k: nat): nat
    decreases k
  {
    if k == 0 then x else Up(Parent(x), k - 1)
  }

  /** The number of levels of indirect blocks above the data of a file whose last offset is last. */
  ghost function Levels(last: nat): nat
    decreases last
  {
    if last == 0 then 0 else 1 + Levels(Parent(last))
  }

  /** log_shift_r */
  function LogShiftR(x: Word, nbits: nat): Word {
    if nbits >= 32 then 0 else Shr(x, nbits)
  }

  /** x >> n */
  function Shr(x: Word, n: nat): Word
    requires n < 32
  {
    DivShrinks(x, Pow2(n));
    x / Pow2(n)
  }

  lemma DivShrinks(x: nat, d: nat)
    requires d >= 1
    ensures 0 <= x / d <= x
    ensures d >= 2 && x > 0 ==> x / d < x
  {
    var q := x / d;
    assert x == d * q + x % d;
    if q >= 1 { MulGrows(d, q); }
  }

  lemma MulGrows(d: nat, k: nat)
    requires k >= 1
    ensures d * k >= d
    ensures d >= 2 ==> d * k > k
    ensures d >= 1 ==> d * k >= k
  {
    assert d * k == d * (k - 1) + d;
    if d >= 2 { assert (d - 2) * k >= 0; assert d * k == (d - 2) * k + 2 * k; }
  }

  lemma {:induction false} Pow2Add(a: nat, b: nat)
    ensures Pow2(a + b) == Pow2(a) * Pow2(b)
  {
    if a > 0 {
      Pow2Add(a - 1, b);
      assert Pow2(a + b) == 2 * Pow2(a + b - 1);
    }
  }

  lemma {:induction false} Pow2Monotone(a: nat, b: nat)
    requires a <= b
    ensures Pow2(a) <= Pow2(b)
    decreases b - a
  {
    if a < b { Pow2Monotone(a, b - 1); }
  }

  lemma Pow2Of32()
    ensures Pow2(32) == WORD_LIMIT
  {
    assert Pow2(8) == 256;
    Pow2Add(8, 8);
    Pow2Add(16, 16);
  }

  lemma DivDiv(x: nat, a: nat, b: nat)
    requires a >= 1 && b >= 1
    ensures a * b >= 1 && x / (a * b) == x / a / b
  {
    MulGrows(a, b);
    var q, r := DivMod(x, a);
    var q2, r2 := DivMod(q, b);
    TwoStepQuotient(x, a, b, q, r, q2, r2);
  }

  lemma DivMod(x: nat, d: nat) returns (q: nat, r: nat)
    requires d >= 1
    ensures q == x / d && r < d && x == d * q + r
  {
    q, r := x / d, x % d;
    DivShrinks(x, d);
  }

  lemma TwoStepQuotient(x: nat, a: nat, b: nat, q: nat, r: nat, q2: nat, r2: nat)
    requires a * b >= 1
    requires x == a * q + r && r < a
    requires q == b * q2 + r2 && r2 < b
    ensures x / (a * b) == q2
  {
    Recompose(a, b, q2, r2, r);
    DivUnique(x, a * b, q2, a * r2 + r);
  }

  lemma Recompose(a: nat, b: nat, q: nat, s: nat, r: nat)
    requires s < b && r < a
    ensures a * (b * q + s) + r == (a * b) * q + (a * s + r)
    ensures a * s + r < a * b
  {
    MulDistributes(a, b, q, s);
    MulStrict(a, s, b);
  }

  lemma MulDistributes(a: nat, b: nat, q: nat, r: nat)
    ensures a * (b * q + r) == (a * b) * q + a * r
  {}

  lemma DivUnique(x: nat, d: nat, q: nat, r: nat)
    requires x == d * q + r && r < d
    ensures x / d == q && x % d == r
  {
    var q', r' := x / d, x % d;
    assert x == d * q' + r';
    if q' > q {
      MulStrict(d, q, q');
    } else if q > q' {
      MulStrict(d, q', q);
    }
  }

  lemma MulStrict(d: nat, a: nat, b: nat)
    requires a < b
    ensures d * b >= d * a + d
  {
    MulGrows(d, b - a);
    assert d * (b - a) == d * b - d * a;
  }

  lemma {:induction false} UpStep(x: nat, k: nat)
    ensures Up(x, k + 1) == Parent(Up(x, k))
    decreases k
  {
    if k > 0 { UpStep(Parent(x), k - 1); }
  }

  lemma {:induction false} UpUp(x: nat, j: nat, k: nat)
    ensures Up(Up(x, j), k) == Up(x, j + k)
    decreases j
  {
    if j > 0 { UpUp(Parent(x), j - 1, k); }
  }

  /** The number of bits of k digits. */
  ghost function Bits(k: nat): nat {
    if k == 0 then 0 else LOG_RPB + Bits(k - 1)
  }

  lemma {:induction false} BitsIsProduct(k: nat)
    ensures Bits(k) == k * LOG_RPB
  {
    if k > 0 {
      BitsIsProduct(k - 1);
      assert k * LOG_RPB == (k - 1) * LOG_RPB + LOG_RPB;
    }
  }

  lemma {:induction false} BitsMonotone(j: nat, k: nat)
    requires j <= k
    ensures Bits(j) + (k - j) <= Bits(k)
    decreases k - j
  {
    if j < k { BitsMonotone(j, k - 1); }
  }

  /** Shifting by whole digits moves to the ancestor. */
  lemma {:induction false} UpIsDivision(x: nat, k: nat)
    ensures Up(x, k) == x / Pow2(Bits(k))
    decreases k
  {
    if k > 0 {
      ParentIsQuotient(x);
      UpIsDivision(Parent(x), k - 1);
      Pow2Add(LOG_RPB, Bits(k - 1));
      DivDiv(x, R, Pow2(Bits(k - 1)));
    }
  }

  lemma ShiftIsUp(x: Word, k: nat)
    ensures LogShiftR(x, k * LOG_RPB) == Up(x, k)
  {
    UpIsDivision(x, k);
    BitsIsProduct(k);
    ShiftIsDivision(x, Bits(k));
  }

  /** The index, in the block at height nlevels + 1, of the reference on the path to offset x. */
  function PathIndex(x: Word, nlevels: nat): (i: nat)
    ensures i == Slot(Up(x, nlevels))
  {
    ShiftIsUp(x, nlevels);
    Slot(LogShiftR(x, nlevels * LOG_RPB))
  }

  lemma ShiftIsDivision(x: Word, n: nat)
    ensures LogShiftR(x, n) == x / Pow2(n)
  {
    if n >= 32 {
      Pow2Of32();
      Pow2Monotone(32, n);
      DivUnique(x, Pow2(n), 0, x);
    }
  }

  lemma {:induction false} UpMonotone(x: nat, y: nat, k: nat)
    requires x <= y
    ensures Up(x, k) <= Up(y, k)
    decreases k
  {
    if k > 0 {
      ParentMonotone(x, y);
      UpMonotone(Parent(x), Parent(y), k - 1);
    }
  }

  lemma ParentMonotone(x: nat, y: nat)
    requires x <= y
    ensures Parent(x) <= Parent(y)
  {
    RefsBounds();
    ParentIsQuotient(x);
    ParentIsQuotient(y);
    DivMonotone(x, y, R);
  }

  lemma DivMonotone(x: nat, y: nat, d: nat)
    requires x <= y && d >= 1
    ensures x / d <= y / d
  {
    var p, q := x / d, y / d;
    assert x == d * p + x % d && y == d * q + y % d;
    if p > q {
      MulStrict(d, q, p);
    }
  }

  lemma {:induction false} UpZero(k: nat)
    ensures Up(0, k) == 0
    decreases k
  {
    if k > 0 { UpZero(k - 1); }
  }

  /** Levels(last) is the least k with Up(last, k) == 0. */
  lemma {:induction false} LevelsIsLeast(last: nat, k: nat)
    ensures Up(last, k) == 0 <==> k >= Levels(last)
    decreases k
  {
    if last == 0 {
      UpZero(k);
    } else if k > 0 {
      LevelsIsLeast(Parent(last), k - 1);
    }
  }

  lemma {:induction false} LevelsMonotone(x: nat, y: nat)
    requires x <= y
    ensures Levels(x) <= Levels(y)
  {
    LevelsIsLeast(y, Levels(y));
    UpMonotone(x, y, Levels(y));
    LevelsIsLeast(x, Levels(y));
  }

  /** The shift loop of treedisk_read, treedisk_write and treedisk_check. */
  method CountLevels(x: Word) returns (nlevels: nat)
    ensures nlevels == Levels(x)
  {
    nlevels := 0;
    LevelsIsLeast(x, 0);
    while LogShiftR(x, nlevels * LOG_RPB) != 0
      invariant nlevels <= Levels(x)
      decreases Levels(x) - nlevels
    {
      ShiftIsUp(x, nlevels);
      LevelsIsLeast(x, nlevels);
      nlevels := nlevels + 1;
    }
    ShiftIsUp(x, nlevels);
    LevelsIsLeast(x, nlevels);
  }

  // ----- The depth loop of treedisk_free_file, which multiplies instead of shifting -----

  /** max_capacity when level == k: a 32-bit product. */
  function Capacity(k: nat): Word
    requires k >= 1
  {
    if k == 1 then R % WORD_LIMIT else Capacity(k - 1) * R % WORD_LIMIT
  }

  /** The number of whole digits in 31 bits. */
  function Digits31(): (k: nat)
    ensures k >= 1
  {
    31 / LOG_RPB
  }

  /** The largest file whose depth the loop can find: larger products wrap to 0. */
  function MaxFreeable(): (n: nat)
    ensures n >= 2
  {
    MulGrows(LOG_RPB, Digits31());
    Pow2(LOG_RPB * Digits31())
  }

  lemma {:induction false} CapacityValue(k: nat)
    requires k >= 1
    ensures Capacity(k) == Pow2Mod(Bits(k))
  {
    if k > 1 {
      CapacityValue(k - 1);
      Pow2ModTimes(Bits(k - 1), LOG_RPB);
    } else {
      CapacityOfRoot();
    }
  }

  lemma CapacityOfRoot()
    ensures Capacity(1) == Pow2Mod(Bits(1))
  {
    assert Bits(1) == LOG_RPB + Bits(0);
    Pow2ModIsMod(LOG_RPB);
  }

  /** 2^n as a 32-bit word */
  ghost function Pow2Mod(n: nat): Word {
    if n <= 31 then Pow2Below(n); Pow2(n) else 0
  }

  lemma Pow2Below(n: nat)
    requires n <= 31
    ensures Pow2(n) < WORD_LIMIT
  {
    Pow2Of32();
    Pow2Monotone(n, 31);
  }

  lemma Pow2ModTimes(n: nat, l: nat)
    ensures Pow2Mod(n) * Pow2(l) % WORD_LIMIT == Pow2Mod(n + l)
  {
    if n <= 31 {
      Pow2Add(n, l);
      Pow2ModIsMod(n + l);
    } else {
      ZeroTimes(Pow2(l));
    }
  }

  lemma Pow2ModIsMod(n: nat)
    ensures Pow2(n) % WORD_LIMIT == Pow2Mod(n)
  {
    if n <= 31 { Pow2Below(n); } else { Pow2Vanishes(n); }
  }

  lemma ZeroTimes(x: nat)
    ensures 0 * x == 0
  {}

  lemma Pow2Vanishes(n: nat)
    requires n >= 32
    ensures Pow2(n) % WORD_LIMIT == 0
  {
    Pow2Of32();
    Pow2Add(n - 32, 32);
    MultipleMod(Pow2(n - 32), WORD_LIMIT);
  }

  lemma MultipleMod(q: nat, d: nat)
    requires d >= 1
    ensures (q * d) % d == 0
  {
    DivUnique(q * d, d, q, 0);
  }

  lemma WholeDigits(k: nat)
    ensures Bits(k) <= 31 <==> k <= Digits31()
  {
    BitsIsProduct(k);
    FloorBound(31, LOG_RPB, k);
  }

  lemma FloorBound(n: nat, d: nat, k: nat)
    requires d >= 1
    ensures k * d <= n <==> k <= n / d
  {
    var q := n / d;
    assert n == d * q + n % d;
    if k > q { MulStrict(d, q, k); }
    if k < q { MulStrict(d, k, q); }
  }

  lemma MaxFreeableSmall()
    ensures 2 * MaxFreeable() <= WORD_LIMIT && MaxFreeable() + 1 < WORD_LIMIT
  {
    WholeDigits(Digits31());
    BitsIsProduct(Digits31());
    MulCommutes(LOG_RPB, Digits31());
    Pow2Monotone(LOG_RPB * Digits31(), 31);
    Pow2Of32();
    assert Pow2(32) == 2 * Pow2(31);
  }

  /** The loop leaves exactly for the files of at most MaxFreeable() blocks. */
  lemma DepthLoopExits(nblocks: Word)
    requires nblocks >= 1
    ensures (exists k :: k >= 1 && Capacity(k) >= nblocks) <==> nblocks <= MaxFreeable()
  {
    var top := Digits31();
    BitsIsProduct(top);
    MulCommutes(top, LOG_RPB);
    CapacityValue(top);
    WholeDigits(top);
    forall k | k >= 1 ensures Capacity(k) <= Capacity(top) == MaxFreeable() {
      CapacityValue(k);
      WholeDigits(k);
      if k <= top {
        BitsMonotone(k, top);
        Pow2Monotone(Bits(k), Bits(top));
      }
    }
  }

  /** The depth loop.  A product that wrapped to 0 stays 0 and the loop of the source never
      ends; the model then stops and reports it. */
  method FreeDepth(nblocks: Word) returns (hangs: bool, level: nat)
    requires nblocks >= 2
    ensures hangs <==> nblocks > MaxFreeable()
    ensures !hangs ==> level == Levels(nblocks - 1)
  {
    level := 1;
    var maxCapacity := R % WORD_LIMIT;
    assert Pow2(Bits(0)) == 1;
    while maxCapacity < nblocks && maxCapacity != 0
      invariant 1 <= level && maxCapacity == Capacity(level)
      invariant Below(level, nblocks)
      decreases 32 - level
    {
      LevelFits(level);
      CapacityValue(level);
      level := level + 1;
      maxCapacity := maxCapacity * R % WORD_LIMIT;
    }
    hangs := maxCapacity < nblocks;
    if hangs {
      HangMeansTooLarge(level, nblocks);
    } else {
      DepthLoopExits(nblocks);
      DepthIsLevels(level, nblocks);
    }
  }

  /** All the levels tried before were too few. */
  ghost predicate Below(level: nat, nblocks: Word)
    requires level >= 1
  {
    && Pow2(Bits(level - 1)) < nblocks
    && (level == 1 || Capacity(level - 1) != 0)
  }

  lemma LevelFits(level: nat)
    requires level >= 1 && Capacity(level) != 0
    ensures level <= 31
  {
    CapacityValue(level);
    BitsMonotone(0, level);
  }

  lemma HangMeansTooLarge(level: nat, nblocks: Word)
    requires level >= 1 && Capacity(level) == 0 && Below(level, nblocks)
    ensures nblocks > MaxFreeable()
  {
    CapacityValue(level);
    WholeDigits(level);
    if level > 1 {
      CapacityValue(level - 1);
      WholeDigits(level - 1);
    } else {
      WholeDigits(1);
    }
    BitsIsProduct(Digits31());
    MulCommutes(Digits31(), LOG_RPB);
  }

  lemma MulCommutes(a: nat, b: nat)
    ensures a * b == b * a
  {}

  lemma DepthIsLevels(level: nat, nblocks: Word)
    requires level >= 1 && Below(level, nblocks) && nblocks <= Capacity(level)
    ensures level == Levels(nblocks - 1)
  {
    var last := nblocks - 1;
    CapacityValue(level);
    UpVanishes(last, level);
    UpVanishes(last, level - 1);
    LevelsIsLeast(last, level);
    LevelsIsLeast(last, level - 1);
  }

  lemma UpVanishes(x: nat, k: nat)
    ensures Up(x, k) == 0 <==> x < Pow2(Bits(k))
  {
    UpIsDivision(x, k);
    QuotientZero(x, Pow2(Bits(k)));
  }

  lemma QuotientZero(x: nat, d: nat)
    requires d >= 1
    ensures x / d == 0 <==> x < d
  {
    if x < d { DivUnique(x, d, 0, x); }
    assert x == d * (x / d) + x % d;
  }
}
