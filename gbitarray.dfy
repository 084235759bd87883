/**
 * GBitArray: a word-packed, auto-growing bitset (MHServerEmu.Core.Collections).
 *
 * Storage is an array of 64-bit words and a word count. Reads beyond the
 * stored words see 0; writes beyond them grow the storage to a power-of-two
 * word count of at least 8. The unsigned 64-bit arithmetic of NextPowerOfTwo
 * is modelled on naturals with explicit wrap-around at 2^64.
 */
module Collections {

  const BitsPerWord: nat := 64
  const Invalid: int := -1

  /** Largest word count whose bit count (words * 64) still fits a signed 32-bit int. */
  const MaxWords: nat := 0x1FF_FFFF

  /** Writes past the current size below this index grow without 32-bit overflow. */
  const MaxGrowIndex: nat := 0x4000_0000

  const MinInt32: int := -0x8000_0000

  const U64: nat := 0x1_0000_0000_0000_0000

  function Max(a: int, b: int): int {
    if a >= b then a else b
  }

  function Min(a: int, b: int): int {
    if a <= b then a else b
  }

  /** C# integer division, which truncates toward zero (b > 0). */
  function CsDiv(a: int, b: int): int
    requires b > 0
  {
    if a >= 0 then a / b else -((-a) / b)
  }

  // ------------------------------------------------------------------
  // Unsigned 64-bit integers as naturals: powers of two, bits, |, >>
  // ------------------------------------------------------------------

  function Pow2(k: nat): (r: nat)
    ensures r >= 1
  {
    if k == 0 then 1 else 2 * Pow2(k - 1)
  }

  ghost predicate IsPowerOfTwo(r: nat) {
    exists k: nat :: r == Pow2(k)
  }

  /** Bit p of n, counted from the least significant bit. */
  predicate Bit(n: nat, p: nat) {
    if p == 0 then n % 2 == 1 else Bit(n / 2, p - 1)
  }

  /** Bitwise OR (the ulong `|` operator). */
  function OrBits(a: nat, b: nat): nat
    decreases a + b
  {
    if a == 0 then b
    else if b == 0 then a
    else 2 * OrBits(a / 2, b / 2) + (if a % 2 == 1 || b % 2 == 1 then 1 else 0)
  }

  /** Logical shift right (the ulong `>>` operator). */
  function Shr(a: nat, s: nat): nat {
    if s == 0 then a else Shr(a / 2, s - 1)
  }

  /** Number of significant bits of n. */
  function BitLength(n: nat): nat {
    if n == 0 then 0 else 1 + BitLength(n / 2)
  }

  /** One line of the smear: n |= n >> s. */
  function SmearStep(x: nat, s: nat): nat {
    OrBits(x, Shr(x, s))
  }

  /** The six shift-or lines of NextPowerOfTwo. */
  function Smear(m: nat): nat {
    var m1 := SmearStep(m, 1);
    var m2 := SmearStep(m1, 2);
    var m3 := SmearStep(m2, 4);
    var m4 := SmearStep(m3, 8);
    var m5 := SmearStep(m4, 16);
    SmearStep(m5, 32)
  }

  /** NextPowerOfTwo(ulong n): n--, smear, ++n, all modulo 2^64. */
  function NextPowerOfTwo(n: nat): (r: nat)
    requires n < U64
    ensures r < U64
  {
    var m := (n - 1) % U64;
    (Smear(m) + 1) % U64
  }

  lemma {:induction false} BitOfZero(p: nat)
    ensures !Bit(0, p)
  {
    if p > 0 { BitOfZero(p - 1); }
  }

  lemma {:induction false} BitOr(a: nat, b: nat, p: nat)
    ensures Bit(OrBits(a, b), p) == (Bit(a, p) || Bit(b, p))
    decreases a + b
  {
    if a == 0 || b == 0 {
      BitOfZero(p);
    } else {
      var h := OrBits(a / 2, b / 2);
      var c := if a % 2 == 1 || b % 2 == 1 then 1 else 0;
      assert OrBits(a, b) == 2 * h + c;
      assert (2 * h + c) / 2 == h && (2 * h + c) % 2 == c;
      if p > 0 {
        BitOr(a / 2, b / 2, p - 1);
      }
    }
  }

  lemma {:induction false} BitShr(a: nat, s: nat, p: nat)
    ensures Bit(Shr(a, s), p) == Bit(a, p + s)
  {
    if s > 0 {
      BitShr(a / 2, s - 1, p);
    }
  }

  /** Two naturals with the same bits are equal. */
  lemma {:induction false} BitExtensionality(a: nat, b: nat)
    requires forall p: nat :: Bit(a, p) == Bit(b, p)
    ensures a == b
    decreases a + b
  {
    if a != 0 || b != 0 {
      assert Bit(a, 0) == Bit(b, 0);
      forall p: nat ensures Bit(a / 2, p) == Bit(b / 2, p) {
        assert Bit(a, p + 1) == Bit(b, p + 1);
      }
      BitExtensionality(a / 2, b / 2);
    }
  }

  lemma {:induction false} LowMaskBits(l: nat, p: nat)
    ensures Bit(Pow2(l) - 1, p) == (p < l)
  {
    if l == 0 {
      BitOfZero(p);
    } else if p > 0 {
      assert (Pow2(l) - 1) / 2 == Pow2(l - 1) - 1;
      LowMaskBits(l - 1, p - 1);
    }
  }

  lemma {:induction false} BitLengthBounds(n: nat)
    ensures n < Pow2(BitLength(n))
    ensures n > 0 ==> Pow2(BitLength(n) - 1) <= n && Bit(n, BitLength(n) - 1)
  {
    if n > 0 {
      BitLengthBounds(n / 2);
    }
  }

  lemma {:induction false} NoBitsAbove(n: nat, p: nat)
    requires p >= BitLength(n)
    ensures !Bit(n, p)
  {
    if n == 0 {
      BitOfZero(p);
    } else {
      NoBitsAbove(n / 2, p - 1);
    }
  }

  lemma {:induction false} BitLengthAtMost(n: nat, l: nat)
    requires n < Pow2(l)
    ensures BitLength(n) <= l
  {
    if n > 0 {
      BitLengthAtMost(n / 2, l - 1);
    }
  }

  lemma {:induction false} Pow2Add(a: nat, b: nat)
    ensures Pow2(a + b) == Pow2(a) * Pow2(b)
  {
    if a > 0 {
      Pow2Add(a - 1, b);
    }
  }

  lemma {:induction false} Pow2Monotonic(a: nat, b: nat)
    requires a <= b
    ensures Pow2(a) <= Pow2(b)
  {
    if a < b {
      Pow2Monotonic(a, b - 1);
    }
  }

  lemma {:induction false} Pow2Square(k: nat, v: nat)
    requires Pow2(k) == v
    ensures Pow2(k + k) == v * v
  {
    Pow2Add(k, k);
  }

  lemma {:induction false} Pow2Of63And64()
    ensures Pow2(64) == U64 && Pow2(63) == U64 / 2
  {
    Pow2Square(1, 2);
    Pow2Square(2, 4);
    Pow2Square(4, 16);
    Pow2Square(8, 256);
    Pow2Square(16, 0x1_0000);
    Pow2Square(32, 0x1_0000_0000);
    assert Pow2(64) == 2 * Pow2(63);
  }

  /** Some bit of m at a position in p .. p + w - 1 is set. */
  ghost predicate Covered(m: nat, p: nat, w: nat) {
    exists q: nat :: p <= q < p + w && Bit(m, q)
  }

  /** After a smear step by w, bit p covers a window twice as wide. */
  lemma {:induction false} SmearStepBits(m: nat, x: nat, j: nat)
    requires forall p: nat :: Bit(x, p) == Covered(m, p, Pow2(j))
    ensures forall p: nat :: Bit(SmearStep(x, Pow2(j)), p) == Covered(m, p, Pow2(j + 1))
  {
    var w := Pow2(j);
    forall p: nat ensures Bit(SmearStep(x, w), p) == Covered(m, p, 2 * w) {
      BitOr(x, Shr(x, w), p);
      BitShr(x, w, p);
      assert Bit(x, p) == Covered(m, p, w);
      assert Bit(x, p + w) == Covered(m, p + w, w);
      if Covered(m, p, 2 * w) {
        var q: nat :| p <= q < p + 2 * w && Bit(m, q);
        if q < p + w {
          assert Covered(m, p, w);
        } else {
          assert Covered(m, p + w, w);
        }
      }
    }
  }

  lemma {:induction false} SmearBits(m: nat)
    ensures forall p: nat :: Bit(Smear(m), p) == Covered(m, p, 64)
  {
    var m1 := SmearStep(m, 1);
    var m2 := SmearStep(m1, 2);
    var m3 := SmearStep(m2, 4);
    var m4 := SmearStep(m3, 8);
    var m5 := SmearStep(m4, 16);
    forall p: nat ensures Bit(m, p) == Covered(m, p, Pow2(0)) {
      if Bit(m, p) { assert p <= p < p + 1; }
    }
    assert Pow2(1) == 2 && Pow2(2) == 4 && Pow2(3) == 8 && Pow2(4) == 16 && Pow2(5) == 32 && Pow2(6) == 64;
    SmearStepBits(m, m, 0);
    SmearStepBits(m, m1, 1);
    SmearStepBits(m, m2, 2);
    SmearStepBits(m, m3, 3);
    SmearStepBits(m, m4, 4);
    SmearStepBits(m, m5, 5);
  }

  /** A 64-bit window starting at p holds a set bit of a 64-bit value exactly below its bit length. */
  lemma {:induction false} CoveredBelowLength(m: nat, p: nat)
    requires m < U64
    ensures Covered(m, p, 64) == (p < BitLength(m))
  {
    var l := BitLength(m);
    Pow2Of63And64();
    BitLengthAtMost(m, 64);
    BitLengthBounds(m);
    if p < l {
      assert p <= l - 1 < p + 64;
      assert Bit(m, l - 1);
    } else if Covered(m, p, 64) {
      var q: nat :| p <= q < p + 64 && Bit(m, q);
      NoBitsAbove(m, q);
    }
  }

  /** The smear of a 64-bit value sets every bit below its highest set bit. */
  lemma {:induction false} SmearIsLowMask(m: nat)
    requires m < U64
    ensures Smear(m) == Pow2(BitLength(m)) - 1
  {
    var l := BitLength(m);
    SmearBits(m);
    forall p: nat ensures Bit(Smear(m), p) == Bit(Pow2(l) - 1, p) {
      LowMaskBits(l, p);
      CoveredBelowLength(m, p);
    }
    BitExtensionality(Smear(m), Pow2(l) - 1);
  }

  /** The smear turns n - 1 (mod 2^64) into a low mask, so the result is a power of two mod 2^64. */
  lemma {:induction false} NextPowerOfTwoIsMask(n: nat, m: nat)
    requires n < U64 && m == (n - 1) % U64
    ensures NextPowerOfTwo(n) == Pow2(BitLength(m)) % U64
  {
    SmearIsLowMask(m);
  }

  /** For 1 <= n <= 2^63 no wrap-around happens: the result is 2^BitLength(n - 1). */
  lemma {:induction false} NextPowerOfTwoValue(n: nat)
    requires 1 <= n <= U64 / 2
    ensures BitLength(n - 1) <= 63
    ensures NextPowerOfTwo(n) == Pow2(BitLength(n - 1))
  {
    var m := n - 1;
    assert m == (n - 1) % U64;
    NextPowerOfTwoIsMask(n, m);
    BitLengthBelowHalf(m);
    var v := Pow2(BitLength(m));
    assert 1 <= v < U64;
    assert v % U64 == v;
  }

  /** A value below 2^63 has at most 63 bits. */
  lemma {:induction false} BitLengthBelowHalf(m: nat)
    requires m < U64 / 2
    ensures BitLength(m) <= 63 && Pow2(BitLength(m)) <= U64 / 2
  {
    Pow2Of63And64();
    BitLengthAtMost(m, 63);
    Pow2Monotonic(BitLength(m), 63);
  }

  /** A 64-bit value at or above 2^63 has exactly 64 bits. */
  lemma {:induction false} BitLengthAboveHalf(m: nat)
    requires U64 / 2 <= m < U64
    ensures BitLength(m) == 64 && Pow2(BitLength(m)) == U64
  {
    Pow2Of63And64();
    var l := BitLength(m);
    BitLengthBounds(m);
    BitLengthAtMost(m, 64);
    if l < 64 {
      Pow2Monotonic(l, 63);
      assert false;
    }
  }

  /** For 1 <= n <= 2^63, NextPowerOfTwo(n) is the least power of two that is at least n. */
  lemma {:induction false} NextPowerOfTwoIsLeast(n: nat)
    requires 1 <= n <= U64 / 2
    ensures IsPowerOfTwo(NextPowerOfTwo(n))
    ensures n <= NextPowerOfTwo(n)
    ensures NextPowerOfTwo(n) == 1 || NextPowerOfTwo(n) / 2 < n
  {
    NextPowerOfTwoValue(n);
    Pow2Least(n);
  }

  /** 2^BitLength(n-1) is the least power of two at or above n. */
  lemma {:induction false} Pow2Least(n: nat)
    requires 1 <= n
    ensures var r := Pow2(BitLength(n - 1));
      IsPowerOfTwo(r) && n <= r && (r == 1 || r / 2 < n)
  {
    var l := BitLength(n - 1);
    var r := Pow2(l);
    BitLengthBounds(n - 1);
    assert n - 1 < r;
    if l > 0 {
      var h := Pow2(l - 1);
      assert r == 2 * h;
      assert r / 2 == h;
      assert h <= n - 1;
    }
  }

  /** Outside 1 .. 2^63 the ulong arithmetic wraps and the result is 0. */
  lemma {:induction false} NextPowerOfTwoWraps(n: nat)
    requires n == 0 || U64 / 2 < n < U64
    ensures NextPowerOfTwo(n) == 0
  {
    var m := if n == 0 then U64 - 1 else n - 1;
    assert m == (n - 1) % U64;
    NextPowerOfTwoIsMask(n, m);
    BitLengthAboveHalf(m);
  }


  // ------------------------------------------------------------------
  // 64-bit words: &, ^, ~ and the single-bit mask
  // ------------------------------------------------------------------

  /** A ulong. */
  type Word = w: nat | w < U64

  /** Bitwise AND (the ulong `&` operator). */
  function AndBits(a: nat, b: nat): nat
    decreases a + b
  {
    if a == 0 || b == 0 then 0
    else 2 * AndBits(a / 2, b / 2) + (if a % 2 == 1 && b % 2 == 1 then 1 else 0)
  }

  /** Bitwise XOR (the ulong `^` operator). */
  function XorBits(a: nat, b: nat): nat
    decreases a + b
  {
    if a == 0 then b
    else if b == 0 then a
    else 2 * XorBits(a / 2, b / 2) + (if (a % 2 == 1) != (b % 2 == 1) then 1 else 0)
  }

  /** Bitwise complement within 64 bits (the ulong `~` operator). */
  function Not64(a: Word): nat {
    U64 - 1 - a
  }

  lemma {:induction false} BitAnd(a: nat, b: nat, p: nat)
    ensures Bit(AndBits(a, b), p) == (Bit(a, p) && Bit(b, p))
    decreases a + b
  {
    if a == 0 || b == 0 {
      BitOfZero(p);
    } else {
      var h := AndBits(a / 2, b / 2);
      var c := if a % 2 == 1 && b % 2 == 1 then 1 else 0;
      assert AndBits(a, b) == 2 * h + c;
      assert (2 * h + c) / 2 == h && (2 * h + c) % 2 == c;
      if p > 0 {
        BitAnd(a / 2, b / 2, p - 1);
      }
    }
  }

  lemma {:induction false} BitXor(a: nat, b: nat, p: nat)
    ensures Bit(XorBits(a, b), p) == (Bit(a, p) != Bit(b, p))
    decreases a + b
  {
    if a == 0 || b == 0 {
      BitOfZero(p);
    } else {
      var h := XorBits(a / 2, b / 2);
      var c := if (a % 2 == 1) != (b % 2 == 1) then 1 else 0;
      assert XorBits(a, b) == 2 * h + c;
      assert (2 * h + c) / 2 == h && (2 * h + c) % 2 == c;
      if p > 0 {
        BitXor(a / 2, b / 2, p - 1);
      }
    }
  }

  lemma {:induction false} BitComplement(l: nat, m: nat, p: nat)
    requires m < Pow2(l)
    ensures Bit(Pow2(l) - 1 - m, p) == (p < l && !Bit(m, p))
  {
    if l == 0 {
      BitOfZero(p);
    } else {
      var v := Pow2(l) - 1 - m;
      assert Pow2(l) == 2 * Pow2(l - 1);
      assert v % 2 == 1 - m % 2 && v / 2 == Pow2(l - 1) - 1 - m / 2;
      if p > 0 {
        BitComplement(l - 1, m / 2, p - 1);
      }
    }
  }

  lemma {:induction false} BitOfPow2(k: nat, p: nat)
    ensures Bit(Pow2(k), p) == (p == k)
  {
    if k == 0 {
      if p > 0 { BitOfZero(p - 1); }
    } else {
      assert Pow2(k) % 2 == 0 && Pow2(k) / 2 == Pow2(k - 1);
      if p > 0 { BitOfPow2(k - 1, p - 1); }
    }
  }

  /** A natural with no bit at or above 64 is a ulong. */
  lemma {:induction false} WordFromBits(n: nat)
    requires forall p: nat :: p >= 64 ==> !Bit(n, p)
    ensures n < U64
  {
    Pow2Of63And64();
    BitLengthBounds(n);
    if n > 0 {
      Pow2Monotonic(BitLength(n), 64);
    }
  }

  /** A ulong has no bit at or above 64. */
  lemma {:induction false} NoBitsAboveWord(w: Word, p: nat)
    requires p >= 64
    ensures !Bit(w, p)
  {
    Pow2Of63And64();
    BitLengthAtMost(w, 64);
    NoBitsAbove(w, p);
  }

  /** `a & b` on ulongs */
  function WordAnd(a: Word, b: Word): Word {
    WordAndBounded(a, b);
    AndBits(a, b)
  }

  lemma {:induction false} WordAndBounded(a: Word, b: Word)
    ensures AndBits(a, b) < U64
  {
    forall p: nat | p >= 64 ensures !Bit(AndBits(a, b), p) {
      BitAnd(a, b, p);
      NoBitsAboveWord(a, p);
    }
    WordFromBits(AndBits(a, b));
  }

  /** `a | b` on ulongs */
  function WordOr(a: Word, b: Word): Word {
    WordOrBounded(a, b);
    OrBits(a, b)
  }

  lemma {:induction false} WordOrBounded(a: Word, b: Word)
    ensures OrBits(a, b) < U64
  {
    forall p: nat | p >= 64 ensures !Bit(OrBits(a, b), p) {
      BitOr(a, b, p);
      NoBitsAboveWord(a, p);
      NoBitsAboveWord(b, p);
    }
    WordFromBits(OrBits(a, b));
  }

  /** `a ^ b` on ulongs */
  function WordXor(a: Word, b: Word): Word {
    WordXorBounded(a, b);
    XorBits(a, b)
  }

  lemma {:induction false} WordXorBounded(a: Word, b: Word)
    ensures XorBits(a, b) < U64
  {
    forall p: nat | p >= 64 ensures !Bit(XorBits(a, b), p) {
      BitXor(a, b, p);
      NoBitsAboveWord(a, p);
      NoBitsAboveWord(b, p);
    }
    WordFromBits(XorBits(a, b));
  }

  /** `~a` on ulongs */
  function WordNot(a: Word): Word {
    Not64(a)
  }

  /** `1UL << k` */
  function Mask(k: nat): (m: Word)
    requires k < 64
    ensures forall p: nat :: Bit(m, p) == (p == k)
  {
    Pow2Of63And64();
    Pow2Monotonic(k, 63);
    forall p: nat ensures Bit(Pow2(k), p) == (p == k) {
      BitOfPow2(k, p);
    }
    Pow2(k)
  }

  lemma {:induction false} WordComplementBit(a: Word, p: nat)
    ensures Bit(WordNot(a), p) == (p < 64 && !Bit(a, p))
  {
    Pow2Of63And64();
    BitComplement(64, a, p);
  }

  lemma {:induction false} ZeroBit(p: nat)
    ensures !Bit(0, p)
  {
    BitOfZero(p);
  }

  /** `(w & (1UL << k)) != 0` tests bit k. */
  lemma {:induction false} MaskedWordNonZero(w: Word, k: nat)
    requires k < 64
    ensures WordAnd(w, Mask(k)) != 0 <==> Bit(w, k)
    ensures WordAnd(w, Mask(k)) == if Bit(w, k) then Mask(k) else 0
  {
    var t := WordAnd(w, Mask(k));
    forall p: nat ensures Bit(t, p) == (p == k && Bit(w, k)) {
      BitAnd(w, Mask(k), p);
    }
    if Bit(w, k) {
      BitOfZero(k);
      BitExtensionality(t, Mask(k));
    } else {
      forall p: nat ensures Bit(t, p) == Bit(0, p) {
        BitOfZero(p);
      }
      BitExtensionality(t, 0);
    }
  }

  // ------------------------------------------------------------------
  // Word sequences and their bits
  // ------------------------------------------------------------------

  /** Bit i of a word sequence; indices at or beyond |ws| * 64 read as unset. */
  predicate GetBit(ws: seq<Word>, i: nat) {
    i < |ws| * BitsPerWord && Bit(ws[i / BitsPerWord], i % BitsPerWord)
  }

  function Zeros(n: nat): (z: seq<Word>)
    ensures |z| == n && forall i :: 0 <= i < n ==> z[i] == 0
  {
    seq(n, _ => 0)
  }

  /** Array.Resize: keep the first min(|ws|, n) words, pad with zero words. */
  function Resized(ws: seq<Word>, n: nat): (r: seq<Word>)
    ensures |r| == n
    ensures forall i :: 0 <= i < n ==> r[i] == if i < |ws| then ws[i] else 0
  {
    seq(n, i requires 0 <= i < n => if i < |ws| then ws[i] else 0)
  }

  /** `_bits[i / 64] |= 1UL << (i % 64)` */
  function SetWord(ws: seq<Word>, i: nat): (r: seq<Word>)
    requires i < |ws| * BitsPerWord
    ensures |r| == |ws|
  {
    ws[i / BitsPerWord := WordOr(ws[i / BitsPerWord], Mask(i % BitsPerWord))]
  }

  /** `_bits[i / 64] &= ~(1UL << (i % 64))` */
  function ResetWord(ws: seq<Word>, i: nat): (r: seq<Word>)
    requires i < |ws| * BitsPerWord
    ensures |r| == |ws|
  {
    ws[i / BitsPerWord := WordAnd(ws[i / BitsPerWord], WordNot(Mask(i % BitsPerWord)))]
  }

  datatype BitOp = AndOp | OrOp | XorOp

  function Apply(op: BitOp, a: Word, b: Word): Word {
    match op
    case AndOp => WordAnd(a, b)
    case OrOp => WordOr(a, b)
    case XorOp => WordXor(a, b)
  }

  /**
   * The words of `left` after And/Or/Xor(left, right): `left` is first grown to
   * right's word count, then only the words below right's count are combined.
   */
  function Combined(op: BitOp, l: seq<Word>, r: seq<Word>): (c: seq<Word>)
    ensures |c| == Max(|l|, |r|)
  {
    var g := Resized(l, Max(|l|, |r|));
    seq(|g|, i requires 0 <= i < |g| => if i < |r| then Apply(op, g[i], r[i]) else g[i])
  }

  lemma {:induction false} GetAfterSet(ws: seq<Word>, i: nat, j: nat)
    requires i < |ws| * BitsPerWord
    ensures GetBit(SetWord(ws, i), j) == (j == i || GetBit(ws, j))
  {
    if j < |ws| * BitsPerWord {
      BitOr(ws[i / BitsPerWord], Mask(i % BitsPerWord), j % BitsPerWord);
    }
  }

  lemma {:induction false} GetAfterReset(ws: seq<Word>, i: nat, j: nat)
    requires i < |ws| * BitsPerWord
    ensures GetBit(ResetWord(ws, i), j) == (j != i && GetBit(ws, j))
  {
    if j < |ws| * BitsPerWord {
      var k := i % BitsPerWord;
      BitAnd(ws[i / BitsPerWord], WordNot(Mask(k)), j % BitsPerWord);
      WordComplementBit(Mask(k), j % BitsPerWord);
    }
  }

  /** Resizing keeps the bits below the new length and every bit above reads 0. */
  lemma {:induction false} GetAfterResize(ws: seq<Word>, n: nat, j: nat)
    ensures GetBit(Resized(ws, n), j) == (j < n * BitsPerWord && GetBit(ws, j))
  {
    if j < n * BitsPerWord && j >= |ws| * BitsPerWord {
      BitOfZero(j % BitsPerWord);
    }
  }

  lemma {:induction false} GetAfterOr(l: seq<Word>, r: seq<Word>, j: nat)
    ensures GetBit(Combined(OrOp, l, r), j) == (GetBit(l, j) || GetBit(r, j))
  {
    GetAfterResize(l, Max(|l|, |r|), j);
    if j < Max(|l|, |r|) * BitsPerWord {
      var g := Resized(l, Max(|l|, |r|));
      var w := j / BitsPerWord;
      if w < |r| {
        BitOr(g[w], r[w], j % BitsPerWord);
      }
    }
  }

  lemma {:induction false} GetAfterXor(l: seq<Word>, r: seq<Word>, j: nat)
    ensures GetBit(Combined(XorOp, l, r), j) == (GetBit(l, j) != GetBit(r, j))
  {
    GetAfterResize(l, Max(|l|, |r|), j);
    if j < Max(|l|, |r|) * BitsPerWord {
      var g := Resized(l, Max(|l|, |r|));
      var w := j / BitsPerWord;
      if w < |r| {
        BitXor(g[w], r[w], j % BitsPerWord);
      }
    }
  }

  /**
   * And intersects only below right's length: bits of `left` at or beyond
   * right's word count are kept, not cleared.
   */
  lemma {:induction false} GetAfterAnd(l: seq<Word>, r: seq<Word>, j: nat)
    ensures GetBit(Combined(AndOp, l, r), j) ==
            if j < |r| * BitsPerWord then GetBit(l, j) && GetBit(r, j) else GetBit(l, j)
  {
    GetAfterResize(l, Max(|l|, |r|), j);
    if j < Max(|l|, |r|) * BitsPerWord {
      var g := Resized(l, Max(|l|, |r|));
      var w := j / BitsPerWord;
      if w < |r| {
        BitAnd(g[w], r[w], j % BitsPerWord);
      }
    }
  }

  /** A concrete case: the high word of a longer `left` survives an And. */
  lemma {:induction false} AndKeepsBitsBeyondRight()
    ensures GetBit(Combined(AndOp, [0, 1], [0]), 64) && !GetBit([0], 64)
  {
    GetAfterAnd([0, 1], [0], 64);
    assert Bit(1, 0);
  }

  // ------------------------------------------------------------------
  // Growth arithmetic
  // ------------------------------------------------------------------

  /** The word count after Expand(index) from `size` words. */
  function GrownWords(size: nat, index: nat): nat
    requires index / BitsPerWord + 1 < U64
  {
    if index < size * BitsPerWord then size
    else Max(NextPowerOfTwo(index / BitsPerWord + 1), 8)
  }

  /** Growth makes the index addressable, never shrinks, and stays in range. */
  lemma {:induction false} GrowthCoversIndex(size: nat, index: nat)
    requires size <= MaxWords && (index < size * BitsPerWord || index < MaxGrowIndex)
    ensures size <= GrownWords(size, index) <= MaxWords
    ensures index < GrownWords(size, index) * BitsPerWord
    ensures index >= size * BitsPerWord ==> GrownWords(size, index) >= 8 && IsPowerOfTwo(GrownWords(size, index))
  {
    if index >= size * BitsPerWord {
      var n := index / BitsPerWord + 1;
      assert index < n * BitsPerWord;
      assert size < n;
      assert n <= 0x100_0000;
      NextPowerOfTwoIsLeast(n);
      var r := NextPowerOfTwo(n);
      assert n <= r < 2 * n;
      var g := GrownWords(size, index);
      assert g == Max(r, 8);
      if r < 8 {
        assert Pow2(3) == 8;
        assert IsPowerOfTwo(g);
      }
    }
  }

  // ------------------------------------------------------------------
  // The bitset
  // ------------------------------------------------------------------

  class GBitArray {
    /** `_bits`; the freed (null) state is a zero-length array. */
    var bits: array<Word>
    /** `_size`, the size in words */
    var size: nat

    ghost predicate Valid()
      reads this
    {
      bits.Length == size && size <= MaxWords
    }

    ghost function Words(): seq<Word>
      reads this, bits
    {
      bits[..]
    }

    /** Size in bits: 64 for every stored word. */
    function Size(): (r: int)
      reads this
      ensures Valid() ==> r == bits.Length * BitsPerWord && 0 <= r
    {
      size * BitsPerWord
    }

    /** Size in bytes: eight per stored word, one for every eight bits of Size. */
    function Bytes(): (r: int)
      reads this
      ensures r * 8 == Size()
      ensures Valid() ==> r == bits.Length * 8
    {
      size * 8
    }

    constructor ()
      ensures Valid() && size == 0 && Words() == [] && fresh(bits)
    {
      bits := new Word[0];
      size := 0;
    }

    /** The word masked down to bit `index`; 0 at or beyond Size. */
    function Test(index: nat): (r: Word)
      requires Valid()
      reads this, bits
      ensures index >= Size() ==> r == 0
      ensures r != 0 <==> GetBit(Words(), index)
      ensures index < Size() ==> r == if GetBit(Words(), index) then Mask(index % BitsPerWord) else 0
    {
      if index >= Size() then 0
      else
        MaskedWordNonZero(bits[index / BitsPerWord], index % BitsPerWord);
        WordAnd(bits[index / BitsPerWord], Mask(index % BitsPerWord))
    }

    function Get(index: nat): (b: bool)
      requires Valid()
      reads this, bits
      ensures b == GetBit(Words(), index)
      ensures index >= Size() ==> !b
    {
      Test(index) != 0
    }

    method SetValue(index: nat, value: bool)
      requires Valid() && (index < Size() || index < MaxGrowIndex)
      modifies this, bits
      ensures Valid() && size == GrownWords(old(size), index)
      ensures Get(index) == value
      ensures forall j: nat :: j != index ==> GetBit(Words(), j) == GetBit(old(Words()), j)
    {
      if value {
        Set(index);
      } else {
        Reset(index);
      }
    }

    method Reset(index: nat)
      requires Valid() && (index < Size() || index < MaxGrowIndex)
      modifies this, bits
      ensures Valid() && size == GrownWords(old(size), index) && index < Size()
      ensures Words() == ResetWord(Resized(old(Words()), size), index)
      ensures !Get(index)
      ensures forall j: nat :: j != index ==> GetBit(Words(), j) == GetBit(old(Words()), j)
    {
      ghost var before := Words();
      Expand(index);
      ghost var grown := Words();
      bits[index / BitsPerWord] := WordAnd(bits[index / BitsPerWord], WordNot(Mask(index % BitsPerWord)));
      assert Words() == ResetWord(grown, index);
      forall j: nat ensures GetBit(Words(), j) == (j != index && GetBit(before, j)) {
        GetAfterReset(grown, index, j);
        GetAfterResize(before, size, j);
      }
    }

    method Set(index: nat)
      requires Valid() && (index < Size() || index < MaxGrowIndex)
      modifies this, bits
      ensures Valid() && size == GrownWords(old(size), index) && index < Size()
      ensures Words() == SetWord(Resized(old(Words()), size), index)
      ensures Get(index)
      ensures forall j: nat :: j != index ==> GetBit(Words(), j) == GetBit(old(Words()), j)
    {
      ghost var before := Words();
      Expand(index);
      ghost var grown := Words();
      bits[index / BitsPerWord] := WordOr(bits[index / BitsPerWord], Mask(index % BitsPerWord));
      assert Words() == SetWord(grown, index);
      forall j: nat ensures GetBit(Words(), j) == (j == index || GetBit(before, j)) {
        GetAfterSet(grown, index, j);
        GetAfterResize(before, size, j);
      }
    }

    method Expand(index: nat)
      requires Valid() && (index < Size() || index < MaxGrowIndex)
      modifies this
      ensures Valid() && size == GrownWords(old(size), index)
      ensures Words() == Resized(old(Words()), size)
      ensures index < Size()
      ensures size == old(size) ==> bits == old(bits)
      ensures size != old(size) ==> fresh(bits)
    {
      GrowthCoversIndex(size, index);
      if index >= Size() {
        var newSize := Max(NextPowerOfTwo(index / BitsPerWord + 1), 8);
        Reserve(newSize * BitsPerWord);
      } else {
        assert Resized(Words(), size) == Words();
      }
    }

    method Any() returns (r: bool)
      requires Valid()
      ensures r <==> exists i :: 0 <= i < size && bits[i] != 0
    {
      var i := 0;
      while i < size
        invariant 0 <= i <= size
        invariant forall j :: 0 <= j < i ==> bits[j] == 0
      {
        if bits[i] != 0 {
          return true;
        }
        i := i + 1;
      }
      return false;
    }

    method Clear()
      requires Valid()
      modifies bits
      ensures Valid() && Words() == Zeros(size)
      ensures forall j: nat :: !Get(j)
    {
      var i := 0;
      while i < size
        invariant 0 <= i <= size
        invariant forall j :: 0 <= j < i ==> bits[j] == 0
      {
        bits[i] := 0;
        i := i + 1;
      }
      forall j: nat ensures !GetBit(Words(), j) {
        BitOfZero(j % BitsPerWord);
      }
    }

    /** A new bitset with the same size and words and its own storage. */
    method Copy() returns (result: GBitArray)
      requires Valid()
      ensures fresh(result) && fresh(result.bits)
      ensures result.Valid() && result.size == size && result.Words() == Words()
    {
      result := new GBitArray();
      result.Reserve(Size());
      var i := 0;
      while i < size
        invariant 0 <= i <= size
        invariant result.Valid() && result.size == size && fresh(result.bits)
        invariant forall j :: 0 <= j < i ==> result.bits[j] == bits[j]
      {
        result.bits[i] := bits[i];
        i := i + 1;
      }
    }

    method Free()
      modifies this
      ensures Valid() && size == 0 && Words() == [] && fresh(bits)
    {
      bits := new Word[0];
      size := 0;
    }

    /**
     * Resize(len): the word count becomes ceil(len / 64), keeping the surviving
     * words; a count of zero frees the storage.
     */
    method Resize(len: int)
      requires Valid() && MinInt32 <= len <= MaxWords * BitsPerWord
      modifies this
      ensures Valid()
      ensures len > 0 ==> (size - 1) * BitsPerWord < len <= size * BitsPerWord
      ensures len <= 0 ==> size == 0
      ensures Words() == Resized(old(Words()), size)
      ensures len > 0 && size == old(size) ==> bits == old(bits)
    {
      var words := CsDiv(len + BitsPerWord - 1, BitsPerWord);
      if size != words {
        if words > 0 {
          ResizeStorage(words);
          size := words;
        } else {
          Free();
        }
      } else {
        assert Resized(Words(), size) == Words();
      }
    }

    /** Reserve(len): grow to ceil(len / 64) words; never shrinks. */
    method Reserve(len: nat)
      requires Valid() && len <= MaxWords * BitsPerWord
      modifies this
      ensures Valid()
      ensures size == Max(old(size), (len + BitsPerWord - 1) / BitsPerWord)
      ensures Words() == Resized(old(Words()), size)
      ensures size == old(size) ==> bits == old(bits)
      ensures size != old(size) ==> fresh(bits)
    {
      var words := (len + BitsPerWord - 1) / BitsPerWord;
      if words > size {
        ResizeStorage(words);
        size := words;
      } else {
        assert Resized(Words(), size) == Words();
      }
    }

    /** Array.Resize(ref _bits, n): a fresh array holding the old prefix, zero-padded. */
    method ResizeStorage(n: nat)
      modifies this
      ensures fresh(bits) && bits.Length == n && size == old(size)
      ensures bits[..] == Resized(old(bits[..]), n)
    {
      var src := bits;
      var grown := new Word[n](_ => 0);
      var keep := Min(n, src.Length);
      var i := 0;
      while i < keep
        invariant 0 <= i <= keep
        invariant size == old(size)
        invariant forall j :: 0 <= j < i ==> grown[j] == src[j]
        invariant forall j :: i <= j < n ==> grown[j] == 0
      {
        grown[i] := src[i];
        i := i + 1;
      }
      bits := grown;
    }

    /** The lowest unset bit below Size, or Invalid when there is none. */
    method FirstUnset() returns (r: int)
      requires Valid()
      ensures r == Invalid || (0 <= r < Size() && !Get(r))
      ensures r == Invalid <==> forall j: nat :: j < Size() ==> Get(j)
      ensures r != Invalid ==> forall j: nat :: j < r ==> Get(j)
    {
      var index := ScanForwardUnset(bits, size, 0);
      assert bits[..size] == Words();
      r := if index < Size() then index else Invalid;
    }
  }

  /** The first index in startIndex .. size * 64 - 1 whose bit in `data` is 0, or Invalid. */
  method ScanForwardUnset(data: array<Word>, size: nat, startIndex: nat) returns (r: int)
    requires size <= data.Length
    ensures r == Invalid || (startIndex <= r < size * BitsPerWord && !GetBit(data[..size], r))
    ensures forall j: nat :: startIndex <= j < (if r == Invalid then size * BitsPerWord else r) ==> GetBit(data[..size], j)
  {
    var i := startIndex;
    while i < size * BitsPerWord
      invariant startIndex <= i
      invariant forall j: nat :: startIndex <= j < i ==> GetBit(data[..size], j)
    {
      MaskedWordNonZero(data[i / BitsPerWord], i % BitsPerWord);
      if WordAnd(data[i / BitsPerWord], Mask(i % BitsPerWord)) == 0 {
        return i;
      }
      i := i + 1;
    }
    return Invalid;
  }

  /**
   * The body shared by And, Or and Xor: reserve right's size in `left`, then
   * combine the words below right's word count into `left` in place.
   */
  method CombineInto(left: GBitArray, right: GBitArray, op: BitOp)
    requires left.Valid() && right.Valid()
    requires left == right || left.bits != right.bits
    modifies left, left.bits
    ensures left.Valid()
    ensures left.Words() == Combined(op, old(left.Words()), old(right.Words()))
    ensures left != right ==> right.bits == old(right.bits) && right.Words() == old(right.Words())
  {
    ghost var lw := left.Words();
    ghost var rw := right.Words();
    left.Reserve(right.Size());
    ghost var g := left.Words();
    assert g == Resized(lw, Max(|lw|, |rw|));
    var i := 0;
    while i < right.size
      invariant 0 <= i <= right.size == |rw| <= left.size == |g|
      invariant left.Valid() && right.Valid()
      invariant left.bits == old(left.bits) || fresh(left.bits)
      invariant left != right ==> left.bits != right.bits
      invariant left != right ==> right.bits == old(right.bits) && right.bits[..] == rw
      invariant forall j :: i <= j < right.size ==> right.bits[j] == rw[j]
      invariant forall j :: 0 <= j < i ==> left.bits[j] == Apply(op, g[j], rw[j])
      invariant forall j :: i <= j < left.size ==> left.bits[j] == g[j]
    {
      left.bits[i] := Apply(op, left.bits[i], right.bits[i]);
      i := i + 1;
    }
    assert left.Words() == Combined(op, lw, rw);
  }

  method And(left: GBitArray, right: GBitArray) returns (result: GBitArray)
    requires left.Valid() && right.Valid()
    requires left == right || left.bits != right.bits
    modifies left, left.bits
    ensures result == left && left.Valid()
    ensures left.Words() == Combined(AndOp, old(left.Words()), old(right.Words()))
    ensures left != right ==> right.Words() == old(right.Words())
  {
    CombineInto(left, right, AndOp);
    return left;
  }

  method Or(left: GBitArray, right: GBitArray) returns (result: GBitArray)
    requires left.Valid() && right.Valid()
    requires left == right || left.bits != right.bits
    modifies left, left.bits
    ensures result == left && left.Valid()
    ensures left.Words() == Combined(OrOp, old(left.Words()), old(right.Words()))
    ensures left != right ==> right.Words() == old(right.Words())
  {
    CombineInto(left, right, OrOp);
    return left;
  }

  method Xor(left: GBitArray, right: GBitArray) returns (result: GBitArray)
    requires left.Valid() && right.Valid()
    requires left == right || left.bits != right.bits
    modifies left, left.bits
    ensures result == left && left.Valid()
    ensures left.Words() == Combined(XorOp, old(left.Words()), old(right.Words()))
    ensures left != right ==> right.Words() == old(right.Words())
  {
    CombineInto(left, right, XorOp);
    return left;
  }
}
