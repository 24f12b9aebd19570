/** float32 bit patterns (section 3.4 of IEEE 754-2019), their order (section 5.11), and the packed sort key.
    A pattern is a 32-bit word; its int32 view is the two's-complement reading. */
module Float32 {
  import opened Basics

  const SIGN := 0x8000_0000

  newtype Word = w: int | 0 <= w < 0x1_0000_0000

  /** Exponent and fraction bits, without the sign. */
  function Magnitude(w: Word): nat {
    w as int % SIGN
  }

  predicate Negative(w: Word) {
    w as int >= SIGN
  }

  predicate IsNaN(w: Word) {
    Magnitude(w) > 0x7F80_0000
  }

  /** The absolute value in units of 2^-149, the smallest subnormal: the fraction itself when the
      exponent field is 0, else (1.fraction) scaled by the exponent. The pattern of infinity
      (exponent 255, fraction 0) reads as 2^277 units, above every finite value. */
  function Units(magnitude: nat): nat {
    var exponent := magnitude / 0x80_0000;
    var fraction := magnitude % 0x80_0000;
    if exponent == 0 then fraction else (0x80_0000 + fraction) * Pow2(exponent - 1)
  }

  /** The number a non-NaN pattern stands for, in units of 2^-149. The two zeros are one number. */
  function Value(w: Word): int {
    var units: int := Units(Magnitude(w));
    if Negative(w) then -units else units
  }

  /** A float's place among the floats: sign and magnitude bits read as a signed integer. */
  function Ordinal(w: Word): int {
    var magnitude: int := Magnitude(w);
    if Negative(w) then -magnitude else magnitude
  }

  lemma UnitsStep(m: nat)
    ensures Units(m) < Units(m + 1)
  {
    var exponent, fraction := m / 0x80_0000, m % 0x80_0000;
    if fraction + 1 < 0x80_0000 {
      assert (m + 1) / 0x80_0000 == exponent && (m + 1) % 0x80_0000 == fraction + 1;
      if exponent > 0 {
        assert (0x80_0000 + fraction + 1) * Pow2(exponent - 1) == (0x80_0000 + fraction) * Pow2(exponent - 1) + Pow2(exponent - 1);
      }
    } else {
      assert (m + 1) / 0x80_0000 == exponent + 1 && (m + 1) % 0x80_0000 == 0;
      if exponent > 0 {
        assert Pow2(exponent) == 2 * Pow2(exponent - 1);
      }
    }
  }

  lemma {:induction false} UnitsMonotone(m: nat, n: nat)
    requires m < n
    ensures Units(m) < Units(n)
    decreases n
  {
    UnitsStep(n - 1);
    if m < n - 1 {
      UnitsMonotone(m, n - 1);
    }
  }

  /** Ordinals order float32 patterns exactly as the numbers do. */
  lemma OrdinalOrdersValues(a: Word, b: Word)
    ensures Ordinal(a) < Ordinal(b) <==> Value(a) < Value(b)
    ensures Ordinal(a) == Ordinal(b) <==> Value(a) == Value(b)
  {
    var m, n := Magnitude(a), Magnitude(b);
    if m < n { UnitsMonotone(m, n); }
    if n < m { UnitsMonotone(n, m); }
    if 0 < m { UnitsMonotone(0, m); }
    if 0 < n { UnitsMonotone(0, n); }
  }

  // The key, operation by operation.

  /** The int32 view of a word. */
  function AsInt32(w: Word): int {
    if Negative(w) then w as int - 2 * SIGN else w as int
  }

  /** `np.negative(x) + 0.0`: the sign bit flips, and minus zero becomes plus zero. */
  function NegatedFolded(w: Word): Word {
    var negated: Word := if Negative(w) then (w as int - SIGN) as Word else (w as int + SIGN) as Word;
    if negated as int == SIGN then 0 else negated
  }

  /** Bitwise exclusive or of natural numbers. */
  function Xor(x: nat, y: nat): nat
    decreases x + y
  {
    if x == 0 then y
    else if y == 0 then x
    else (x + y) % 2 + 2 * Xor(x / 2, y / 2)
  }

  lemma XorOdd(x: nat, y: nat)
    requires x > 0
    ensures Xor(x, 2 * y + 1) == 1 - x % 2 + 2 * Xor(x / 2, y)
  {
    assert (2 * y + 1) / 2 == y && (x + (2 * y + 1)) % 2 == 1 - x % 2;
  }

  /** Exclusive or with n ones flips the n low bits and keeps the one above. */
  lemma {:induction false} FlipLow(n: nat, low: nat)
    requires low < Pow2(n)
    ensures Xor(Pow2(n) + low, Pow2(n) - 1) == Pow2(n) + (Pow2(n) - 1 - low)
  {
    if n > 0 {
      var half := Pow2(n - 1);
      FlipLow(n - 1, low / 2);
      XorOdd(2 * half + low, half - 1);
      assert (2 * half + low) / 2 == half + low / 2;
    }
  }

  /** `bits ^ ((bits >> 31) & 0x7FFFFFFF)`, as an int32: the arithmetic shift gives 0 or -1, whose
      31 low bits are the mask. */
  function HighWord(score: Word): int {
    var bits := NegatedFolded(score);
    var mask := (AsInt32(bits) / SIGN) % SIGN;
    AsInt32((Xor(bits as int, mask) % (2 * SIGN)) as Word)
  }

  /** The int64 key: the high word shifted up 32 places, the position's low 32 bits below it. */
  function RankKey(score: Word, position: int): int {
    HighWord(score) * 0x1_0000_0000 + position % 0x1_0000_0000
  }

  lemma ShiftMask(x: int)
    requires -SIGN <= x < 0
    ensures (x / SIGN) % SIGN == SIGN - 1
  {
    assert x / SIGN == -1;
  }

  lemma PowersOfTwo()
    ensures Pow2(31) == SIGN
  {
    assert Pow2(8) == 256;
    assert Pow2(16) == 0x1_0000;
    assert Pow2(24) == 0x100_0000;
  }

  lemma FlipWord(x: nat)
    requires SIGN <= x < 2 * SIGN
    ensures Xor(x, SIGN - 1) == SIGN + (SIGN - 1 - (x - SIGN))
  {
    PowersOfTwo();
    FlipLow(31, x - SIGN);
  }

  lemma HighWordIsOrdinal(score: Word)
    ensures HighWord(score) == if Ordinal(score) <= 0 then -Ordinal(score) else -Ordinal(score) - 1
  {
    var bits := NegatedFolded(score);
    if Negative(bits) {
      ShiftMask(AsInt32(bits));
      FlipWord(bits as int);
    } else {
      assert AsInt32(bits) / SIGN == 0;
    }
  }

  /** The single-key sort sorts by (score descending, position ascending): for all non-NaN scores,
      infinities and both zeros included, keys compare as the numbers and then the positions do.
      A position is compared by its low 32 bits, so -1 comes after every real position. */
  lemma RankKeyEmbedsOrder(a: Word, p: int, b: Word, q: int)
    requires !IsNaN(a) && !IsNaN(b)
    ensures RankKey(a, p) < RankKey(b, q)
       <==> Value(a) > Value(b) || (Value(a) == Value(b) && p % 0x1_0000_0000 < q % 0x1_0000_0000)
    ensures -0x8000_0000_0000_0000 <= RankKey(a, p) < 0x8000_0000_0000_0000
  {
    HighWordIsOrdinal(a);
    HighWordIsOrdinal(b);
    OrdinalOrdersValues(a, b);
    OrdinalOrdersValues(b, a);
  }
}
