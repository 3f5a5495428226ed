/**
 * The 32-bit string hash of the palette generator: a loop over the UTF-16
 * code units of a string with signed 32-bit wrap-around, the recurrence of
 * Java's `String.hashCode`.
 *
 * JavaScript numbers are doubles, but every intermediate value of the loop is
 * an integer far below 2^53, so the model uses unbounded integers and writes
 * the two int32 conversions of the source (`<<` and `|= 0`) out as `ToInt32`.
 */
module HashCode {

  const TWO_32: int := 0x1_0000_0000
  const TWO_31: int := 0x8000_0000

  /** A UTF-16 code unit, as returned by `charCodeAt`. */
  type CodeUnit = c: int | 0 <= c < 0x1_0000

  /** ECMAScript ToInt32: the signed 32-bit value congruent to `x` modulo 2^32. */
  function ToInt32(x: int): (r: int)
    ensures -TWO_31 <= r < TWO_31
    ensures (x - r) % TWO_32 == 0
  {
    (x + TWO_31) % TWO_32 - TWO_31
  }

  /** `h << 5` in JavaScript: the operand is taken as int32, shifted, and the result read back as int32. */
  function ShiftLeft5(h: int): (r: int)
    ensures -TWO_31 <= r < TWO_31
    ensures (r - 32 * h) % TWO_32 == 0
  {
    ToInt32(ToInt32(h) * 32)
  }

  function Pow31(k: nat): (p: nat)
    ensures p >= 1
  {
    if k == 0 then 1 else 31 * Pow31(k - 1)
  }

  /** The closed form: the sum of s[i] * 31^(|s| - 1 - i), without any wrap-around. */
  function PolySum(s: seq<CodeUnit>): int
  {
    if s == [] then 0 else s[0] * Pow31(|s| - 1) + PolySum(s[1..])
  }

  /** What `hashCode` returns: the closed form read as a signed 32-bit value. */
  function HashOf(s: seq<CodeUnit>): int
  {
    ToInt32(PolySum(s))
  }

  /** Two integers congruent modulo 2^32 have the same int32 reading. */
  lemma ToInt32Congruent(x: int, y: int)
    requires (x - y) % TWO_32 == 0
    ensures ToInt32(x) == ToInt32(y)
  {
    var q := (x - y) / TWO_32;
    assert x == y + q * TWO_32;
    assert (x + TWO_31) == (y + TWO_31) + q * TWO_32;
    ModShift(y + TWO_31, q);
  }

  lemma ModShift(a: int, q: int)
    ensures (a + q * TWO_32) % TWO_32 == a % TWO_32
  {
  }

  /** One iteration of the loop: `(hash << 5) - hash + chr`, then `|= 0`, is 31 * hash + chr read as int32. */
  lemma {:induction false} StepIsTimes31(h: int, c: int)
    ensures ToInt32(ShiftLeft5(h) - h + c) == ToInt32(31 * h + c)
  {
    var d := ShiftLeft5(h) - 32 * h;
    assert d % TWO_32 == 0;
    assert (ShiftLeft5(h) - h + c) - (31 * h + c) == d;
    ToInt32Congruent(ShiftLeft5(h) - h + c, 31 * h + c);
  }

  /** Horner's rule for the closed form: appending a code unit multiplies by 31 and adds it. */
  lemma {:induction false} PolySumAppend(s: seq<CodeUnit>, c: CodeUnit)
    ensures PolySum(s + [c]) == 31 * PolySum(s) + c
  {
    if s == [] {
      assert [] + [c] == [c];
    } else {
      var t := s[1..];
      assert (s + [c])[1..] == t + [c];
      PolySumAppend(t, c);
      calc {
        PolySum(s + [c]);
        s[0] * Pow31(|t| + 1) + PolySum(t + [c]);
        s[0] * (31 * Pow31(|t|)) + 31 * PolySum(t) + c;
        { assert s[0] * (31 * Pow31(|t|)) == 31 * (s[0] * Pow31(|t|)); }
        31 * (s[0] * Pow31(|t|) + PolySum(t)) + c;
        31 * PolySum(s) + c;
      }
    }
  }

  /** Append law: hashing one more code unit is one more step of the recurrence. */
  lemma {:induction false} HashAppend(s: seq<CodeUnit>, c: CodeUnit)
    ensures HashOf(s + [c]) == ToInt32(31 * HashOf(s) + c)
  {
    PolySumAppend(s, c);
    var p := PolySum(s);
    assert (31 * p + c) - (31 * ToInt32(p) + c) == 31 * (p - ToInt32(p));
    var q := (p - ToInt32(p)) / TWO_32;
    assert p - ToInt32(p) == q * TWO_32;
    assert 31 * (p - ToInt32(p)) == (31 * q) * TWO_32;
    ToInt32Congruent(31 * p + c, 31 * ToInt32(p) + c);
  }

  /** The empty string hashes to 0. */
  lemma EmptyHash()
    ensures HashOf([]) == 0
  {
  }

  /** A one-unit string hashes to its own code unit. */
  lemma {:induction false} SingleUnitHash(c: CodeUnit)
    ensures HashOf([c]) == c
  {
    assert PolySum([c]) == c * Pow31(0) + PolySum([]);
  }

  /**
   * The loop of `hashCode`: each code unit is read once, left to right, and
   * folded in with the shift-subtract-add step and the int32 truncation.
   */
  method ComputeHash(s: seq<CodeUnit>) returns (hash: int)
    ensures hash == HashOf(s)
    ensures -TWO_31 <= hash < TWO_31
  {
    hash := 0;
    var i := 0;
    while i < |s|
      invariant 0 <= i <= |s|
      invariant hash == HashOf(s[..i])
    {
      var chr := s[i];
      StepIsTimes31(hash, chr);
      HashAppend(s[..i], chr);
      assert s[..i + 1] == s[..i] + [chr];
      hash := ShiftLeft5(hash) - hash + chr;
      hash := ToInt32(hash);
      i := i + 1;
    }
    assert s[..i] == s;
  }
}
