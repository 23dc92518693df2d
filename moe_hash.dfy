/**
 * The token hash of the MoE router (`simpleHash`): the recurrence of Java's
 * `String.hashCode`, kept in a 32-bit signed integer, with the absolute value
 * taken at the end.
 */
module MoeHash {
  import opened Base

  const TWO_32: int := 0x1_0000_0000
  const TWO_31: int := 0x8000_0000

  /** ECMAScript ToInt32: reduce modulo 2^32 and read the bits as two's complement. */
  function ToInt32(x: int): (r: int)
    ensures -TWO_31 <= r < TWO_31
    ensures (r - x) % TWO_32 == 0
  {
    var m := x % TWO_32;
    if m >= TWO_31 then m - TWO_32 else m
  }

  /** Two integers that agree modulo 2^32 have the same 32-bit reading. */
  lemma ToInt32Congruent(x: int, y: int)
    requires (x - y) % TWO_32 == 0
    ensures ToInt32(x) == ToInt32(y)
  {
    var k := (x - y) / TWO_32;
    assert x == y + k * TWO_32;
    assert x % TWO_32 == y % TWO_32;
  }

  /** The character code `charCodeAt` reads, for characters of the Basic Multilingual Plane. */
  function Code(c: char): nat { c as int }

  /** One step of the recurrence: h := 31 h + c, as a signed 32-bit integer. */
  function HashStep(h: int, c: char): int
  {
    ToInt32(31 * h + Code(c))
  }

  /** The signed 32-bit state after reading all of `s`. */
  function HashState(s: string): (h: int)
    ensures -TWO_31 <= h < TWO_31
    decreases |s|
  {
    if s == [] then 0 else HashStep(HashState(s[..|s| - 1]), s[|s| - 1])
  }

  /** What `simpleHash` returns: the absolute value, so in [0, 2^31] (2^31 from the state -2^31). */
  function Hash(s: string): (h: nat)
    ensures h <= TWO_31
  {
    Abs(HashState(s))
  }

  /**
   * The unbounded polynomial c_0 31^(n-1) + ... + c_(n-1), which Java's
   * `String.hashCode` reduces modulo 2^32.
   */
  function Poly(s: string): int
    decreases |s|
  {
    if s == [] then 0 else 31 * Poly(s[..|s| - 1]) + Code(s[|s| - 1])
  }

  /** Truncating at every step gives the truncation of the exact polynomial. */
  lemma {:induction false} HashStateIsTruncatedPoly(s: string)
    ensures HashState(s) == ToInt32(Poly(s))
    decreases |s|
  {
    if s != [] {
      var t, c := s[..|s| - 1], s[|s| - 1];
      HashStateIsTruncatedPoly(t);
      var P := Poly(t);
      var T := ToInt32(P);
      ScaleCongruent(T - P, 31);
      assert (31 * T + Code(c)) - (31 * P + Code(c)) == 31 * (T - P);
      ToInt32Congruent(31 * T + Code(c), 31 * P + Code(c));
    }
  }

  /** A multiple of a multiple of 2^32 is a multiple of 2^32. */
  lemma ScaleCongruent(d: int, m: int)
    requires d % TWO_32 == 0
    ensures (m * d) % TWO_32 == 0
  {
    var k := d / TWO_32;
    assert d == k * TWO_32;
    assert m * d == (m * k) * TWO_32;
  }

  /** `(h << 5) - h + c` followed by `& 0xffffffff` is the step h := 31 h + c. */
  lemma {:induction false} ShiftStepIsHashStep(h: int, c: char)
    requires -TWO_31 <= h < TWO_31
    ensures ToInt32(ToInt32(h * 32) - h + Code(c)) == HashStep(h, c)
  {
    var d := ToInt32(h * 32) - h * 32;
    assert d % TWO_32 == 0;
    var k := d / TWO_32;
    assert ToInt32(h * 32) - h + Code(c) - (31 * h + Code(c)) == k * TWO_32;
    ToInt32Congruent(ToInt32(h * 32) - h + Code(c), 31 * h + Code(c));
  }

  /** Distinct short words get distinct hashes, e.g. "cat" and "dog". */
  lemma CatAndDogDiffer()
    ensures Hash("cat") == 98262 && Hash("dog") == 99644
  {
    assert "cat"[..2] == "ca" && "ca"[..1] == "c" && "c"[..0] == "";
    assert HashState("c") == 99;
    assert HashState("ca") == 3166;
    assert HashState("cat") == 98262;
    assert "dog"[..2] == "do" && "do"[..1] == "d" && "d"[..0] == "";
    assert HashState("d") == 100;
    assert HashState("do") == 3211;
    assert HashState("dog") == 99644;
  }

  /**
   * `simpleHash`: the loop of the source, with `hash << 5` and
   * `& 0xffffffff` both read as ToInt32.
   */
  method SimpleHash(str: string) returns (h: nat)
    ensures h == Hash(str)
    ensures h <= TWO_31
    ensures str == [] ==> h == 0
  {
    var hash := 0;
    for i := 0 to |str|
      invariant hash == HashState(str[..i])
    {
      ShiftStepIsHashStep(hash, str[i]);
      assert str[..i + 1][..i] == str[..i];
      hash := ToInt32(ToInt32(hash * 32) - hash + Code(str[i]));
    }
    assert str[..|str|] == str;
    h := Abs(hash);
  }
}
