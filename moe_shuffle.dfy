/**
 * `shuffleArray`: a Fisher-Yates pass driven by a linear congruential
 * generator, so the same seed always gives the same permutation.
 */
module MoeShuffle {
  import MoeHash

  const TWO_32: nat := MoeHash.TWO_32

  /** 2^53: below it every integer is a double. */
  const TWO_53: nat := 0x20_0000_0000_0000

  /** 2^k. */
  function Pow2(k: nat): (p: nat)
    ensures p >= 1
  {
    if k == 0 then 1 else 2 * Pow2(k - 1)
  }

  /** A positive multiple of d is at least d. */
  lemma MulAtLeast(a: int, d: int)
    requires a >= 1 && d > 0
    ensures a * d >= d
  {
    assert a * d == (a - 1) * d + d;
    assert (a - 1) * d >= 0;
  }

  /** A quotient and remainder pair is the only one. */
  lemma DivUnique(x: int, d: int, q: int, r: int)
    requires d > 0 && x == q * d + r && 0 <= r < d
    ensures x / d == q && x % d == r
  {
    var q0 := x / d;
    var r0 := x % d;
    assert (q0 - q) * d == r - r0 by {
      assert (q0 - q) * d == q0 * d - q * d;
    }
    if q0 > q {
      MulAtLeast(q0 - q, d);
    } else if q0 < q {
      MulAtLeast(q - q0, d);
    }
  }

  /** Halving first and dividing by u is dividing by 2u. */
  lemma DivHalf(x: nat, u: nat)
    requires u >= 1
    ensures x / (2 * u) == (x / 2) / u
  {
    var q := (x / 2) / u;
    var r := (x / 2) % u;
    assert x / 2 == q * u + r;
    assert x == q * (2 * u) + (2 * r + x % 2) by {
      assert q * (2 * u) == 2 * (q * u);
    }
    DivUnique(x, 2 * u, q, 2 * r + x % 2);
  }

  /**
   * The gap between neighbouring doubles around x: 1 below 2^53, doubling
   * with each power of two above.
   */
  function Ulp(x: nat): (u: nat)
    ensures u >= 1
    decreases x
  {
    if x < TWO_53 then 1 else 2 * Ulp(x / 2)
  }

  /** The gap keeps 53 significant bits: x / gap lies in [2^52, 2^53) once x reaches 2^53. */
  lemma {:induction false} UlpKeeps53Bits(x: nat)
    ensures x / Ulp(x) < TWO_53
    ensures x < TWO_53 ==> Ulp(x) == 1
    ensures Ulp(x) > 1 ==> x / Ulp(x) >= TWO_53 / 2
    decreases x
  {
    if x >= TWO_53 {
      var u := Ulp(x / 2);
      UlpKeeps53Bits(x / 2);
      DivHalf(x, u);
    }
  }

  /** Between 2^(52+k) and 2^(53+k) the gap is 2^k. */
  lemma {:induction false} UlpInBinade(x: nat, k: nat)
    requires x < TWO_53 * Pow2(k)
    requires k > 0 ==> TWO_53 * Pow2(k - 1) <= x
    ensures Ulp(x) == Pow2(k)
  {
    if k > 0 {
      var m := TWO_53 * Pow2(k - 1);
      assert TWO_53 * Pow2(k) == 2 * m;
      if k > 1 {
        assert m == 2 * (TWO_53 * Pow2(k - 2));
      }
      UlpInBinade(x / 2, k - 1);
    }
  }

  /**
   * x plus half a unit when `half`, plus a further fraction below half a
   * unit when `sticky`, rounded to the grid of doubles around x. The steps
   * are in RoundStep; callers of Round see only this one call, so they
   * reason with the lemmas below rather than with the binades.
   */
  function Round(x: nat, half: bool, sticky: bool): nat
    decreases x, 1
  {
    RoundStep(x, half, sticky)
  }

  /** One step of Round: round to nearest-even below 2^53, else drop the lowest bit into `half`. */
  function RoundStep(x: nat, half: bool, sticky: bool): nat
    decreases x, 0
  {
    if x < TWO_53 then
      if !half then x else if sticky || x % 2 == 1 then x + 1 else x
    else
      2 * Round(x / 2, x % 2 == 1, half || sticky)
  }

  /** A non-negative integer as a JavaScript number. */
  function RoundToDouble(x: nat): nat
  {
    Round(x, false, false)
  }

  /** The value Round works on, in quarter units, with the sticky fraction taken as one quarter. */
  function Quarters(x: nat, half: bool, sticky: bool): nat
  {
    4 * x + (if half then 2 else 0) + (if sticky then 1 else 0)
  }

  /** Doubling a multiple of u gives a multiple of 2u with the same quotient. */
  lemma DoubleMultiple(r: nat, u: nat)
    requires u >= 1 && r % u == 0
    ensures (2 * r) % (2 * u) == 0 && (2 * r) / (2 * u) == r / u
  {
    var k := r / u;
    assert r == k * u;
    assert 2 * r == k * (2 * u);
    DivUnique(2 * r, 2 * u, k, 0);
  }

  /** The result lies on the grid of doubles around x. */
  lemma {:induction false} RoundOnGrid(x: nat, half: bool, sticky: bool)
    ensures Round(x, half, sticky) % Ulp(x) == 0
    decreases x
  {
    if x >= TWO_53 {
      RoundOnGrid(x / 2, x % 2 == 1, half || sticky);
      DoubleMultiple(Round(x / 2, x % 2 == 1, half || sticky), Ulp(x / 2));
    }
  }

  /** The result is within half a gap of the value; strictly within when sticky. */
  lemma {:induction false} RoundIsClose(x: nat, half: bool, sticky: bool)
    ensures 4 * Round(x, half, sticky) <= Quarters(x, half, sticky) + 2 * Ulp(x)
    ensures Quarters(x, half, sticky) <= 4 * Round(x, half, sticky) + 2 * Ulp(x)
    ensures sticky ==> 4 * Round(x, half, sticky) < Quarters(x, half, sticky) + 2 * Ulp(x)
    ensures sticky ==> Quarters(x, half, sticky) < 4 * Round(x, half, sticky) + 2 * Ulp(x)
    decreases x
  {
    if x >= TWO_53 {
      var h := x / 2;
      var b := x % 2 == 1;
      var s := half || sticky;
      RoundIsClose(h, b, s);
      var d' := 4 * Round(h, b, s) - Quarters(h, b, s);
      if s {
        assert d' % 2 != 0;
      }
      assert 4 * Round(x, half, sticky) - Quarters(x, half, sticky)
          == 2 * d' + 2 * (if s then 1 else 0) - 2 * (if half then 1 else 0) - (if sticky then 1 else 0);
    }
  }

  /** A value exactly halfway between two grid points goes to the even one. */
  lemma {:induction false} RoundTiesToEven(x: nat, half: bool, sticky: bool)
    requires 4 * Round(x, half, sticky) == Quarters(x, half, sticky) + 2 * Ulp(x)
          || 4 * Round(x, half, sticky) + 2 * Ulp(x) == Quarters(x, half, sticky)
    ensures (Round(x, half, sticky) / Ulp(x)) % 2 == 0
    decreases x
  {
    if x >= TWO_53 {
      var h := x / 2;
      var b := x % 2 == 1;
      var s := half || sticky;
      RoundIsClose(h, b, s);
      RoundIsClose(x, half, sticky);
      assert !s;
      assert 4 * Round(x, half, sticky) - Quarters(x, half, sticky)
          == 2 * (4 * Round(h, b, s) - Quarters(h, b, s));
      RoundTiesToEven(h, b, s);
      RoundOnGrid(h, b, s);
      DoubleMultiple(Round(h, b, s), Ulp(h));
    }
  }

  /**
   * RoundToDouble is round-to-nearest, ties-to-even, on the grid of doubles
   * around x, and exact below 2^53.
   */
  lemma RoundToDoubleIsNearest(x: nat)
    ensures RoundToDouble(x) % Ulp(x) == 0
    ensures 2 * x <= 2 * RoundToDouble(x) + Ulp(x) && 2 * RoundToDouble(x) <= 2 * x + Ulp(x)
    ensures 2 * RoundToDouble(x) + Ulp(x) == 2 * x || 2 * RoundToDouble(x) == 2 * x + Ulp(x) ==>
      (RoundToDouble(x) / Ulp(x)) % 2 == 0
    ensures x < TWO_53 ==> RoundToDouble(x) == x
  {
    RoundOnGrid(x, false, false);
    RoundIsClose(x, false, false);
    assert RoundToDouble(x) == Round(x, false, false);
    if 2 * RoundToDouble(x) + Ulp(x) == 2 * x || 2 * RoundToDouble(x) == 2 * x + Ulp(x) {
      RoundTiesToEven(x, false, false);
    }
  }

  /** Between 2^61 and 2^62 doubles are 512 apart: x goes to the nearer multiple of 512. */
  lemma RoundBetween61And62(x: nat, q: nat, rem: nat)
    requires TWO_53 * 256 <= x < TWO_53 * 512
    requires x == 512 * q + rem && rem < 512 && 2 * rem != 512
    ensures RoundToDouble(x) == if 2 * rem < 512 then 512 * q else 512 * q + 512
  {
    assert Pow2(9) == 512 && Pow2(8) == 256;
    UlpInBinade(x, 9);
    RoundToDoubleIsNearest(x);
    var r := RoundToDouble(x);
    var k := r / 512;
    assert r == 512 * k;
  }

  /**
   * The swap partner of position i: `((seed * (i + 1) * 1103515245 + 12345) >>> 0) % (i + 1)`.
   * JavaScript evaluates the products and the sum left to right in doubles, so
   * each intermediate is rounded. Each result is a non-negative integer, so
   * `>>> 0` is reduction modulo 2^32.
   */
  function Partner(seed: nat, i: nat): (j: nat)
    ensures j <= i
  {
    var product := RoundToDouble(RoundToDouble(seed * (i + 1)) * 1103515245);
    (RoundToDouble(product + 12345) % TWO_32) % (i + 1)
  }

  /**
   * "hello" hashes to 99162322. At position 30 its partner is 19, where exact
   * integer arithmetic would give 3.
   */
  lemma HelloPartnerIsRounded()
    ensures Partner(99162322, 30) == 19
    ensures ((99162322 * 31 * 1103515245 + 12345) % TWO_32) % 31 == 3
  {
    RoundToDoubleIsNearest(99162322 * 31);
    RoundBetween61And62(3392241155754565590, 6625471007333135, 470);
    RoundBetween61And62(3392241155754577977, 6625471007333160, 57);
    DivUnique(3392241155754577920, TWO_32, 789817691, 3107344384);
    DivUnique(3107344384, 31, 100236915, 19);
    DivUnique(3392241155754577935, TWO_32, 789817691, 3107344399);
    DivUnique(3107344399, 31, 100236916, 3);
  }

  /** The next seed: `(seed * 1664525 + 1013904223) >>> 0`. */
  function NextSeed(seed: nat): (s: nat)
    ensures s < TWO_32
  {
    (seed * 1664525 + 1013904223) % TWO_32
  }

  /** `[array[i], array[j]] = [array[j], array[i]]` on a sequence. */
  function Swap(s: seq<int>, i: nat, j: nat): (r: seq<int>)
    requires i < |s| && j < |s|
    ensures |r| == |s| && r[i] == s[j] && r[j] == s[i]
    ensures forall k :: 0 <= k < |s| && k != i && k != j ==> r[k] == s[k]
  {
    s[i := s[j]][j := s[i]]
  }

  /** A swap only reorders. */
  lemma SwapPermutes(s: seq<int>, i: nat, j: nat)
    requires i < |s| && j < |s|
    ensures multiset(Swap(s, i, j)) == multiset(s)
  {
  }

  /**
   * The loop from position i down to 1: swap position i with its partner,
   * advance the seed, continue with i - 1.
   */
  function ShuffleFrom(s: seq<int>, i: nat, seed: nat): (r: seq<int>)
    requires i < |s|
    ensures |r| == |s|
    decreases i
  {
    if i == 0 then s
    else ShuffleFrom(Swap(s, i, Partner(seed, i)), i - 1, NextSeed(seed))
  }

  /** The whole shuffle of `s` with initial seed `seed`. */
  function Shuffled(s: seq<int>, seed: nat): (r: seq<int>)
    ensures |r| == |s|
  {
    if |s| == 0 then s else ShuffleFrom(s, |s| - 1, seed)
  }

  /** Every round is a swap, so the loop only reorders. */
  lemma {:induction false} ShuffleFromPermutes(s: seq<int>, i: nat, seed: nat)
    requires i < |s|
    ensures multiset(ShuffleFrom(s, i, seed)) == multiset(s)
    decreases i
  {
    if i > 0 {
      var t := Swap(s, i, Partner(seed, i));
      SwapPermutes(s, i, Partner(seed, i));
      ShuffleFromPermutes(t, i - 1, NextSeed(seed));
    }
  }

  /** The shuffle is a permutation of its input. */
  lemma ShuffledPermutes(s: seq<int>, seed: nat)
    ensures multiset(Shuffled(s, seed)) == multiset(s)
  {
    if |s| > 0 {
      ShuffleFromPermutes(s, |s| - 1, seed);
    }
  }

  /** A shuffle keeps exactly the entries it was given. */
  lemma ShuffledSameElements(s: seq<int>, seed: nat)
    ensures forall x :: x in Shuffled(s, seed) <==> x in s
  {
    var r := Shuffled(s, seed);
    ShuffledPermutes(s, seed);
    forall x ensures x in r <==> x in s {
      assert x in r <==> x in multiset(r);
      assert x in s <==> x in multiset(s);
    }
  }

  /** Lists of zero or one entries come back unchanged, whatever the seed. */
  lemma ShortListsUnchanged(s: seq<int>, seed: nat)
    requires |s| <= 1
    ensures Shuffled(s, seed) == s
  {
  }

  /** A two-entry list comes back reversed exactly when the partner of position 1 is 0. */
  lemma TwoEntries(x: int, y: int, seed: nat)
    ensures Shuffled([x, y], seed) == if Partner(seed, 1) == 0 then [y, x] else [x, y]
  {
    var s := [x, y];
    assert Shuffled(s, seed) == ShuffleFrom(Swap(s, 1, Partner(seed, 1)), 0, NextSeed(seed));
    if Partner(seed, 1) == 0 {
      assert Swap(s, 1, 0) == [y, x];
    } else {
      assert Swap(s, 1, 1) == [x, y];
    }
  }

  /** `shuffleArray(array, seed)`, in place. */
  method ShuffleArray(a: array<int>, seed: nat)
    modifies a
    ensures a[..] == Shuffled(old(a[..]), seed)
  {
    var s: nat := seed;
    var i := a.Length - 1;
    while i > 0
      invariant i < a.Length && (a.Length > 0 ==> i >= 0)
      invariant a.Length > 0 ==> ShuffleFrom(a[..], i, s) == Shuffled(old(a[..]), seed)
      decreases i
    {
      var j := Partner(s, i);
      ghost var before := a[..];
      a[i], a[j] := a[j], a[i];
      ShuffleStep(before, a[..], i, j, s);
      s := NextSeed(s);
      i := i - 1;
    }
  }

  /** One round of the loop: swapping i with its partner leaves the rounds from i - 1 on. */
  lemma ShuffleStep(before: seq<int>, after: seq<int>, i: nat, j: nat, seed: nat)
    requires 0 < i < |before| && j == Partner(seed, i)
    requires |after| == |before| && after[i] == before[j] && after[j] == before[i]
    requires forall k :: 0 <= k < |before| && k != i && k != j ==> after[k] == before[k]
    ensures ShuffleFrom(after, i - 1, NextSeed(seed)) == ShuffleFrom(before, i, seed)
  {
    assert after == Swap(before, i, j);
  }
}
