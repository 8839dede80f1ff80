/** Integers that pass through a float64, as JSON numbers do. */
module Float64 {

  const TWO_53: int := 0x20_0000_0000_0000

  /** The multiple of `ulp` nearest to x, ties to the even multiple. */
  function NearestMultiple(x: nat, ulp: nat): nat
    requires ulp > 0
  {
    var q, r := x / ulp, x % ulp;
    if 2 * r < ulp || (2 * r == ulp && q % 2 == 0) then q * ulp else (q + 1) * ulp
  }

  /** Round to 53 significant bits; ulp is the smallest spacing still to be tried. */
  function RoundNat(x: nat, ulp: nat): nat
    requires ulp > 0
    decreases x - ulp
  {
    if x < TWO_53 * ulp then NearestMultiple(x, ulp) else RoundNat(x, 2 * ulp)
  }

  /** int64 -> float64 -> int64. */
  function RoundTrip(x: int): int {
    if x < 0 then 0 - RoundNat(-x, 1) else RoundNat(x, 1)
  }

  /** Every integer of magnitude at most 2^53 survives the trip; the next one does not. */
  lemma {:induction false} RoundTripExact(x: int)
    ensures -TWO_53 <= x <= TWO_53 ==> RoundTrip(x) == x
    ensures RoundTrip(TWO_53 + 1) == TWO_53
  {
    var m := if x < 0 then -x else x;
    if m < TWO_53 {
      assert m / 1 == m && m % 1 == 0;
    }
    assert TWO_53 / 2 * 2 == TWO_53;
    assert RoundNat(TWO_53, 1) == RoundNat(TWO_53, 2) == NearestMultiple(TWO_53, 2);
    assert RoundNat(TWO_53 + 1, 1) == RoundNat(TWO_53 + 1, 2) == NearestMultiple(TWO_53 + 1, 2);
  }

  // ----- which integers survive -----

  function Pow2(e: nat): nat {
    if e == 0 then 1 else 2 * Pow2(e - 1)
  }

  lemma {:induction false} Pow2Positive(e: nat)
    ensures Pow2(e) > 0
  {
    if e > 0 {
      Pow2Positive(e - 1);
    }
  }

  /** The result of rounding is a multiple no further off than half a step, the even one if two are as near. */
  lemma {:induction false} NearestIsNearest(x: nat, ulp: nat)
    requires ulp > 0
    ensures var n := NearestMultiple(x, ulp);
            var off := if n < x then x - n else n - x;
            n % ulp == 0 && 2 * off <= ulp && (2 * off == ulp ==> n / ulp % 2 == 0)
  {
    var q, r := x / ulp, x % ulp;
    assert x == q * ulp + r;
    assert (q + 1) * ulp == q * ulp + ulp;
    Divides(q, ulp);
    Divides(q + 1, ulp);
  }

  lemma {:induction false} Divides(q: nat, ulp: nat)
    requires ulp > 0
    ensures q * ulp % ulp == 0 && q * ulp / ulp == q
  {
    var n := q * ulp;
    assert n == (n / ulp) * ulp + n % ulp;
    if n / ulp < q {
      Apart(n / ulp, q, ulp);
    } else if n / ulp > q {
      Apart(q, n / ulp, ulp);
    }
  }

  lemma {:induction false} AtLeastOne(d: nat, u: nat)
    requires d >= 1
    ensures d * u >= u
  {
    assert d * u == (d - 1) * u + u;
  }

  lemma {:induction false} Difference(p: int, q: int, u: nat)
    ensures (q - p) * u == q * u - p * u
  {
  }

  lemma {:induction false} Apart(p: int, q: int, u: nat)
    requires p < q
    ensures p * u + u <= q * u
  {
    Difference(p, q, u);
    AtLeastOne(q - p, u);
  }

  lemma {:induction false} AtMostTimes(a: nat, b: nat, u: nat)
    requires a <= b
    ensures a * u <= b * u && u * a <= u * b
  {
    if a < b {
      Apart(a, b, u);
    }
  }

  lemma {:induction false} NearestKeeps(x: nat, ulp: nat)
    requires ulp > 0
    ensures NearestMultiple(x, ulp) == x <==> x % ulp == 0
  {
    NearestIsNearest(x, ulp);
    assert x == x / ulp * ulp + x % ulp;
  }

  /** Rounding uses a power of two as its step, the first by which 53 bits reach x. */
  lemma {:induction false} StepOf(x: nat, e: nat) returns (k: nat)
    ensures k >= e && x < TWO_53 * Pow2(k) && Pow2(e) > 0 && Pow2(k) > 0
    ensures RoundNat(x, Pow2(e)) == NearestMultiple(x, Pow2(k))
    ensures k > e ==> x >= TWO_53 * Pow2(k - 1)
    decreases x - Pow2(e)
  {
    Pow2Positive(e);
    k := e;
    if x >= TWO_53 * Pow2(e) {
      k := StepOf(x, e + 1);
    }
  }

  lemma {:induction false} Pow2Divides(x: nat, k: nat, e: nat)
    requires k <= e && Pow2(e) > 0 && Pow2(k) > 0 && x % Pow2(e) == 0
    ensures x % Pow2(k) == 0
    decreases e - k
  {
    if k < e {
      Pow2Positive(e - 1);
      var q := x / Pow2(e);
      assert x == q * (2 * Pow2(e - 1)) == (q * 2) * Pow2(e - 1);
      Divides(q * 2, Pow2(e - 1));
      Pow2Divides(x, k, e - 1);
    }
  }

  /** At most 53 bits, shifted by any number of places. */
  predicate Fits(x: nat, m: nat, e: nat) {
    m < TWO_53 && x == m * Pow2(e)
  }

  lemma {:induction false} Pow2Grows(e: nat, k: nat)
    requires e <= k
    ensures Pow2(e) <= Pow2(k)
  {
    if e < k {
      Pow2Grows(e, k - 1);
    }
  }

  /** A number that fits is below the reach of its own step. */
  lemma {:induction false} FitsReach(x: nat, m: nat, e: nat, k: nat)
    requires Fits(x, m, e) && e < k
    ensures x < TWO_53 * Pow2(k - 1)
  {
    Pow2Positive(e);
    Apart(m, TWO_53, Pow2(e));
    Pow2Grows(e, k - 1);
    AtMostTimes(Pow2(e), Pow2(k - 1), TWO_53);
  }

  lemma {:induction false} FitsSurvives(x: nat, m: nat, e: nat)
    requires Fits(x, m, e)
    ensures RoundNat(x, 1) == x
  {
    var k := StepOf(x, 0);
    Pow2Positive(e);
    Divides(m, Pow2(e));
    if k > e {
      FitsReach(x, m, e, k);
    } else {
      Pow2Divides(x, k, e);
      NearestKeeps(x, Pow2(k));
    }
  }

  lemma {:induction false} SurvivorFits(x: nat) returns (m: nat, e: nat)
    requires RoundNat(x, 1) == x
    ensures Fits(x, m, e)
  {
    e := StepOf(x, 0);
    NearestKeeps(x, Pow2(e));
    m := x / Pow2(e);
    if m >= TWO_53 {
      AtMostTimes(TWO_53, m, Pow2(e));
    }
  }

  function Magnitude(x: int): nat {
    if x < 0 then -x else x
  }

  /** Exactly the integers of at most 53 significant bits survive the trip. */
  lemma {:induction false} SurvivesIffFits(x: int)
    ensures RoundTrip(x) == x <==> exists m: nat, e: nat :: Fits(Magnitude(x), m, e)
  {
    if m: nat, e: nat :| Fits(Magnitude(x), m, e) {
      FitsSurvives(Magnitude(x), m, e);
    }
    if RoundTrip(x) == x {
      var m, e := SurvivorFits(Magnitude(x));
    }
  }
}
