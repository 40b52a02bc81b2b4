/** The binary32 format and its rounding rule, independent of any implementation.

    A bit pattern is a sign bit over a 31-bit magnitude; magnitudes below INF are the
    finite numbers and are ordered as their values are. `RoundsTo` states
    roundTiesToEven (section 4.3.1 of IEEE 754-2019) over all magnitudes at once. */
module Binary32 {
  import opened Common

  const HIDDEN := 0x80_0000  // 2^23, the implicit leading bit
  const INF := 0x7F80_0000  // magnitude of infinity
  const SIGN := 0x8000_0000

  type Bits = Word

  // ----- q * 2^k, exactly -----

  // Halving and doubling only, so that reasoning about it stays linear; see ScaledProduct.
  function Scaled(q: int, k: int): real
    decreases if k < 0 then -k else k
  {
    if k == 0 then q as real
    else if k > 0 then 2.0 * Scaled(q, k - 1)
    else Scaled(q, k + 1) / 2.0
  }

  lemma {:induction false} ScaledSum(q: int, r: int, k: int)
    ensures Scaled(q + r, k) == Scaled(q, k) + Scaled(r, k)
    decreases if k < 0 then -k else k
  {
    if k > 0 { ScaledSum(q, r, k - 1); } else if k < 0 { ScaledSum(q, r, k + 1); }
  }

  lemma {:induction false} ScaledOrder(q: int, r: int, k: int)
    ensures q < r <==> Scaled(q, k) < Scaled(r, k)
    ensures q == r <==> Scaled(q, k) == Scaled(r, k)
    decreases if k < 0 then -k else k
  {
    if k > 0 { ScaledOrder(q, r, k - 1); } else if k < 0 { ScaledOrder(q, r, k + 1); }
  }

  lemma {:induction false} ScaledZero(k: int)
    ensures Scaled(0, k) == 0.0
    decreases if k < 0 then -k else k
  {
    if k > 0 { ScaledZero(k - 1); } else if k < 0 { ScaledZero(k + 1); }
  }

  lemma {:induction false} ScaledDouble(q: int, k: int)
    ensures Scaled(2 * q, k) == Scaled(q, k + 1) == 2.0 * Scaled(q, k)
    decreases if k < 0 then -k else k
  {
    if k > 0 { ScaledDouble(q, k - 1); } else if k < 0 { ScaledDouble(q, k + 1); }
  }

  lemma {:induction false} ScaledGrows(q: int, k: int, l: int)
    requires 0 <= q && k <= l
    ensures 0.0 <= Scaled(q, k) <= Scaled(q, l)
    decreases l - k
  {
    ScaledZero(k);
    ScaledZero(l);
    ScaledOrder(0, q, k);
    ScaledOrder(0, q, l);
    if k < l {
      ScaledGrows(q, k, l - 1);
      ScaledDouble(q, l - 1);
    }
  }

  // Multiplication under a name, so that the induction below sees no nonlinear terms.
  function Times(x: real, y: real): real { x * y }

  lemma TimesDouble(x: real, y: real)
    ensures Times(2.0 * x, y) == Times(x, 2.0 * y) == 2.0 * Times(x, y)
  {
  }

  lemma {:induction false} ScaledTimesInt(s: int, t: int, l: int)
    ensures Times(s as real, Scaled(t, l)) == Scaled(s * t, l)
    decreases if l < 0 then -l else l
  {
    if l > 0 {
      ScaledTimesInt(s, t, l - 1);
      TimesDouble(s as real, Scaled(t, l - 1));
    } else if l < 0 {
      ScaledTimesInt(s, t, l + 1);
      TimesDouble(s as real, Scaled(t, l));
    }
  }

  lemma {:induction false} ScaledProduct(s: int, k: int, t: int, l: int)
    ensures Times(Scaled(s, k), Scaled(t, l)) == Scaled(s * t, k + l)
    decreases if k < 0 then -k else k
  {
    if k == 0 {
      ScaledTimesInt(s, t, l);
    } else if k > 0 {
      ScaledProduct(s, k - 1, t, l);
      TimesDouble(Scaled(s, k - 1), Scaled(t, l));
      ScaledDouble(s * t, k - 1 + l);
    } else {
      ScaledProduct(s, k + 1, t, l);
      TimesDouble(Scaled(s, k), Scaled(t, l));
      ScaledDouble(s * t, k + l);
    }
  }

  // ----- values -----

  function SignOf(x: Bits): int { x / SIGN }

  function Mag(x: Bits): int { x % SIGN }

  function Exponent(x: Bits): int { Mag(x) / HIDDEN }

  function Fraction(x: Bits): int { x % HIDDEN }

  predicate IsFinite(x: Bits) { Mag(x) < INF }

  predicate IsInfinite(x: Bits) { Mag(x) == INF }

  predicate IsNaN(x: Bits) { Mag(x) > INF }

  // The exponent a magnitude is scaled by: subnormals share the scale of exponent 1.
  function Scale(m: int): int { if m < HIDDEN then 1 else m / HIDDEN }

  // The 24-bit significand with the hidden bit made explicit.
  function Significand(m: int): int { if m < HIDDEN then m else HIDDEN + m % HIDDEN }

  // INF is given the value 2^128 that the next exponent would have, so overflow is rounding too.
  function MagValue(m: int): real { Scaled(Significand(m), Scale(m) - 150) }

  function Value(x: Bits): real { if SignOf(x) == 1 then -MagValue(Mag(x)) else MagValue(Mag(x)) }

  function Pack(sign: int, m: int): Bits
    requires 0 <= sign <= 1 && 0 <= m < SIGN
  {
    sign * SIGN + m
  }

  function Abs(v: real): real { if v < 0.0 then -v else v }

  // ----- rounding -----

  // m is a nearest magnitude to v, and an even one when two are equally near.
  ghost predicate RoundsTo(v: real, m: int) {
    0 <= m <= INF &&
    forall n {:trigger MagValue(n)} :: 0 <= n <= INF && n != m ==>
      Abs(v - MagValue(m)) <= Abs(v - MagValue(n)) &&
      (Abs(v - MagValue(m)) == Abs(v - MagValue(n)) ==> m % 2 == 0)
  }

  // Halfway between m and its successor.
  function Mid(m: int): real { (MagValue(m) + MagValue(m + 1)) / 2.0 }

  lemma MidIs(m: int, x: real, y: real)
    requires MagValue(m) == x && MagValue(m + 1) == y
    ensures Mid(m) == (x + y) / 2.0
  {
  }

  // v lies in the rounding interval of m, bounded by the two adjacent midpoints.
  predicate InInterval(v: real, m: int) {
    0 <= m <= INF &&
    (m > 0 ==> Mid(m - 1) <= v && (v == Mid(m - 1) ==> m % 2 == 0)) &&
    (m < INF ==> v <= Mid(m) && (v == Mid(m) ==> m % 2 == 0))
  }

  // Every magnitude is (E-1)*2^23 + q; its value is then q units of 2^(E-150).
  lemma Lattice(E: int, q: int)
    requires E >= 1 && 0 <= q <= 2 * HIDDEN && (E == 1 || q >= HIDDEN)
    ensures MagValue((E - 1) * HIDDEN + q) == Scaled(q, E - 150)
  {
    var m := (E - 1) * HIDDEN + q;
    if q == 2 * HIDDEN {
      assert m == (E + 1) * HIDDEN;
      ScaledDouble(HIDDEN, E - 150);
    } else if q >= HIDDEN {
      assert m == E * HIDDEN + (q - HIDDEN);
    }
  }

  lemma Ulp(m: int)
    requires 0 <= m
    ensures MagValue(m + 1) - MagValue(m) == Scaled(1, Scale(m) - 150) > 0.0
  {
    var E := Scale(m);
    var q := m - (E - 1) * HIDDEN;
    Lattice(E, q);
    Lattice(E, q + 1);
    ScaledSum(q, 1, E - 150);
    ScaledOrder(0, 1, E - 150);
    ScaledZero(E - 150);
  }

  lemma {:induction false} MagValueIncreases(m: int, n: int)
    requires 0 <= m < n
    ensures MagValue(m) < MagValue(n)
    decreases n - m
  {
    Ulp(n - 1);
    if m < n - 1 {
      MagValueIncreases(m, n - 1);
    }
  }

  lemma NearerThanAbove(v: real, m: int, n: int)
    requires 0 <= m < n && v <= Mid(m) && (v == Mid(m) ==> m % 2 == 0)
    ensures Abs(v - MagValue(m)) <= Abs(v - MagValue(n))
    ensures Abs(v - MagValue(m)) == Abs(v - MagValue(n)) ==> m % 2 == 0
  {
    MagValueIncreases(m, m + 1);
    if m + 1 < n { MagValueIncreases(m + 1, n); }
  }

  lemma NearerThanBelow(v: real, m: int, n: int)
    requires 0 <= n < m && Mid(m - 1) <= v && (v == Mid(m - 1) ==> m % 2 == 0)
    ensures Abs(v - MagValue(m)) <= Abs(v - MagValue(n))
    ensures Abs(v - MagValue(m)) == Abs(v - MagValue(n)) ==> m % 2 == 0
  {
    MagValueIncreases(m - 1, m);
    if n < m - 1 { MagValueIncreases(n, m - 1); }
  }

  lemma IntervalRounds(v: real, m: int)
    requires InInterval(v, m)
    ensures RoundsTo(v, m)
  {
    forall n {:trigger MagValue(n)} | 0 <= n <= INF && n != m
      ensures Abs(v - MagValue(m)) <= Abs(v - MagValue(n))
      ensures Abs(v - MagValue(m)) == Abs(v - MagValue(n)) ==> m % 2 == 0
    {
      if m < n { NearerThanAbove(v, m, n); } else { NearerThanBelow(v, m, n); }
    }
  }

  lemma RoundsToUnique(v: real, m: int, n: int)
    requires RoundsTo(v, m) && RoundsTo(v, n)
    ensures m == n
  {
    if m != n {
      var lo, hi := if m < n then m else n, if m < n then n else m;
      MagValueIncreases(lo, hi);
      assert Abs(v - MagValue(m)) == Abs(v - MagValue(n));
      assert lo + 1 < hi;
      MagValueIncreases(lo, lo + 1);
      MagValueIncreases(lo + 1, hi);
      assert false;
    }
  }

  lemma {:induction false} FloorExists(v: real, lo: int) returns (m: int)
    requires 0 <= lo <= INF && MagValue(lo) <= v
    ensures lo <= m <= INF && MagValue(m) <= v && (m < INF ==> v < MagValue(m + 1))
    decreases INF - lo
  {
    if lo < INF && MagValue(lo + 1) <= v {
      m := FloorExists(v, lo + 1);
    } else {
      m := lo;
    }
  }

  lemma MidBetween(m: int)
    requires 0 <= m
    ensures MagValue(m) < Mid(m) < MagValue(m + 1)
  {
    MagValueIncreases(m, m + 1);
  }

  // Between two neighbours, the midpoint decides.
  lemma IntervalOfFloor(v: real, lo: int) returns (m: int)
    requires 0 <= lo < INF && MagValue(lo) <= v < MagValue(lo + 1)
    ensures InInterval(v, m)
  {
    MidBetween(lo);
    if v < Mid(lo) || (v == Mid(lo) && lo % 2 == 0) {
      m := lo;
      if m > 0 { MidBetween(m - 1); }
    } else {
      m := lo + 1;
      MidBetween(m);
    }
  }

  lemma IntervalExists(v: real) returns (m: int)
    requires v >= 0.0
    ensures InInterval(v, m)
  {
    ScaledZero(-149);
    m := FloorExists(v, 0);
    if m == INF { MidBetween(INF - 1); } else { m := IntervalOfFloor(v, m); }
  }

  // The correctly rounded magnitude of a nonnegative real.
  ghost function Nearest(v: real): (m: int)
    requires v >= 0.0
    ensures RoundsTo(v, m)
  {
    assert exists m :: RoundsTo(v, m) by {
      var m := IntervalExists(v);
      IntervalRounds(v, m);
    }
    var m :| RoundsTo(v, m);
    m
  }

  lemma NearestIs(v: real, m: int)
    requires v >= 0.0 && InInterval(v, m)
    ensures Nearest(v) == m
  {
    IntervalRounds(v, m);
    RoundsToUnique(v, m, Nearest(v));
  }

  // Conversely, the rounded magnitude is bracketed by its midpoints.
  lemma NearestInInterval(v: real)
    requires v >= 0.0
    ensures InInterval(v, Nearest(v))
  {
    var m := IntervalExists(v);
    NearestIs(v, m);
  }

  // A representable value rounds to itself.
  lemma NearestExact(m: int)
    requires 0 <= m <= INF
    ensures MagValue(m) >= 0.0 && Nearest(MagValue(m)) == m
  {
    ScaledZero(-149);
    if m > 0 { MidBetween(m - 1); MagValueIncreases(0, m); }
    MidBetween(m);
    NearestIs(MagValue(m), m);
  }
}
