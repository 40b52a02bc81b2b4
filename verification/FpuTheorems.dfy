/** How close the FPU's results are to correctly rounded ones: exactly when multiplication and
    division round correctly, and by how much division can miss. */
module FpuTheorems {
  import opened Binary32
  import opened Normalize
  import opened Fpu
  import opened FpuDivide

  // ----- the format, by its landmarks -----

  // 1.0, -2.0, 1.5, the least subnormal and the least normal number, and 2^128 for infinity.
  lemma Landmarks()
    ensures Value(0x3F80_0000) == 1.0 && Value(0xC000_0000) == -2.0 && Value(0x3FC0_0000) == 1.5
    ensures Value(1) == Scaled(1, -149) && Value(0x0080_0000) == Scaled(1, -126) && MagValue(INF) == Scaled(1, 128)
    ensures Value(0) == 0.0
  {
    ScaledTimesPow(1, -23);
    ScaledTimesPow(1, -22);
    ScaledTimesPow(1, -149);
    ScaledTimesPow(1, 105);
    HalvesOfOne();
    ScaledZero(-149);
  }

  lemma HalvesOfOne()
    ensures Scaled(0xC0_0000, -23) == 1.5
  {
    ScaledTimesPow(1, -24);
    ScaledSum(0x80_0000, 0x40_0000, -23);
    ScaledTimesPow(1, -23);
    ScaledDouble(0x40_0000, -24);
    ScaledDouble(0x40_0000, -23);
  }

  // ----- the gap below 2^-126 -----

  lemma GapRoundsUp(v: real)
    requires InGap(v)
    ensures v > 0.0 && Nearest(v) == HIDDEN
  {
    ZeroHasNoSign();
    MidBetween(HIDDEN - 1);
    MagPositive(HIDDEN - 1);
    MidBetween(HIDDEN);
    NearestIs(v, HIDDEN);
  }

  // The normaliser rounds correctly exactly outside the gap.
  lemma RoundedCorrectIff(v: real)
    requires v >= 0.0
    ensures Rounded(v) == Nearest(v) <==> !InGap(v)
  {
    if InGap(v) { GapRoundsUp(v); }
  }

  // ----- addition -----

  lemma SumCommutes(a: Bits, b: Bits)
    ensures Sum(a, b) == Sum(b, a)
  {
  }

  // x + (-x) is +0, and x - x too (section 6.3 of IEEE 754-2019); nothing else adds up to zero.
  lemma ZeroSumIff(a: Bits, b: Bits)
    requires IsFinite(a) && IsFinite(b) && Mag(a) != 0
    ensures Sum(a, b) == 0 <==> b == Negate(a)
    ensures Sum(a, b) != SIGN
  {
    NegateValue(a);
    ScaledZero(-149);
    var m := ValueInUnits(a);
    var n := ValueInUnits(b);
    SumNotTiny(a, b, m, n);
    SameMagnitude(a, b);
  }

  // A sum of two numbers that is not zero is at least one unit of 2^-149, so it does not round to zero.
  lemma SumNotTiny(a: Bits, b: Bits, m: int, n: int)
    requires Value(a) == Scaled(m, -149) && Value(b) == Scaled(n, -149)
    ensures var v := Value(a) + Value(b); v != 0.0 ==> Nearest(Abs(v)) >= 1
  {
    var v := Value(a) + Value(b);
    ScaledSum(m, n, -149);
    ScaledZero(-149);
    if v != 0.0 {
      UnitsNotTiny(v, m + n);
      assert MagValue(1) == Scaled(1, -149);
      NearestAtLeast(Abs(v), 1);
    }
  }

  lemma UnitsNotTiny(v: real, m: int)
    requires v == Scaled(m, -149) && v != 0.0
    ensures Abs(v) >= Scaled(1, -149)
  {
    ScaledZero(-149);
    ScaledSum(m, -m, -149);
    ScaledOrder(0, m, -149);
    if m > 1 { ScaledOrder(1, m, -149); }
    if m < -1 { ScaledOrder(1, -m, -149); }
  }

  lemma SameMagnitude(a: Bits, b: Bits)
    requires Mag(a) != 0
    ensures Value(a) + Value(b) == 0.0 ==> b == Negate(a)
  {
    ScaledZero(-149);
    MagValueIncreases(0, Mag(a));
    if Mag(a) < Mag(b) { MagValueIncreases(Mag(a), Mag(b)); }
    if Mag(b) < Mag(a) { MagValueIncreases(Mag(b), Mag(a)); }
    if Mag(b) != 0 { MagValueIncreases(0, Mag(b)); }
  }

  // ----- multiplication -----

  lemma DoublingIsCoarse(m: int)
    requires m >= 3
    ensures MagValue(m + 1) <= 2.0 * MagValue(m - 1)
  {
    var E := Scale(m);
    var q := m - (E - 1) * HIDDEN;
    Lattice(E, q);
    Ulp(m);
    Ulp(m - 1);
    ScaledGrows(1, Scale(m - 1) - 150, E - 150);
    ScaledSum(1, 1, E - 150);
    ScaledSum(2, 1, E - 150);
    ScaledOrder(3, q, E - 150);
  }

  // Rounding respects representable bounds.
  lemma NearestAtLeast(v: real, c: int)
    requires 0 <= c <= INF && v >= MagValue(c)
    ensures v >= 0.0 && Nearest(v) >= c
  {
    ZeroHasNoSign();
    if c > 0 { MagPositive(c); }
    var m := Nearest(v);
    NearestInInterval(v);
    if m < c {
      MidBetween(m);
      if m + 1 < c { MagValueIncreases(m + 1, c); }
    }
  }

  lemma NearestAtMost(v: real, c: int)
    requires 0 <= c <= INF && 0.0 <= v <= MagValue(c)
    ensures Nearest(v) <= c
  {
    var m := Nearest(v);
    NearestInInterval(v);
    if m > c {
      MidBetween(m - 1);
      if c < m - 1 { MagValueIncreases(c, m - 1); }
    }
  }

  // A subnormal above three units never rounds to the same magnitude as its double.
  lemma DoublingChangesRounding(v: real)
    requires MagValue(3) < v < MagValue(HIDDEN)
    ensures v >= 0.0 && Nearest(v) >= 3 && Nearest(2.0 * v) != Nearest(v)
  {
    NearestAtLeast(v, 3);
    NearestAtMost(v, HIDDEN);
    var m := Nearest(v);
    NearestInInterval(v);
    NearestInInterval(2.0 * v);
    MidBetween(m - 1);
    MidBetween(m);
    DoublingIsCoarse(m);
  }

  // The doubled product is a subnormal of at least 2^-130.
  lemma DoubledRange(a: Bits, b: Bits)
    requires IsFinite(a) && IsFinite(b) && ProductDoubled(a, b)
    ensures MagValue(3) < ExactProduct(a, b) < MagValue(HIDDEN)
  {
    ProductForm(a, b);
    var s := Sig48(a, b);
    GapBounds();
    ScaledDouble(2 * HIDDEN, -151);
    ScaledDouble(4 * HIDDEN, -152);
    ScaledDouble(8 * HIDDEN, -153);
    ScaledOrder(s, 16 * HIDDEN, -153);
    Eighth(6, -153);
    ScaledDouble(3, -150);
    ScaledOrder(48, s, -153);
  }

  // internal_float_mul rounds a finite product correctly exactly when the product is outside
  // the gap and its exponent does not come out as 0 with a significand below 2^27.
  lemma MulCorrectIff(a: Bits, b: Bits)
    requires IsFinite(a) && IsFinite(b)
    ensures ExactProduct(a, b) >= 0.0
    ensures MulMagnitude(a, b) == Nearest(ExactProduct(a, b)) <==>
            !InGap(ExactProduct(a, b)) && !ProductDoubled(a, b)
  {
    ProductForm(a, b);
    var v := ExactProduct(a, b);
    if ProductDoubled(a, b) { DoubledWrong(a, b); } else { RoundedCorrectIff(v); }
  }

  lemma DoubledWrong(a: Bits, b: Bits)
    requires IsFinite(a) && IsFinite(b) && ProductDoubled(a, b)
    ensures ExactProduct(a, b) >= 0.0 && MulMagnitude(a, b) != Nearest(ExactProduct(a, b))
  {
    DoubledRange(a, b);
    DoubledMisses(ExactProduct(a, b));
    DoubledAsRead(a, b);
  }

  lemma DoubledMisses(v: real)
    requires MagValue(3) < v < MagValue(HIDDEN)
    ensures v >= 0.0 && Rounded(2.0 * v) != Nearest(v)
  {
    DoublingChangesRounding(v);
    RoundedOrZero(2.0 * v);
  }

  lemma DoubledAsRead(a: Bits, b: Bits)
    requires ProductDoubled(a, b)
    ensures ExactProduct(a, b) >= 0.0 && MulMagnitude(a, b) == Rounded(2.0 * ExactProduct(a, b))
  {
    ProductForm(a, b);
  }

  lemma RoundedOrZero(v: real)
    requires v >= 0.0
    ensures Rounded(v) == 0 || Rounded(v) == Nearest(v)
  {
  }

  // Two normal operands never meet the second condition.
  lemma NormalProductNotDoubled(a: Bits, b: Bits)
    requires HIDDEN <= Mag(a) < INF && HIDDEN <= Mag(b) < INF
    ensures !ProductDoubled(a, b)
  {
  }

  lemma GapProduct()
    ensures ExactProduct(0x3F7F_FFFF, 0x0080_0000) == Scaled(2 * HIDDEN - 1, -150)
  {
    ProductForm(0x3F7F_FFFF, 0x0080_0000);
    assert Sig48(0x3F7F_FFFF, 0x0080_0000) == (2 * HIDDEN - 1) * HIDDEN;
    ScaledTimesPow(2 * HIDDEN - 1, -173);
  }

  // (1 - 2^-24) * 2^-126 comes out as zero.
  lemma GapReached()
    ensures InGap(ExactProduct(0x3F7F_FFFF, 0x0080_0000))
    ensures MulMagnitude(0x3F7F_FFFF, 0x0080_0000) == 0
  {
    GapProduct();
    GapBounds();
    ScaledOrder(2 * HIDDEN - 1, 2 * HIDDEN, -150);
  }

  // 2^19 * 2^-149 comes out as 2^-129.
  lemma DoublingReached()
    ensures var a, b := 0x4900_0000, 1;
            ProductDoubled(a, b) && ExactProduct(a, b) >= 0.0 && ExactProduct(a, b) == MagValue(0x8_0000) &&
            Nearest(ExactProduct(a, b)) == 0x8_0000 && MulMagnitude(a, b) == 0x10_0000
  {
    OneIsDoubled();
    SubnormalProduct();
    DoubledResult(0x4900_0000, 1, 0x8_0000, 0x10_0000);
  }

  lemma OneIsDoubled()
    ensures ProductDoubled(0x4900_0000, 1)
  {
    assert Exp1(0x4900_0000) == 146 && Sig24(0x4900_0000) == HIDDEN;
    assert Exp1(1) == 1 && Sig24(1) == 1;
  }

  lemma DoubledResult(a: Bits, b: Bits, m: int, n: int)
    requires ProductDoubled(a, b) && 0 <= m < n < HIDDEN
    requires ExactProduct(a, b) == MagValue(m) && MagValue(n) == 2.0 * MagValue(m)
    ensures ExactProduct(a, b) >= 0.0 && Nearest(ExactProduct(a, b)) == m && MulMagnitude(a, b) == n
  {
    NearestExact(m);
    RoundedSmall(n);
    DoubledAsRead(a, b);
  }

  lemma SubnormalProduct()
    ensures ExactProduct(0x4900_0000, 1) == MagValue(0x8_0000) >= 0.0
    ensures MagValue(0x10_0000) == 2.0 * MagValue(0x8_0000)
  {
    ProductForm(0x4900_0000, 1);
    Eighth(0x10_0000, -153);
    ScaledDouble(0x8_0000, -150);
    ScaledDouble(0x8_0000, -149);
  }

  // A subnormal that fits is encoded as it is.
  lemma RoundedSmall(m: int)
    requires 0 <= m < HIDDEN
    ensures MagValue(m) >= 0.0 && Rounded(MagValue(m)) == m
  {
    NearestExact(m);
    MidBetween(HIDDEN - 1);
    if m < HIDDEN - 1 { MagValueIncreases(m, HIDDEN - 1); }
  }

  // 2^23 units are one unit 23 places up.
  lemma ScaledTimesPow(q: int, k: int)
    ensures Scaled(q * HIDDEN, k) == Scaled(q, k + 23)
  {
    assert q * HIDDEN == 8 * (8 * (8 * (8 * (8 * (8 * (8 * (4 * q)))))));
    Eighth(8 * (8 * (8 * (8 * (8 * (8 * (4 * q)))))), k);
    Eighth(8 * (8 * (8 * (8 * (8 * (4 * q))))), k + 3);
    Eighth(8 * (8 * (8 * (8 * (4 * q)))), k + 6);
    Eighth(8 * (8 * (8 * (4 * q))), k + 9);
    Eighth(8 * (8 * (4 * q)), k + 12);
    Eighth(8 * (4 * q), k + 15);
    Eighth(4 * q, k + 18);
    ScaledDouble(2 * q, k + 21);
    ScaledDouble(q, k + 22);
  }

  // ----- division -----

  // No midpoint falls strictly inside one unit of a quotient of at least 2^39.
  lemma NoMidInside(q: int, k: int, m: int)
    requires q >= 2 * HIDDEN && m >= 0
    ensures Mid(m) <= Scaled(q, k) || Scaled(q + 1, k) <= Mid(m)
  {
    var E := Scale(m);
    var s := m - (E - 1) * HIDDEN;
    MidAbove(E, s);
    if E - 151 >= k {
      var c := WholeUnits(2 * s + 1, E - 151, k);
      ScaledOrder(q, c, k);
      ScaledOrder(c, q + 1, k);
    } else {
      ScaledGrows(2 * s + 1, E - 151, k - 1);
      ScaledDouble(2 * HIDDEN, k - 1);
      ScaledOrder(2 * s + 1, 4 * HIDDEN, k - 1);
      ScaledOrder(2 * HIDDEN, q, k);
    }
  }

  // t is a tie that was broken downwards.
  ghost predicate TieDown(t: real)
    requires t >= 0.0
  {
    t == Mid(Nearest(t))
  }

  // Rounding a value truncated to such a unit agrees with rounding the value itself, unless the
  // truncation made a tie that goes the wrong way.
  lemma RoundTruncated(v: real, q: int, k: int)
    requires q >= 2 * HIDDEN && 0.0 <= Scaled(q, k) <= v < Scaled(q + 1, k)
    ensures var t := Scaled(q, k);
            Nearest(v) == if TieDown(t) && t < v && Nearest(t) < INF then Nearest(t) + 1 else Nearest(t)
  {
    var t := Scaled(q, k);
    var m := Nearest(t);
    NearestInInterval(t);
    NoMidInside(q, k, m);
    if TieDown(t) && t < v && m < INF {
      NoMidInside(q, k, m + 1);
      MidOrder(m, m + 1);
      JustAbove(v, t, Scaled(q + 1, k), m);
    } else {
      StillBelow(v, t, Scaled(q + 1, k), m);
    }
  }

  lemma JustAbove(v: real, t: real, u: real, m: int)
    requires 0.0 <= t < v < u && InInterval(t, m) && m < INF && t == Mid(m) < Mid(m + 1)
    requires Mid(m + 1) <= t || u <= Mid(m + 1)
    ensures Nearest(v) == m + 1
  {
    NearestIs(v, m + 1);
  }

  lemma StillBelow(v: real, t: real, u: real, m: int)
    requires 0.0 <= t <= v < u && InInterval(t, m) && (Mid(m) <= t || u <= Mid(m))
    requires t == Mid(m) && m < INF ==> t == v
    ensures Nearest(v) == m
  {
    NearestIs(v, m);
  }

  // The division result against the exact quotient of the operands' magnitudes.
  lemma DivRoundsTruncated(a: Bits, b: Bits)
    requires Mag(a) != 0 && Mag(b) != 0
    ensures var t := Truncated(a, b);
            0.0 <= t && MagValue(Mag(b)) > 0.0 && t <= ExactQuotient(a, b) &&
            (t == ExactQuotient(a, b) <==> Dividend(a) % Divisor(b) == 0) &&
            Nearest(ExactQuotient(a, b)) ==
              if TieDown(t) && Dividend(a) % Divisor(b) != 0 && Nearest(t) < INF then Nearest(t) + 1
              else Nearest(t)
  {
    TruncationError(a, b);
    QuotientBounds(a, b);
    var q, k := Quotient(a, b), QuotientScale(a, b);
    ScaledSum(q, 1, k);
    ScaledGrows(q, k, k);
    RoundTruncated(ExactQuotient(a, b), q, k);
  }

  // ----- the tie, on the integer quotient -----

  lemma EvenUnits(p: int, f: int, e: int) returns (n: int)
    requires e < f
    ensures Scaled(p, f) == Scaled(2 * n, e)
  {
    n := WholeUnits(p, f - 1, e);
    ScaledDouble(p, f - 1);
    ScaledDouble(n, e);
  }

  // An odd significand and its scale are determined by their value.
  lemma OddUnique(o: int, e: int, p: int, f: int)
    requires o % 2 == 1 && p % 2 == 1 && Scaled(o, e) == Scaled(p, f)
    ensures o == p && e == f
  {
    if e < f {
      var n := EvenUnits(p, f, e);
      ScaledOrder(o, 2 * n, e);
    } else if f < e {
      var n := EvenUnits(o, e, f);
      ScaledOrder(p, 2 * n, f);
    } else {
      ScaledOrder(o, p, e);
    }
  }

  // o * 2^e, o odd, is halfway between two finite magnitudes of which the lower is even.
  predicate BadTie(o: int, e: int) {
    o % 4 == 1 && o < 4 * HIDDEN && (e == -150 || (o >= 2 * HIDDEN && -150 < e <= 103))
  }

  lemma TieIsBad(o: int, e: int, m: int)
    requires o % 2 == 1 && 0 <= m < INF && m % 2 == 0 && Scaled(o, e) == Mid(m)
    ensures BadTie(o, e)
  {
    var E, h := EvenOffset(m);
    MidAbove(E, 2 * h);
    OddUnique(o, e, 4 * h + 1, E - 151);
    BadSignificand(E, h);
  }

  lemma EvenOffset(m: int) returns (E: int, h: int)
    requires 0 <= m < INF && m % 2 == 0
    ensures 1 <= E <= 254 && 0 <= 2 * h < 2 * HIDDEN && (E == 1 || 2 * h >= HIDDEN) && m == (E - 1) * HIDDEN + 2 * h
  {
    E := Scale(m);
    h := m / 2 - (E - 1) * 0x40_0000;
  }

  lemma BadSignificand(E: int, h: int)
    requires 1 <= E <= 254 && 0 <= 2 * h < 2 * HIDDEN && (E == 1 || 2 * h >= HIDDEN)
    ensures BadTie(4 * h + 1, E - 151)
  {
  }

  lemma EvenMidpoint(m: int)
    requires 0 <= m < INF && m % 2 == 0
    ensures Mid(m) >= 0.0 && Nearest(Mid(m)) == m && TieDown(Mid(m))
  {
    if m > 0 { MidOrder(m - 1, m); }
    MidBetween(m);
    MagAtLeastZero(m);
    NearestIs(Mid(m), m);
  }

  lemma MagAtLeastZero(m: int)
    requires 0 <= m
    ensures MagValue(m) >= 0.0
  {
    ScaledZero(-149);
    if m > 0 { MagValueIncreases(0, m); }
  }

  lemma BadMagnitude(o: int, e: int) returns (m: int)
    requires o > 0 && BadTie(o, e)
    ensures 0 <= m < INF && m % 2 == 0 && Scaled(o, e) == Mid(m)
  {
    var s := o / 4;
    m := (e + 150) * HIDDEN + 2 * s;
    assert o == 2 * (2 * s) + 1;
    MidAbove(e + 151, 2 * s);
  }

  lemma BadIsTie(o: int, e: int)
    requires o > 0 && BadTie(o, e)
    ensures var t := Scaled(o, e); t >= 0.0 && TieDown(t) && Nearest(t) < INF
  {
    var m := BadMagnitude(o, e);
    EvenMidpoint(m);
  }

  lemma TieDownIff(o: int, e: int)
    requires o > 0 && o % 2 == 1
    ensures var t := Scaled(o, e); t >= 0.0 && (TieDown(t) && Nearest(t) < INF <==> BadTie(o, e))
  {
    var t := Scaled(o, e);
    ScaledGrows(o, e, e);
    if BadTie(o, e) {
      BadIsTie(o, e);
    } else if TieDown(t) && Nearest(t) < INF {
      NearestInInterval(t);
      TieIsBad(o, e, Nearest(t));
    }
  }

  // The integer quotient of a and b, without its trailing zeros, is such a tie.
  predicate QuotientTies(a: Bits, b: Bits)
    requires Mag(a) != 0 && Mag(b) != 0
  {
    var q := Quotient(a, b);
    q > 0 && BadTie(Stripped(q), QuotientScale(a, b) + StripCount(q))
  }

  lemma QuotientTiesIff(a: Bits, b: Bits)
    requires Mag(a) != 0 && Mag(b) != 0
    ensures var t := Truncated(a, b); t >= 0.0 && (QuotientTies(a, b) <==> TieDown(t) && Nearest(t) < INF)
  {
    var q, k := Quotient(a, b), QuotientScale(a, b);
    QuotientBounds(a, b);
    StrippedScaled(q, k);
    TieDownIff(Stripped(q), k + StripCount(q));
  }

  // ----- the gap, on the exact quotient -----

  // The least normal value does not fall strictly inside a unit either.
  lemma NoNormalInside(v: real, q: int, k: int)
    requires q >= 2 * HIDDEN && Scaled(q, k) <= v < Scaled(q + 1, k)
    ensures v < MagValue(HIDDEN) <==> Scaled(q, k) < MagValue(HIDDEN)
  {
    GapBounds();
    if k <= -150 {
      var c := WholeUnits(2 * HIDDEN, -150, k);
      ScaledOrder(q, c, k);
      ScaledOrder(c, q + 1, k);
    } else {
      ScaledOrder(2 * HIDDEN, q, k);
      ScaledGrows(2 * HIDDEN, -150, k);
    }
  }

  lemma GapOfTruncated(a: Bits, b: Bits)
    requires Mag(a) != 0 && Mag(b) != 0
    ensures MagValue(Mag(b)) > 0.0 && (InGap(Truncated(a, b)) <==> InGap(ExactQuotient(a, b)))
  {
    var q, k := Quotient(a, b), QuotientScale(a, b);
    TruncationError(a, b);
    QuotientBounds(a, b);
    ScaledSum(q, 1, k);
    NoMidInside(q, k, HIDDEN - 1);
    NoNormalInside(ExactQuotient(a, b), q, k);
  }

  // internal_float_div rounds correctly exactly when the exact quotient is outside the gap and the dropped
  // remainder was not all that kept the integer quotient from a tie that is broken downwards.
  lemma DivCorrectIff(a: Bits, b: Bits)
    requires Mag(a) != 0 && Mag(b) != 0
    ensures MagValue(Mag(b)) > 0.0 && Truncated(a, b) >= 0.0 && ExactQuotient(a, b) >= 0.0
    ensures Rounded(Truncated(a, b)) == Nearest(ExactQuotient(a, b)) <==>
            !InGap(ExactQuotient(a, b)) && !(QuotientTies(a, b) && Dividend(a) % Divisor(b) != 0)
  {
    DivRoundsTruncated(a, b);
    QuotientTiesIff(a, b);
    GapOfTruncated(a, b);
    if InGap(Truncated(a, b)) { GapRoundsUp(Truncated(a, b)); }
  }

  // Outside the gap the result is the correctly rounded one or the one just below it.
  lemma DivWithinOne(a: Bits, b: Bits)
    requires Mag(a) != 0 && Mag(b) != 0
    ensures MagValue(Mag(b)) > 0.0 && Truncated(a, b) >= 0.0 && ExactQuotient(a, b) >= 0.0
    ensures !InGap(ExactQuotient(a, b)) <==>
            0 <= Nearest(ExactQuotient(a, b)) - Rounded(Truncated(a, b)) <= 1
  {
    DivRoundsTruncated(a, b);
    GapOfTruncated(a, b);
    if InGap(Truncated(a, b)) { GapRoundsUp(Truncated(a, b)); }
  }

  // The error is less than 1/2 + 2^-16 = 32769/65536 units in the last place.
  predicate HalfUlpAway(m: int, v: real)
    requires 0 <= m < INF
  {
    65536.0 * Abs(MagValue(m) - v) < 32769.0 * (MagValue(m + 1) - MagValue(m))
  }

  // Below overflow and outside the gap, so from 2^-126 on.
  lemma DivErrorBound(a: Bits, b: Bits)
    requires Mag(a) != 0 && Mag(b) != 0
    ensures MagValue(Mag(b)) > 0.0 && Truncated(a, b) >= 0.0
    ensures var m := Rounded(Truncated(a, b));
            !InGap(ExactQuotient(a, b)) && m < INF ==> HalfUlpAway(m, ExactQuotient(a, b))
  {
    GapOfTruncated(a, b);
    TruncatedPositive(a, b);
    if Nearest(Truncated(a, b)) < INF { DivErrorAt(a, b); }
    RoundedAway(Truncated(a, b), ExactQuotient(a, b));
  }

  lemma TruncatedPositive(a: Bits, b: Bits)
    requires Mag(a) != 0 && Mag(b) != 0
    ensures Truncated(a, b) >= 0.0
  {
    QuotientBounds(a, b);
    ScaledGrows(Quotient(a, b), QuotientScale(a, b), QuotientScale(a, b));
  }

  lemma RoundedAway(t: real, v: real)
    requires t >= 0.0 && (InGap(t) <==> InGap(v)) && (Nearest(t) < INF ==> HalfUlpAway(Nearest(t), v))
    ensures !InGap(v) && Rounded(t) < INF ==> HalfUlpAway(Rounded(t), v)
  {
  }

  lemma DivErrorAt(a: Bits, b: Bits)
    requires Mag(a) != 0 && Mag(b) != 0
    requires Truncated(a, b) >= 0.0 && Nearest(Truncated(a, b)) < INF
    ensures MagValue(Mag(b)) > 0.0 && HalfUlpAway(Nearest(Truncated(a, b)), ExactQuotient(a, b))
  {
    TruncationError(a, b);
    QuotientBounds(a, b);
    TruncatedError(ExactQuotient(a, b), Quotient(a, b), QuotientScale(a, b));
  }

  lemma TruncatedError(v: real, q: int, k: int)
    requires q >= 0x80_0000_0000 && 0.0 <= Scaled(q, k) <= v < Scaled(q, k) + Scaled(1, k)
    requires Nearest(Scaled(q, k)) < INF
    ensures HalfUlpAway(Nearest(Scaled(q, k)), v)
  {
    NearestInInterval(Scaled(q, k));
    TruncatedErrorAt(v, q, k, Nearest(Scaled(q, k)));
  }

  lemma TruncatedErrorAt(v: real, q: int, k: int, m: int)
    requires q >= 0x80_0000_0000 && 0.0 <= Scaled(q, k) <= v < Scaled(q, k) + Scaled(1, k)
    requires InInterval(Scaled(q, k), m) && m < INF
    ensures HalfUlpAway(m, v)
  {
    var t := Scaled(q, k);
    NearestHalfUlp(t, m);
    QuotientUnit(q, k, m);
    ErrorsAdd(MagValue(m), t, v, Scaled(1, k), MagValue(m + 1) - MagValue(m));
  }

  lemma ErrorsAdd(x: real, t: real, v: real, unit: real, ulp: real)
    requires 2.0 * Abs(x - t) <= ulp && t <= v < t + unit && 65536.0 * unit <= ulp
    ensures 65536.0 * Abs(x - v) < 32769.0 * ulp
  {
  }

  lemma NearestHalfUlp(t: real, m: int)
    requires InInterval(t, m) && m < INF && t >= 0.0
    ensures 2.0 * Abs(MagValue(m) - t) <= MagValue(m + 1) - MagValue(m)
  {
    if m > 0 {
      UlpGrows(m);
    } else {
      ZeroHasNoSign();
    }
  }

  lemma UlpGrows(m: int)
    requires m > 0
    ensures 0.0 < MagValue(m) - MagValue(m - 1) <= MagValue(m + 1) - MagValue(m)
  {
    Ulp(m);
    Ulp(m - 1);
    ScaledGrows(1, Scale(m - 1) - 150, Scale(m) - 150);
  }

  // One unit of a quotient of 40 bits or more is at most 2^-16 of a unit in the last place.
  lemma QuotientUnit(q: int, k: int, m: int)
    requires q >= 0x80_0000_0000 && 0 <= m < INF && Scaled(q, k) <= Mid(m)
    ensures 65536.0 * Scaled(1, k) <= MagValue(m + 1) - MagValue(m)
  {
    var E := Scale(m);
    var s := m - (E - 1) * HIDDEN;
    MidAbove(E, s);
    QuotientIsFine(q, k, 2 * s + 1, E - 151);
    Ulp(m);
    SixteenDoublings(k);
    ScaledGrows(1, k + 16, E - 150);
  }

  // 40 bits at k do not exceed 25 bits at l, so k is at least 15 places below l.
  lemma QuotientIsFine(q: int, k: int, n: int, l: int)
    requires q >= 0x80_0000_0000 && 0 <= n < 0x200_0000 && Scaled(q, k) <= Scaled(n, l)
    ensures k + 15 <= l
  {
    if k + 14 >= l {
      ScaledGrows(q, l - 14, k);
      ScaledOrder(0x80_0000_0000, q, l - 14);
      Eighth(0x10_0000_0000, l - 14);
      Eighth(0x2_0000_0000, l - 11);
      Eighth(0x4000_0000, l - 8);
      Eighth(0x800_0000, l - 5);
      ScaledDouble(0x400_0000, l - 2);
      ScaledDouble(0x200_0000, l - 1);
      ScaledOrder(n, 0x200_0000, l);
    }
  }

  lemma SixteenDoublings(k: int)
    ensures Scaled(1, k + 16) == 65536.0 * Scaled(1, k)
  {
    ScaledDouble(1, k);
    ScaledDouble(1, k + 1);
    ScaledDouble(1, k + 2);
    ScaledDouble(1, k + 3);
    ScaledDouble(1, k + 4);
    ScaledDouble(1, k + 5);
    ScaledDouble(1, k + 6);
    ScaledDouble(1, k + 7);
    ScaledDouble(1, k + 8);
    ScaledDouble(1, k + 9);
    ScaledDouble(1, k + 10);
    ScaledDouble(1, k + 11);
    ScaledDouble(1, k + 12);
    ScaledDouble(1, k + 13);
    ScaledDouble(1, k + 14);
    ScaledDouble(1, k + 15);
  }

  // 1.0 / 0x3FFFFFFF comes out as 0.5, one unit below the correctly rounded result: the
  // remainder is all that keeps the quotient off the midpoint above 0.5.
  lemma TieReached()
    ensures var a, b := 0x3F80_0000, 0x3FFF_FFFF;
            Dividend(a) % Divisor(b) != 0 && Truncated(a, b) >= 0.0 && Truncated(a, b) == Mid(0x3F00_0000) &&
            MagValue(Mag(b)) > 0.0 && ExactQuotient(a, b) >= 0.0 &&
            Rounded(Truncated(a, b)) == 0x3F00_0000 && Nearest(ExactQuotient(a, b)) == 0x3F00_0001
  {
    TieTruncated();
    EvenMidpoint(0x3F00_0000);
    DivRoundsTruncated(0x3F80_0000, 0x3FFF_FFFF);
    MidOrder(HIDDEN - 1, 0x3F00_0000);
    MagValueIncreases(HIDDEN, 0x3F00_0000);
    MidBetween(0x3F00_0000);
  }

  lemma TieTruncated()
    ensures var a, b := 0x3F80_0000, 0x3FFF_FFFF;
            Dividend(a) % Divisor(b) != 0 && Truncated(a, b) == Mid(0x3F00_0000)
  {
    RaiseOne();
    var q := 0x80_0000_8000;
    assert Quotient(0x3F80_0000, 0x3FFF_FFFF) == q;
    assert StripCount(0xFF_FFFF) == 0;
    assert QuotientScale(0x3F80_0000, 0x3FFF_FFFF) == -40;
    MidAbove(126, HIDDEN);
    Eighth(0x10_0000_1000, -40);
    Eighth(0x2_0000_0200, -37);
    Eighth(0x4000_0040, -34);
    Eighth(0x800_0008, -31);
    Eighth(0x100_0001, -28);
  }

  lemma RaiseOne()
    ensures Raised(HIDDEN) == TOP && RaiseCount(HIDDEN) == 40
  {
    assert Raised(0x0800_0000_0000_0000) == TOP && RaiseCount(0x0800_0000_0000_0000) == 4;
    assert Raised(0x80_0000_0000_0000) == TOP && RaiseCount(0x80_0000_0000_0000) == 8;
    assert Raised(0x8_0000_0000_0000) == TOP && RaiseCount(0x8_0000_0000_0000) == 12;
    assert Raised(0x8000_0000_0000) == TOP && RaiseCount(0x8000_0000_0000) == 16;
    assert Raised(0x800_0000_0000) == TOP && RaiseCount(0x800_0000_0000) == 20;
    assert Raised(0x80_0000_0000) == TOP && RaiseCount(0x80_0000_0000) == 24;
    assert Raised(0x8_0000_0000) == TOP && RaiseCount(0x8_0000_0000) == 28;
    assert Raised(0x8000_0000) == TOP && RaiseCount(0x8000_0000) == 32;
    assert Raised(0x800_0000) == TOP && RaiseCount(0x800_0000) == 36;
  }
}
