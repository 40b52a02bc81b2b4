/** Division (nemu/src/cpu/fpu.c:310-390): the dividend is shifted up to 64 bits, the divisor's
    trailing zeros are dropped, and the integer quotient is normalised without its remainder. */
module FpuDivide {
  import opened Common
  import opened Binary32
  import opened Normalize
  import opened Fpu

  const TOP := 0x8000_0000_0000_0000  // 2^63

  const CORNER_DIV: seq<Rule> := [
    Rule(P_ZERO, P_ZERO, N_NAN), Rule(N_ZERO, P_ZERO, N_NAN), Rule(P_ZERO, N_ZERO, N_NAN),
    Rule(N_ZERO, N_ZERO, N_NAN), Rule(P_INF, P_ZERO, P_INF), Rule(N_INF, P_ZERO, N_INF),
    Rule(P_INF, N_ZERO, N_INF), Rule(N_INF, N_ZERO, P_INF), Rule(P_INF, P_INF, N_NAN),
    Rule(N_INF, P_INF, N_NAN), Rule(P_INF, N_INF, N_NAN), Rule(N_INF, N_INF, N_NAN)]

  // ----- the two scaling loops -----

  function Raised(sig: int): (s: int)
    requires 0 < sig < 2 * TOP
    ensures TOP <= s < 2 * TOP
    decreases 2 * TOP - sig
  {
    if sig / TOP == 0 then Raised(2 * sig) else sig
  }

  function RaiseCount(sig: int): nat
    requires 0 < sig < 2 * TOP
    decreases 2 * TOP - sig
  {
    if sig / TOP == 0 then 1 + RaiseCount(2 * sig) else 0
  }

  function Stripped(sig: int): (s: int)
    requires sig > 0
    ensures 0 < s <= sig && s % 2 == 1
  {
    if sig % 2 == 0 then Stripped(sig / 2) else sig
  }

  function StripCount(sig: int): nat
    requires sig > 0
  {
    if sig % 2 == 0 then 1 + StripCount(sig / 2) else 0
  }

  function IntPow2(k: nat): (r: int)
    ensures r > 0
  {
    if k == 0 then 1 else 2 * IntPow2(k - 1)
  }

  lemma {:induction false} IntPow2Increases(j: nat, k: nat)
    requires j <= k
    ensures IntPow2(j) <= IntPow2(k)
    decreases k - j
  {
    if j < k { IntPow2Increases(j, k - 1); }
  }

  lemma IntPow2At64()
    ensures IntPow2(64) == 2 * TOP
  {
    assert IntPow2(8) == 0x100;
    assert IntPow2(16) == 0x1_0000;
    assert IntPow2(24) == 0x100_0000;
    assert IntPow2(32) == 0x1_0000_0000;
    assert IntPow2(40) == 0x100_0000_0000;
    assert IntPow2(48) == 0x1_0000_0000_0000;
    assert IntPow2(56) == 0x100_0000_0000_0000;
  }

  lemma {:induction false} RaiseCountBound(sig: int, j: nat)
    requires IntPow2(j) <= sig < 2 * TOP
    ensures RaiseCount(sig) + j <= 63
    decreases 2 * TOP - sig
  {
    if j >= 64 {
      IntPow2Increases(64, j);
      IntPow2At64();
      assert false;
    }
    if sig / TOP == 0 { RaiseCountBound(2 * sig, j + 1); }
  }

  lemma {:induction false} StripCountBound(sig: int)
    requires sig > 0
    ensures StripCount(sig) < sig
  {
    if sig % 2 == 0 { StripCountBound(sig / 2); }
  }

  // Both loops move factors of two between significand and scale.
  lemma {:induction false} RaisedScaled(sig: int, k: int)
    requires 0 < sig < 2 * TOP
    ensures Scaled(sig, k) == Scaled(Raised(sig), k - RaiseCount(sig))
    decreases 2 * TOP - sig
  {
    if sig / TOP == 0 {
      ScaledDouble(sig, k - 1);
      RaisedScaled(2 * sig, k - 1);
    }
  }

  lemma {:induction false} StrippedScaled(sig: int, k: int)
    requires sig > 0
    ensures Scaled(sig, k) == Scaled(Stripped(sig), k + StripCount(sig))
  {
    if sig % 2 == 0 {
      ScaledDouble(sig / 2, k);
      StrippedScaled(sig / 2, k + 1);
    }
  }

  // Lines 370-380.
  method ScaleOperands(sig_a0: int, sig_b0: int) returns (sig_a: int, sig_b: int, shift: int)
    requires 0 < sig_a0 < 2 * TOP && sig_b0 > 0
    ensures sig_a == Raised(sig_a0) && sig_b == Stripped(sig_b0)
    ensures shift == RaiseCount(sig_a0) + StripCount(sig_b0)
  {
    sig_a, sig_b, shift := sig_a0, sig_b0, 0;
    while sig_a / TOP == 0
      invariant 0 < sig_a < 2 * TOP && Raised(sig_a) == Raised(sig_a0)
      invariant shift + RaiseCount(sig_a) == RaiseCount(sig_a0)
      decreases 2 * TOP - sig_a
    {
      sig_a := sig_a * 2;
      shift := shift + 1;
    }
    while sig_b % 2 == 0
      invariant sig_b > 0 && Stripped(sig_b) == Stripped(sig_b0)
      invariant shift + StripCount(sig_b) == RaiseCount(sig_a0) + StripCount(sig_b0)
      decreases sig_b
    {
      sig_b := sig_b / 2;
      shift := shift + 1;
    }
  }

  // ----- the truncated quotient -----

  function Dividend(a: Bits): (s: int)
    requires Mag(a) != 0
    ensures TOP <= s < 2 * TOP
  {
    Raised(Sig24(a))
  }

  function Divisor(b: Bits): (s: int)
    requires Mag(b) != 0
    ensures 0 < s < 2 * HIDDEN
  {
    Stripped(Sig24(b))
  }

  // The exponent of one unit of the integer quotient.
  function QuotientScale(a: Bits, b: Bits): int
    requires Mag(a) != 0 && Mag(b) != 0
  {
    Exp1(a) - Exp1(b) - RaiseCount(Sig24(a)) - StripCount(Sig24(b))
  }

  function Quotient(a: Bits, b: Bits): int
    requires Mag(a) != 0 && Mag(b) != 0
  {
    Dividend(a) / Divisor(b)
  }

  function ExactQuotient(a: Bits, b: Bits): real
    requires MagValue(Mag(b)) != 0.0
  {
    MagValue(Mag(a)) / MagValue(Mag(b))
  }

  // The value that is rounded in place of the exact quotient.
  function Truncated(a: Bits, b: Bits): real
    requires Mag(a) != 0 && Mag(b) != 0
  {
    Scaled(Quotient(a, b), QuotientScale(a, b))
  }

  lemma IntegerDivision(x: int, y: int, q: int)
    requires y > 0 && q == x / y
    ensures q * y <= x < (q + 1) * y && (x % y == 0 <==> x == q * y)
  {
    assert x == q * y + x % y;
  }

  lemma QuotientAtLeast(x: int, y: int, q: int, c: int)
    requires 0 < y <= 2 * HIDDEN && x < (q + 1) * y && c * (2 * HIDDEN) <= x && c >= 0
    ensures c <= q
  {
    if q + 1 <= c {
      if q + 1 > 0 {
        ProductGrows(q + 1, c, y);
        ProductGrows(y, 2 * HIDDEN, c);
      } else {
        ProductGrows(0, -(q + 1), y);
      }
    }
  }

  lemma QuotientBounds(a: Bits, b: Bits)
    requires Mag(a) != 0 && Mag(b) != 0
    ensures var q, x, y := Quotient(a, b), Dividend(a), Divisor(b);
            0x80_0000_0000 <= q < 2 * TOP && q * y <= x < (q + 1) * y && (x % y == 0 <==> x == q * y)
  {
    var q, x, y := Quotient(a, b), Dividend(a), Divisor(b);
    IntegerDivision(x, y, q);
    QuotientAtLeast(x, y, q, 0x80_0000_0000);
    ProductGrows(1, y, q);
  }

  lemma QuotientOrder(x: real, y: real, d: real)
    requires d > 0.0
    ensures Times(x, d) <= y <==> x <= y / d
    ensures Times(x, d) == y <==> x == y / d
    ensures y < Times(x, d) <==> y / d < x
  {
    var z := y / d;
    assert z * d == y;
  }

  lemma MagPositive(m: int)
    requires m > 0
    ensures MagValue(m) > 0.0
  {
    ScaledZero(-149);
    MagValueIncreases(0, m);
  }

  // The scales of the two integers; their difference is the scale of the quotient.
  function DividendScale(a: Bits): int
    requires Mag(a) != 0
  {
    Exp1(a) - 150 - RaiseCount(Sig24(a))
  }

  function DivisorScale(b: Bits): int
    requires Mag(b) != 0
  {
    Exp1(b) - 150 + StripCount(Sig24(b))
  }

  lemma DividendScaled(a: Bits)
    requires Mag(a) != 0
    ensures MagValue(Mag(a)) == Scaled(Dividend(a), DividendScale(a))
  {
    MagAsSig(a, Sig24(a), Exp1(a) - 150);
    RaisedScaled(Sig24(a), Exp1(a) - 150);
  }

  lemma MagAsSig(a: Bits, s: int, k: int)
    requires s == Sig24(a) && k == Exp1(a) - 150
    ensures MagValue(Mag(a)) == Scaled(s, k)
  {
  }

  lemma DivisorScaled(b: Bits)
    requires Mag(b) != 0
    ensures MagValue(Mag(b)) == Scaled(Divisor(b), DivisorScale(b))
  {
    MagAsSig(b, Sig24(b), Exp1(b) - 150);
    StrippedScaled(Sig24(b), Exp1(b) - 150);
  }

  // Truncation loses less than one unit of the quotient, and nothing when the division is exact.
  lemma TruncationError(a: Bits, b: Bits)
    requires Mag(a) != 0 && Mag(b) != 0
    ensures MagValue(Mag(b)) > 0.0
    ensures var t, u := Truncated(a, b), Scaled(1, QuotientScale(a, b));
            t <= ExactQuotient(a, b) < t + u &&
            (t == ExactQuotient(a, b) <==> Dividend(a) % Divisor(b) == 0)
  {
    MagPositive(Mag(b));
    QuotientBounds(a, b);
    var q, k := Quotient(a, b), QuotientScale(a, b);
    var e := DividendScale(a);
    DividendScaled(a);
    DivisorScaled(b);
    assert k + DivisorScale(b) == e;
    ScaledProduct(q, k, Divisor(b), DivisorScale(b));
    ScaledProduct(q + 1, k, Divisor(b), DivisorScale(b));
    ScaledOrder(Dividend(a), q * Divisor(b), e);
    ScaledOrder(Dividend(a), (q + 1) * Divisor(b), e);
    ScaledSum(q, 1, k);
    QuotientOrder(Scaled(q, k), MagValue(Mag(a)), MagValue(Mag(b)));
    QuotientOrder(Scaled(q + 1, k), MagValue(Mag(a)), MagValue(Mag(b)));
  }

  // Section 6 and 7.3 of IEEE 754-2019 for operands other than two finite nonzero numbers.
  predicate SpecialQuotient(a: Bits, b: Bits, r: Bits) {
    if IsNaN(a) || IsNaN(b) || (IsInfinite(a) && IsInfinite(b)) || (Mag(a) == 0 && Mag(b) == 0) then IsNaN(r)
    else
      (SignOf(r) == 1 <==> SignOf(a) != SignOf(b)) &&
      if IsInfinite(a) || Mag(b) == 0 then IsInfinite(r) else Mag(r) == 0
  }

  predicate IsOrdinary(x: Bits) { 0 < Mag(x) < INF }

  // Lines 328-357.
  method DivSpecial(b: Bits, a: Bits) returns (done: bool, r: Bits)
    ensures done ==> !(IsOrdinary(a) && IsOrdinary(b)) && (SpecialQuotient(a, b, r) <==> NaNsNoticed(a, b))
    ensures done ==> NaNOfCanonical(a, b, r)
    ensures done && !IsNaN(a) && !IsNaN(b) && IsNaN(r) ==> r == N_NAN
    ensures !done ==> Mag(a) != 0 && Mag(b) != 0 && !IsInfinite(a) && !IsInfinite(b) &&
                      !IsCanonicalNaN(a) && !IsCanonicalNaN(b)
  {
    var hit, res := FindRule(CORNER_DIV, a, b);
    if hit {
      return true, res;
    }
    if IsCanonicalNaN(a) || IsCanonicalNaN(b) {
      return true, if a == P_NAN || b == P_NAN then P_NAN else N_NAN;
    }
    var sign := Xor(SignOf(a), SignOf(b));
    if a == P_INF || a == N_INF {
      return true, if sign == 1 then N_INF else P_INF;
    }
    if b == P_ZERO || b == N_ZERO {
      return true, if sign == 1 then N_INF else P_INF;
    }
    if a == P_ZERO || a == N_ZERO {
      return true, Pack(sign, Mag(a));
    }
    if b == P_INF || b == N_INF {
      return true, if sign == 1 then N_ZERO else P_ZERO;
    }
    return false, 0;
  }

  lemma QuotientScaleBounds(a: Bits, b: Bits)
    requires Mag(a) != 0 && Mag(b) != 0
    ensures -3 * HIDDEN < QuotientScale(a, b) < 255
  {
    RaiseCountBound(Sig24(a), 0);
    StripCountBound(Sig24(b));
  }

  // Lines 359-389.
  method DivNumeric(b: Bits, a: Bits) returns (r: Bits)
    requires Mag(a) != 0 && Mag(b) != 0
    ensures Truncated(a, b) >= 0.0
    ensures r == Pack(Xor(SignOf(a), SignOf(b)), Rounded(Truncated(a, b)))
  {
    var sig_a, sig_b, shift := ScaleOperands(Sig24(a), Sig24(b));
    var sig_res := sig_a / sig_b;
    QuotientScaleBounds(a, b);
    QuotientBounds(a, b);
    assert sig_res == Quotient(a, b);
    var exp_res := AsInt32(Exp1(a) - Exp1(b) + 127 - (shift - 26));
    assert exp_res == QuotientScale(a, b) + EXP_BIAS_GRS;
    r := InternalNormalize(Xor(SignOf(a), SignOf(b)), exp_res, sig_res, Truncated(a, b));
  }

  // The sign the code computes apart from the magnitude is that of the quotient.
  lemma QuotientIsSigned(a: Bits, b: Bits, m: int)
    requires Mag(a) != 0 && Mag(b) != 0 && 0 <= m <= INF
    ensures Value(b) != 0.0
    ensures IsSigned(Pack(Xor(SignOf(a), SignOf(b)), m), m, Value(a) / Value(b), false)
  {
    MagPositive(Mag(a));
    MagPositive(Mag(b));
    PackParts(Xor(SignOf(a), SignOf(b)), m);
    QuotientSign(MagValue(Mag(a)), MagValue(Mag(b)));
  }

  lemma QuotientSign(x: real, y: real)
    requires x > 0.0 && y > 0.0
    ensures x / y > 0.0 && (-x) / y < 0.0 && x / (-y) < 0.0 && (-x) / (-y) > 0.0
  {
    var q := x / y;
    assert q * y == x;
    assert (-x) / y == -q && x / (-y) == -q && (-x) / (-y) == q;
  }

  method InternalFloatDiv(b: Bits, a: Bits) returns (r: Bits)
    ensures IsOrdinary(a) && IsOrdinary(b) ==>
      Truncated(a, b) >= 0.0 && Value(b) != 0.0 && IsSigned(r, Rounded(Truncated(a, b)), Value(a) / Value(b), false)
    ensures !(IsOrdinary(a) && IsOrdinary(b)) ==> (SpecialQuotient(a, b, r) <==> NaNsNoticed(a, b))
    ensures NaNOfCanonical(a, b, r)
    ensures !IsNaN(a) && !IsNaN(b) && IsNaN(r) ==> r == N_NAN
  {
    var done;
    done, r := DivSpecial(b, a);
    if !done {
      r := DivNumeric(b, a);
      QuotientIsSigned(a, b, Rounded(Truncated(a, b)));
      PackIsNumber(Xor(SignOf(a), SignOf(b)), Rounded(Truncated(a, b)));
    }
  }
}
