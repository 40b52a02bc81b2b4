/** The software FPU's four operations on bit patterns (nemu/src/cpu/fpu.c:114-390), each
    proved against its exact result in the reals.  Argument order follows the source:
    InternalFloatSub(b, a) is a - b. */
module Fpu {
  import opened Common
  import opened Binary32
  import opened Normalize

  const P_ZERO: Bits := 0
  const N_ZERO: Bits := 0x8000_0000
  const P_INF: Bits := 0x7F80_0000
  const N_INF: Bits := 0xFF80_0000
  const P_NAN: Bits := 0x7FC0_0000
  const N_NAN: Bits := 0xFFC0_0000

  datatype Rule = Rule(a: Bits, b: Bits, res: Bits)

  const CORNER_ADD: seq<Rule> := [
    Rule(P_ZERO, P_ZERO, P_ZERO), Rule(N_ZERO, P_ZERO, P_ZERO), Rule(P_ZERO, N_ZERO, P_ZERO),
    Rule(N_ZERO, N_ZERO, N_ZERO), Rule(P_INF, N_INF, N_NAN), Rule(N_INF, P_INF, N_NAN),
    Rule(P_INF, P_NAN, P_NAN), Rule(P_INF, N_NAN, N_NAN), Rule(N_INF, P_NAN, P_NAN),
    Rule(N_INF, N_NAN, N_NAN), Rule(N_NAN, P_NAN, P_NAN)]

  const CORNER_SUB: seq<Rule> := [
    Rule(P_ZERO, P_ZERO, P_ZERO), Rule(N_ZERO, P_ZERO, N_ZERO), Rule(P_ZERO, N_ZERO, P_ZERO),
    Rule(N_ZERO, N_ZERO, P_ZERO), Rule(P_NAN, P_NAN, P_NAN), Rule(N_NAN, P_NAN, P_NAN),
    Rule(P_NAN, N_NAN, P_NAN), Rule(N_NAN, N_NAN, N_NAN)]

  predicate IsCanonicalNaN(x: Bits) { x == P_NAN || x == N_NAN }

  function Negate(x: Bits): Bits { if x < SIGN then x + SIGN else x - SIGN }

  // The first rule for (a, b), if any.
  method FindRule(table: seq<Rule>, a: Bits, b: Bits) returns (hit: bool, res: Bits)
    ensures hit ==> Rule(a, b, res) in table
    ensures !hit ==> forall r :: Rule(a, b, r) !in table
  {
    for i := 0 to |table|
      invariant forall r :: Rule(a, b, r) !in table[..i]
    {
      if a == table[i].a && b == table[i].b {
        return true, table[i].res;
      }
    }
    return false, 0;
  }

  // ----- exact results -----

  function SignIf(negative: bool): int { if negative then 1 else 0 }

  // Sections 4.3.1 and 6.3 of IEEE 754-2019: the exact sum rounded; an exact zero is negative
  // only when both operands are.
  ghost function Sum(a: Bits, b: Bits): Bits {
    var v := Value(a) + Value(b);
    if v == 0.0 then Pack(SignIf(SignOf(a) == 1 && SignOf(b) == 1), 0)
    else Pack(SignIf(v < 0.0), Nearest(Abs(v)))
  }

  ghost function Difference(a: Bits, b: Bits): Bits {
    var v := Value(a) - Value(b);
    if v == 0.0 then Pack(SignIf(SignOf(a) == 1 && SignOf(b) == 0), 0)
    else Pack(SignIf(v < 0.0), Nearest(Abs(v)))
  }

  // Section 6 of IEEE 754-2019 for a sum with an operand that is not finite.
  predicate SpecialSum(a: Bits, b: Bits, r: Bits) {
    if IsNaN(a) || IsNaN(b) || (IsInfinite(a) && IsInfinite(b) && a != b) then IsNaN(r)
    else r == if IsInfinite(a) then a else b
  }

  // Which NaN comes out of a sum: the first operand's before the second's, but P_NAN before N_NAN.
  predicate NaNOfSum(a: Bits, b: Bits, r: Bits) {
    (IsNaN(a) ==> r == if a == N_NAN && b == P_NAN then P_NAN else a) &&
    (!IsNaN(a) && IsNaN(b) && (IsInfinite(a) ==> IsCanonicalNaN(b)) ==> r == b) &&
    (IsInfinite(a) && IsInfinite(b) && a != b ==> r == N_NAN)
  }

  // And with the two canonical ones out of the other operations.
  predicate NaNOfCanonical(a: Bits, b: Bits, r: Bits) {
    IsCanonicalNaN(a) || IsCanonicalNaN(b) ==> r == if a == P_NAN || b == P_NAN then P_NAN else N_NAN
  }

  // ----- lemmas about operands -----

  // The significand with its hidden bit, and the exponent with 0 read as 1, as each
  // operation recomputes them.
  function Sig24(x: Bits): (q: int)
    ensures q == Significand(Mag(x)) && 0 <= q < 2 * HIDDEN
    ensures Exponent(x) > 0 ==> q >= HIDDEN
  {
    if Exponent(x) != 0 then Fraction(x) + HIDDEN else Fraction(x)
  }

  function Exp1(x: Bits): (e: int)
    ensures e == Scale(Mag(x)) >= 1
  {
    if Exponent(x) == 0 then Exponent(x) + 1 else Exponent(x)
  }

  lemma Eighth(q: int, k: int)
    ensures Scaled(8 * q, k) == Scaled(q, k + 3)
  {
    ScaledDouble(4 * q, k);
    ScaledDouble(2 * q, k + 1);
    ScaledDouble(q, k + 2);
  }

  // An operand shifted left to make room for guard, round and sticky.
  lemma MagInGrs(x: Bits)
    ensures MagValue(Mag(x)) == Scaled(8 * Sig24(x), Exp1(x) - EXP_BIAS_GRS)
  {
    Eighth(Sig24(x), Exp1(x) - EXP_BIAS_GRS);
  }

  // A coarse value is a whole number of finer units.
  lemma {:induction false} WholeUnits(q: int, k: int, l: int) returns (n: int)
    requires l <= k
    ensures Scaled(q, k) == Scaled(n, l)
    decreases k - l
  {
    n := q;
    if k > l {
      ScaledDouble(q, k - 1);
      n := WholeUnits(2 * q, k - 1, l);
    }
  }

  lemma ScaledNegation(q: int, k: int)
    ensures Scaled(-q, k) == -Scaled(q, k)
  {
    ScaledSum(q, -q, k);
    ScaledZero(k);
  }

  // Every finite value is a whole number of units of 2^-149.
  lemma ValueInUnits(x: Bits) returns (n: int)
    ensures Value(x) == Scaled(n, -149)
  {
    n := WholeUnits(Significand(Mag(x)), Scale(Mag(x)) - 150, -149);
    if SignOf(x) == 1 {
      ScaledNegation(n, -149);
      n := -n;
    }
  }

  lemma UnitsAvoidGap(v: real, n: int)
    requires v == Scaled(n, -149)
    ensures !InGap(v)
  {
    GapBounds();
    ScaledDouble(n, -150);
    if n < HIDDEN {
      ScaledOrder(2 * n, 2 * HIDDEN - 1, -150);
    } else {
      ScaledOrder(2 * n, 2 * HIDDEN, -150);
    }
  }

  lemma AbsInUnits(v: real, n: int)
    requires v == Scaled(n, -149)
    ensures Abs(v) == Scaled(n, -149) || Abs(v) == Scaled(-n, -149)
  {
    ScaledNegation(n, -149);
  }

  // A sum of finite values never falls into the gap below 2^-126.
  lemma SumAvoidsGap(v: real, w: real, m: int, n: int)
    requires v == Scaled(m, -149) && w == Scaled(n, -149)
    ensures !InGap(Abs(v + w))
  {
    ScaledSum(m, n, -149);
    AbsInUnits(v + w, m + n);
    UnitsAvoidGap(Abs(v + w), if Abs(v + w) == Scaled(m + n, -149) then m + n else -(m + n));
  }

  lemma SumWithZero(a: Bits, b: Bits)
    requires Mag(a) == 0 && 0 < Mag(b) < INF
    ensures Sum(a, b) == b && Sum(b, a) == b
  {
    ScaledZero(-149);
    MagValueIncreases(0, Mag(b));
    NearestExact(Mag(b));
  }

  // ----- internal_float_add -----

  // Lines 185-192: align the smaller operand, jamming what falls off.
  method Align(sig0: int, shift0: int, ghost v: real, ghost k: int) returns (sig: int)
    requires 0 <= sig0 < 2 * HIDDEN && shift0 >= 0 && v == Scaled(8 * sig0, k)
    ensures 0 <= sig < 2 * GRS_HIDDEN && Jammed(v, sig, k + shift0)
    ensures v == Scaled(sig, k + shift0) || (shift0 >= 4 && sig < HIDDEN)
    ensures shift0 == 0 ==> sig == 8 * sig0
  {
    sig := sig0 * 8;
    var shift, sticky := shift0, 0;
    while shift > 0
      invariant 0 <= shift <= shift0 && 0 <= sig < 2 * GRS_HIDDEN
      invariant 0 <= sticky <= 1 && (sticky == 1 ==> sig % 2 == 1)
      invariant var n := shift0 - shift;
        Jammed(v, sig, k + n) &&
        if n >= 4 then sig < HIDDEN
        else v == Scaled(sig, k + n) && sticky == 0 &&
             if n == 0 then sig == 8 * sig0 else if n == 1 then sig == 4 * sig0
             else if n == 2 then sig == 2 * sig0 else sig == sig0
    {
      ghost var n := shift0 - shift;
      JamOnce(v, sig, sticky, k + n);
      ScaledDouble(sig / 2, k + n);
      sticky := if sig % 2 == 1 then 1 else sticky;
      sig := OrBit(sig / 2, sticky);
      shift := shift - 1;
    }
  }

  function SignedInt(negative: bool, n: int): int { if negative then -n else n }

  function SignedReal(negative: bool, v: real): real { if negative then -v else v }

  lemma JammedSigned(v: real, sig: int, negative: bool, k: int)
    requires Jammed(v, sig, k)
    ensures Jammed(SignedReal(negative, v), SignedInt(negative, sig), k)
    ensures v == Scaled(sig, k) ==> SignedReal(negative, v) == Scaled(SignedInt(negative, sig), k)
  {
    ScaledNegation(sig, k);
    ScaledNegation(sig - 1, k);
    ScaledNegation(sig + 1, k);
  }

  lemma JammedSum(v: real, s: int, w: real, t: int, k: int)
    requires Jammed(v, s, k) && w == Scaled(t, k) && t % 2 == 0
    ensures Jammed(v + w, s + t, k)
    ensures v == Scaled(s, k) ==> v + w == Scaled(s + t, k)
  {
    ScaledSum(s, t, k);
    ScaledSum(s - 1, t, k);
    ScaledSum(s + 1, t, k);
  }

  lemma JammedAbs(v: real, s: int, k: int)
    requires Jammed(v, s, k)
    ensures (v < 0.0 <==> s < 0) && (v == 0.0 <==> s == 0)
    ensures Jammed(Abs(v), SignedInt(s < 0, s), k)
    ensures v == Scaled(s, k) ==> Abs(v) == Scaled(SignedInt(s < 0, s), k)
  {
    ScaledZero(k);
    ScaledZero(k + 1);
    JammedSide(v, s, k, 0);
    JammedSigned(v, s, s < 0, k);
  }

  lemma SumAbs(x: real, s: int, y: real, t: int, k: int)
    requires Jammed(x, s, k) && y == Scaled(t, k) && t % 2 == 0
    ensures (x + y < 0.0 <==> s + t < 0) && (x + y == 0.0 <==> s + t == 0)
    ensures Jammed(Abs(x + y), SignedInt(s + t < 0, s + t), k)
    ensures x == Scaled(s, k) ==> Abs(x + y) == Scaled(SignedInt(s + t < 0, s + t), k)
  {
    JammedSum(x, s, y, t, k);
    JammedAbs(x + y, s + t, k);
  }

  lemma ScaledSigned(q: int, negative: bool, k: int)
    ensures Scaled(SignedInt(negative, q), k) == SignedReal(negative, Scaled(q, k))
  {
    ScaledNegation(q, k);
  }

  lemma SignedIsEven(h: int, negative: bool)
    ensures SignedInt(negative, h * 8) % 2 == 0
  {
    assert SignedInt(negative, h * 8) == 2 * (4 * SignedInt(negative, h));
  }

  // Arithmetic on 32-bit words.
  function Neg32(x: int): (r: int)
    requires 0 <= x < WORD
    ensures r == if x == 0 then 0 else WORD - x
  {
    (WORD - x) % WORD
  }

  lemma AddWraps(x: int, y: int)
    requires 0 <= x < WORD && 0 <= y < WORD
    ensures Add32(x, y) == if x + y < WORD then x + y else x + y - WORD
  {
  }

  // Lines 195-214: signed addition in two's complement, back to sign and magnitude.
  method AddSignificands(sig_a0: int, na: bool, sig_b0: int, nb: bool) returns (sign: int, sig_res: int)
    requires 0 <= sig_a0 < 2 * GRS_HIDDEN && 0 <= sig_b0 < 2 * GRS_HIDDEN
    ensures var s := SignedInt(na, sig_a0) + SignedInt(nb, sig_b0);
            sign == SignIf(s < 0) && sig_res == SignedInt(s < 0, s)
  {
    var sig_a, sig_b := sig_a0, sig_b0;
    if na { sig_a := Neg32(sig_a); }
    if nb { sig_b := Neg32(sig_b); }
    AddWraps(sig_a, sig_b);
    sig_res := Add32(sig_a, sig_b);
    if sig_res / SIGN == 1 {
      sign := 1;
      sig_res := Neg32(sig_res);
    } else {
      sign := 0;
    }
  }

  // Lines 161-216, for operands with fa.exponent <= fb.exponent: up to normalisation.
  method AddAligned(fa: Bits, fb: Bits, ghost v: real) returns (sign: int, sig_res: int)
    requires IsFinite(fa) && IsFinite(fb) && Exponent(fa) <= Exponent(fb)
    requires v == Value(fa) + Value(fb)
    ensures sign == SignIf(v < 0.0) && 0 <= sig_res < WORD
    ensures StandsFor(Abs(v), Exponent(fb), sig_res)
  {
    var sig_a, sig_b := Sig24(fa), Sig24(fb);
    var shift := Exp1(fb) - Exp1(fa);
    ghost var k := Exp1(fb) - EXP_BIAS_GRS;
    ghost var va, vb := MagValue(Mag(fa)), MagValue(Mag(fb));
    MagInGrs(fa);
    MagInGrs(fb);
    sig_a := Align(sig_a, shift, va, k - shift);
    SignedIsEven(sig_b, SignOf(fb) == 1);
    sig_b := sig_b * 8;
    var na, nb := SignOf(fa) == 1, SignOf(fb) == 1;
    JammedSigned(va, sig_a, na, k);
    ScaledSigned(sig_b, nb, k);
    ghost var x, y := SignedReal(na, va), SignedReal(nb, vb);
    SumAbs(x, SignedInt(na, sig_a), y, SignedInt(nb, sig_b), k);
    sign, sig_res := AddSignificands(sig_a, na, sig_b, nb);
    assert x + y == v;
  }

  method AddOrdered(fa: Bits, fb: Bits) returns (r: Bits)
    requires IsFinite(fa) && IsFinite(fb) && Exponent(fa) <= Exponent(fb)
    ensures var v := Value(fa) + Value(fb);
            r == Pack(SignIf(v < 0.0), Nearest(Abs(v)))
  {
    ghost var v := Value(fa) + Value(fb);
    ghost var m := ValueInUnits(fa);
    ghost var n := ValueInUnits(fb);
    SumAvoidsGap(Value(fa), Value(fb), m, n);
    var sign, sig_res := AddAligned(fa, fb, v);
    r := InternalNormalize(sign, Exponent(fb), sig_res, Abs(v));
  }

  // Lines 133-159: the table, zero operands, and exponent 0xff.
  method AddSpecial(b: Bits, a: Bits) returns (done: bool, r: Bits)
    ensures done && IsFinite(a) && IsFinite(b) ==> r == Sum(a, b)
    ensures done && !(IsFinite(a) && IsFinite(b)) ==>
      (SpecialSum(a, b, r) <==> !(IsInfinite(a) && IsNaN(b) && !IsCanonicalNaN(b)))
    ensures done ==> NaNOfSum(a, b, r)
    ensures !done ==> IsFinite(a) && IsFinite(b) && Mag(a) != 0 && Mag(b) != 0
  {
    var hit, res := FindRule(CORNER_ADD, a, b);
    ZeroHasNoSign();
    if hit {
      return true, res;
    }
    if a == P_ZERO || a == N_ZERO {
      if 0 < Mag(b) < INF { SumWithZero(a, b); }
      return true, b;
    }
    if b == P_ZERO || b == N_ZERO {
      if 0 < Mag(a) < INF { SumWithZero(b, a); }
      return true, a;
    }
    if Exponent(a) == 0xFF {
      return true, a;
    }
    if Exponent(b) == 0xFF {
      return true, b;
    }
    return false, 0;
  }

  method InternalFloatAdd(b: Bits, a: Bits) returns (r: Bits)
    ensures IsFinite(a) && IsFinite(b) ==> r == Sum(a, b)
    // an infinity hides a NaN whose payload the tables do not list, and nothing else goes wrong
    ensures !(IsFinite(a) && IsFinite(b)) ==>
      (SpecialSum(a, b, r) <==> !(IsInfinite(a) && IsNaN(b) && !IsCanonicalNaN(b)))
    ensures NaNOfSum(a, b, r)
  {
    var done;
    done, r := AddSpecial(b, a);
    if !done {
      OppositesOnly(a, b);
      ZeroHasNoSign();
      NearestExact(0);
      if Exponent(a) > Exponent(b) {
        r := AddOrdered(b, a);
      } else {
        r := AddOrdered(a, b);
      }
    }
  }

  lemma ZeroHasNoSign()
    ensures Value(P_ZERO) == 0.0 && Value(N_ZERO) == 0.0 && MagValue(0) == 0.0
  {
    ScaledZero(-149);
  }

  // Nonzero operands cancel only when they are opposites.
  lemma OppositesOnly(a: Bits, b: Bits)
    requires Mag(a) != 0 && Mag(b) != 0
    ensures Value(a) + Value(b) == 0.0 ==> SignOf(a) != SignOf(b)
  {
    ScaledZero(-149);
    MagValueIncreases(0, Mag(a));
    MagValueIncreases(0, Mag(b));
  }

  // ----- internal_float_sub -----

  lemma NegateValue(b: Bits)
    ensures Mag(Negate(b)) == Mag(b) && SignOf(Negate(b)) == 1 - SignOf(b)
    ensures Value(Negate(b)) == -Value(b)
  {
  }

  // Flipping the sign of b turns a sum into a difference, signed zeros included.
  lemma DifferenceIsSum(a: Bits, b: Bits)
    ensures Difference(a, b) == Sum(a, Negate(b))
  {
    NegateValue(b);
  }

  method InternalFloatSub(b: Bits, a: Bits) returns (r: Bits)
    ensures IsFinite(a) && IsFinite(b) ==> r == Difference(a, b)
    ensures !(IsFinite(a) && IsFinite(b)) ==>
      (SpecialSum(a, Negate(b), r) <==> !(IsInfinite(a) && IsNaN(b) && !IsCanonicalNaN(b)))
    ensures NaNOfCanonical(a, b, r)
    ensures !IsCanonicalNaN(a) && !IsCanonicalNaN(b) ==> NaNOfSum(a, Negate(b), r)
  {
    var done;
    done, r := SubSpecial(b, a);
    if !done {
      NegateValue(b);
      DifferenceIsSum(a, b);
      r := InternalFloatAdd(Negate(b), a);
    }
  }

  // Lines 235-244: the table and the two canonical NaNs.
  method SubSpecial(b: Bits, a: Bits) returns (done: bool, r: Bits)
    ensures done && IsFinite(a) && IsFinite(b) ==> r == Difference(a, b)
    ensures done && !(IsFinite(a) && IsFinite(b)) ==>
      (IsNaN(a) || IsCanonicalNaN(b)) && IsNaN(r)
    ensures done ==> NaNOfCanonical(a, b, r) && ((IsFinite(a) && IsFinite(b)) || IsCanonicalNaN(a) || IsCanonicalNaN(b))
    ensures !done ==> !IsCanonicalNaN(a) && !IsCanonicalNaN(b)
  {
    var hit, res := FindRule(CORNER_SUB, a, b);
    ZeroHasNoSign();
    if hit {
      return true, res;
    }
    if a == P_NAN || a == N_NAN {
      return true, a;
    }
    if b == P_NAN || b == N_NAN {
      return true, b;
    }
    done, r := false, 0;
  }

  // ----- internal_float_mul -----

  const CORNER_MUL: seq<Rule> := [
    Rule(P_ZERO, P_INF, N_NAN), Rule(P_ZERO, N_INF, N_NAN), Rule(N_ZERO, P_INF, N_NAN),
    Rule(N_ZERO, N_INF, N_NAN), Rule(P_INF, P_ZERO, N_NAN), Rule(P_INF, N_ZERO, N_NAN),
    Rule(N_INF, P_ZERO, N_NAN), Rule(N_INF, N_ZERO, N_NAN)]

  function Xor(s: int, t: int): int { if s == t then 0 else 1 }

  // A uint32_t reinterpreted as int32_t, as an exponent is when it is passed on.
  function AsInt32(x: int): (r: int)
    requires -SIGN <= x < SIGN
    ensures r == x
  {
    var w := x % WORD;
    if w < SIGN then w else w - WORD
  }

  // The magnitude of the exact product.
  function ExactProduct(a: Bits, b: Bits): real { Times(MagValue(Mag(a)), MagValue(Mag(b))) }

  lemma SigBounds(p: int, q: int)
    requires 0 <= p < 2 * HIDDEN && 0 <= q < 2 * HIDDEN
    ensures 0 <= p * q < 0x1_0000_0000_0000
    ensures p * q == 0 <==> p == 0 || q == 0
    ensures p > 0 && q > 0 && (p >= HIDDEN || q >= HIDDEN) ==> p * q >= HIDDEN
    ensures p >= HIDDEN && q >= HIDDEN ==> p * q >= 2 * GRS_HIDDEN
  {
    ProductGrows(p, 2 * HIDDEN, q);
    if p > 0 && q > 0 {
      ProductGrows(1, p, q);
      ProductGrows(1, q, p);
      if p >= HIDDEN { ProductGrows(HIDDEN, p, q); }
    }
  }

  // 24 bits by 24 bits.
  function Sig48(a: Bits, b: Bits): (s: int)
    ensures 0 <= s < 0x1_0000_0000_0000
    ensures s == 0 <==> Mag(a) == 0 || Mag(b) == 0
    ensures s > 0 && Exponent(a) + Exponent(b) > 0 ==> s >= HIDDEN
    ensures Exponent(a) > 0 && Exponent(b) > 0 ==> s >= 2 * GRS_HIDDEN
  {
    SigBounds(Sig24(a), Sig24(b));
    Sig24(a) * Sig24(b)
  }

  lemma ProductForm(a: Bits, b: Bits)
    ensures ExactProduct(a, b) == Scaled(Sig48(a, b), Exp1(a) + Exp1(b) - 300) >= 0.0
  {
    var k := Exp1(a) + Exp1(b) - 300;
    ScaledProduct(Sig24(a), Exp1(a) - 150, Sig24(b), Exp1(b) - 150);
    assert Sig24(a) * Sig24(b) == Sig48(a, b);
    ScaledGrows(Sig48(a, b), k, k);
  }

  // The product whose exponent comes out as 0, which the normaliser reads as 1.
  predicate ProductDoubled(a: Bits, b: Bits) {
    Exp1(a) + Exp1(b) == 147 && 0 < Sig48(a, b) < 2 * GRS_HIDDEN
  }

  // What the normaliser is given in place of the exact product.
  function ProductAsRead(a: Bits, b: Bits): (v: real)
    ensures v >= 0.0
  {
    ProductForm(a, b);
    if ProductDoubled(a, b) then 2.0 * ExactProduct(a, b) else ExactProduct(a, b)
  }

  ghost function MulMagnitude(a: Bits, b: Bits): (m: int)
    ensures 0 <= m <= INF
  {
    Rounded(ProductAsRead(a, b))
  }

  // r has the magnitude m, and the sign of v; where that is zero, a minus if zeroIsNegative says so.
  predicate IsSigned(r: Bits, m: int, v: real, zeroIsNegative: bool) {
    Mag(r) == m && (SignOf(r) == 1 <==> v < 0.0 || (v == 0.0 && zeroIsNegative))
  }

  // Section 6 of IEEE 754-2019 for a product with an operand that is not finite.
  predicate SpecialProduct(a: Bits, b: Bits, r: Bits) {
    if IsNaN(a) || IsNaN(b) || Mag(a) == 0 || Mag(b) == 0 then IsNaN(r)
    else IsInfinite(r) && (SignOf(r) == 1 <==> SignOf(a) != SignOf(b))
  }

  // NaNs are noticed through the two canonical patterns only.
  predicate NaNsNoticed(a: Bits, b: Bits) {
    IsNaN(a) || IsNaN(b) ==> IsCanonicalNaN(a) || IsCanonicalNaN(b)
  }

  lemma MulStandsFor(a: Bits, b: Bits)
    requires Mag(a) != 0 && Mag(b) != 0
    ensures StandsFor(ProductAsRead(a, b), Exp1(a) + Exp1(b) - 147, Sig48(a, b))
  {
    ProductForm(a, b);
    ScaledDouble(Sig48(a, b), -153);
  }

  // Lines 289-307.
  method MulNumeric(a: Bits, b: Bits) returns (r: Bits)
    requires Mag(a) != 0 && Mag(b) != 0
    ensures r == Pack(Xor(SignOf(a), SignOf(b)), MulMagnitude(a, b))
  {
    MulStandsFor(a, b);
    var exp_res := AsInt32(Exp1(a) + Exp1(b) - 127 - 20);
    r := InternalNormalize(Xor(SignOf(a), SignOf(b)), exp_res, Sig48(a, b), ProductAsRead(a, b));
  }

  lemma MulZero(a: Bits, b: Bits)
    requires Mag(a) == 0 || Mag(b) == 0
    ensures MulMagnitude(a, b) == 0
  {
    ProductForm(a, b);
    ScaledZero(Exp1(a) + Exp1(b) - 300);
    RoundedZero();
  }

  lemma PackParts(s: int, m: int)
    requires 0 <= s <= 1 && 0 <= m <= INF
    ensures SignOf(Pack(s, m)) == s && Mag(Pack(s, m)) == m
  {
  }

  lemma PackIsNumber(s: int, m: int)
    requires 0 <= s <= 1 && 0 <= m <= INF
    ensures !IsNaN(Pack(s, m))
  {
  }

  lemma RoundedZero()
    ensures Rounded(0.0) == 0
  {
    ZeroHasNoSign();
    NearestExact(0);
    MidBetween(HIDDEN - 1);
    MagValueIncreases(0, HIDDEN - 1);
  }

  // Lines 265-287: every operand pair that is not a product of nonzero significands.
  method MulSpecial(b: Bits, a: Bits) returns (done: bool, r: Bits)
    ensures done && IsFinite(a) && IsFinite(b) ==>
      (Mag(a) == 0 || Mag(b) == 0) && r == Pack(Xor(SignOf(a), SignOf(b)), 0)
    ensures done && !(IsFinite(a) && IsFinite(b)) ==> (SpecialProduct(a, b, r) <==> NaNsNoticed(a, b))
    ensures done ==> NaNOfCanonical(a, b, r)
    ensures done && !IsNaN(a) && !IsNaN(b) && IsNaN(r) ==> r == N_NAN
    ensures !done ==> Mag(a) != 0 && Mag(b) != 0 && !IsInfinite(a) && !IsInfinite(b) &&
                      !IsCanonicalNaN(a) && !IsCanonicalNaN(b)
  {
    var hit, res := FindRule(CORNER_MUL, a, b);
    if hit {
      return true, res;
    }
    if IsCanonicalNaN(a) || IsCanonicalNaN(b) {
      return true, if a == P_NAN || b == P_NAN then P_NAN else N_NAN;
    }
    var sign := Xor(SignOf(a), SignOf(b));
    if a == P_ZERO || a == N_ZERO || b == P_ZERO || b == N_ZERO {
      return true, if sign == 1 then N_ZERO else P_ZERO;
    }
    if a == P_INF || a == N_INF || b == P_INF || b == N_INF {
      return true, if sign == 1 then N_INF else P_INF;
    }
    return false, 0;
  }

  lemma TimesSigns(x: real, y: real)
    ensures Times(-x, y) == Times(x, -y) == -Times(x, y) && Times(-x, -y) == Times(x, y)
  {
  }

  lemma ProductSign(a: Bits, b: Bits)
    ensures Times(Value(a), Value(b)) == SignedReal(SignOf(a) != SignOf(b), ExactProduct(a, b))
  {
    TimesSigns(MagValue(Mag(a)), MagValue(Mag(b)));
  }

  // The sign the code computes apart from the magnitude is that of the product.
  lemma ProductIsSigned(a: Bits, b: Bits, m: int)
    requires 0 <= m <= INF
    ensures IsSigned(Pack(Xor(SignOf(a), SignOf(b)), m), m, Times(Value(a), Value(b)), SignOf(a) != SignOf(b))
  {
    ProductForm(a, b);
    ProductSign(a, b);
    PackParts(Xor(SignOf(a), SignOf(b)), m);
  }

  method InternalFloatMul(b: Bits, a: Bits) returns (r: Bits)
    ensures IsFinite(a) && IsFinite(b) ==>
      IsSigned(r, MulMagnitude(a, b), Times(Value(a), Value(b)), SignOf(a) != SignOf(b))
    ensures !(IsFinite(a) && IsFinite(b)) ==> (SpecialProduct(a, b, r) <==> NaNsNoticed(a, b))
    ensures NaNOfCanonical(a, b, r)
    ensures !IsNaN(a) && !IsNaN(b) && IsNaN(r) ==> r == N_NAN
  {
    var done;
    done, r := MulSpecial(b, a);
    ProductIsSigned(a, b, MulMagnitude(a, b));
    if done {
      if Mag(a) == 0 || Mag(b) == 0 { MulZero(a, b); }
    } else {
      r := MulNumeric(a, b);
      PackIsNumber(Xor(SignOf(a), SignOf(b)), MulMagnitude(a, b));
    }
  }
}
