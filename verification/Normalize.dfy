/** The normalise-and-round routine shared by the software FPU (nemu/src/cpu/fpu.c:9-112).

    A pair (exp, sig_grs) stands for sig_grs * 2^(exp-153): a significand followed by
    guard, round and sticky bits.  The routine is proved against an exact real v that the
    pair stands for, jammed low bit included. */
module Normalize {
  import opened Binary32

  const GRS_HIDDEN := 0x400_0000  // 2^26: the hidden bit above three extra bits
  const EXP_BIAS_GRS := 153  // 127 + 23 + 3

  // `sig | sticky` for a one-bit sticky.
  function OrBit(sig: int, bit: int): int {
    if sig % 2 == 0 then sig + bit else sig
  }

  // v is sig * 2^k, or sig is odd and stands for the open interval around it.
  predicate Jammed(v: real, sig: int, k: int) {
    v == Scaled(sig, k) || (sig % 2 == 1 && Scaled(sig - 1, k) < v < Scaled(sig + 1, k))
  }

  // All that rounding needs: v compares with every multiple of four units, here j * 2^k, as
  // sig does.  The midpoints between results are such multiples.
  ghost predicate Sides(v: real, sig: int, k: int) {
    forall j {:trigger Scaled(j, k)} ::
      (sig < 4 * j ==> v < Scaled(j, k)) &&
      (sig == 4 * j ==> v == Scaled(j, k)) &&
      (sig > 4 * j ==> Scaled(j, k) < v)
  }

  // The weight internal_normalize gives to the exponent it receives: exponent 0 without a
  // carry means the scale of exponent 1.
  function EntryScale(exp: int, sig: int): int {
    if exp == 0 && sig < 2 * GRS_HIDDEN then 1 - EXP_BIAS_GRS else exp - EXP_BIAS_GRS
  }

  // What callers hand over: the exact value, or one jammed with at most one bit to regain.
  predicate StandsFor(v: real, exp: int, sig: int) {
    v == Scaled(sig, EntryScale(exp, sig)) ||
    (Jammed(v, sig, EntryScale(exp, sig)) && sig >= GRS_HIDDEN / 2 && exp >= 2)
  }

  // The values that round up to 2^-126 from below.
  predicate InGap(v: real) { Mid(HIDDEN - 1) <= v < MagValue(HIDDEN) }

  // What the routine is proved to encode.
  ghost function Rounded(v: real): int
    requires v >= 0.0
  {
    if InGap(v) then 0 else Nearest(v)
  }

  lemma JamOnce(v: real, sig: int, sticky: int, k: int)
    requires sig >= 0 && 0 <= sticky <= 1 && (sticky == 1 ==> sig % 2 == 1) && Jammed(v, sig, k)
    ensures var st := if sig % 2 == 1 then 1 else sticky;
            Jammed(v, OrBit(sig / 2, st), k + 1)
  {
    var h := sig / 2;
    ScaledDouble(h, k);
    if sig % 2 == 1 {
      JamOdd(v, h, k);
    }
  }

  // A dropped one leaves an odd significand whose interval contains the old one.
  lemma JamOdd(v: real, h: int, k: int)
    requires Jammed(v, 2 * h + 1, k)
    ensures Jammed(v, OrBit(h, 1), k + 1)
  {
    var t := OrBit(h, 1);
    ScaledOrder(2 * h, 2 * h + 1, k);
    ScaledOrder(2 * h + 1, 2 * h + 2, k);
    ScaledDouble(t - 1, k);
    ScaledDouble(t + 1, k);
    if t == h { ScaledOrder(2 * (t - 1), 2 * h, k); } else { ScaledOrder(2 * h + 2, 2 * (t + 1), k); }
  }

  // Jamming never crosses an even number.
  lemma JammedSide(v: real, sig: int, k: int, h: int)
    requires Jammed(v, sig, k)
    ensures sig < 2 * h ==> v < Scaled(h, k + 1)
    ensures sig == 2 * h ==> v == Scaled(h, k + 1)
    ensures sig > 2 * h ==> Scaled(h, k + 1) < v
  {
    var c := 2 * h;
    ScaledDouble(h, k);
    ScaledOrder(sig, c, k);
    ScaledOrder(c, sig, k);
    if sig < c { ScaledOrder(c, sig + 1, k); } else { ScaledOrder(sig - 1, c, k); }
  }

  lemma JammedSides(v: real, sig: int, k: int)
    requires Jammed(v, sig, k)
    ensures Sides(v, sig, k + 2)
  {
    forall j {:trigger Scaled(j, k + 2)}
      ensures sig < 4 * j ==> v < Scaled(j, k + 2)
      ensures sig == 4 * j ==> v == Scaled(j, k + 2)
      ensures sig > 4 * j ==> Scaled(j, k + 2) < v
    {
      ScaledDouble(j, k + 1);
      JammedSide(v, sig, k, 2 * j);
    }
  }

  // One left shift of a jammed significand costs precision that rounding does not look at.
  lemma ShiftedSides(v: real, sig: int, k: int)
    requires Jammed(v, sig, k)
    ensures Sides(v, 2 * sig, k + 1)
  {
    forall j {:trigger Scaled(j, k + 1)}
      ensures 2 * sig < 4 * j ==> v < Scaled(j, k + 1)
      ensures 2 * sig == 4 * j ==> v == Scaled(j, k + 1)
      ensures 2 * sig > 4 * j ==> Scaled(j, k + 1) < v
    {
      JammedSide(v, sig, k, j);
    }
  }

  // Round half to even on three extra bits, as integers.
  predicate IsRounded(sig: int, q: int) {
    8 * q - 4 <= sig <= 8 * q + 4 && ((sig == 8 * q - 4 || sig == 8 * q + 4) ==> q % 2 == 0)
  }

  // The midpoint above (E-1)*2^23 + q, in half units.
  lemma MidAbove(E: int, q: int)
    requires E >= 1 && 0 <= q < 2 * HIDDEN && (E == 1 || q >= HIDDEN)
    ensures Mid((E - 1) * HIDDEN + q) == Scaled(2 * q + 1, E - 151)
  {
    Lattice(E, q);
    Lattice(E, q + 1);
    MidIs((E - 1) * HIDDEN + q, Scaled(q, E - 150), Scaled(q + 1, E - 150));
    ScaledSum(q, q + 1, E - 150);
    ScaledDouble(2 * q + 1, E - 151);
  }

  predicate IsSignificand(E: int, q: int) {
    1 <= E && 0 <= q <= 2 * HIDDEN && (E == 1 || q >= HIDDEN)
  }

  lemma RoundedBelowNextMid(v: real, E: int, sig: int, q: int)
    requires IsSignificand(E, q) && sig < 2 * GRS_HIDDEN
    requires Sides(v, sig, E - 151) && IsRounded(sig, q)
    ensures var m := (E - 1) * HIDDEN + q;
            v <= Mid(m) && (v == Mid(m) ==> q % 2 == 0)
  {
    if q < 2 * HIDDEN {
      MidAbove(E, q);
    } else {
      assert E * HIDDEN + HIDDEN == (E - 1) * HIDDEN + q;
      MidAbove(E + 1, HIDDEN);
      ScaledDouble(2 * HIDDEN + 1, E - 151);
    }
  }

  lemma RoundedAbovePreviousMid(v: real, E: int, sig: int, q: int)
    requires IsSignificand(E, q) && (E == 1 || sig >= GRS_HIDDEN)
    requires Sides(v, sig, E - 151) && IsRounded(sig, q)
    requires (E - 1) * HIDDEN + q > 0
    ensures var m := (E - 1) * HIDDEN + q - 1;
            Mid(m) <= v && (v == Mid(m) ==> q % 2 == 0)
  {
    if q > HIDDEN || E == 1 {
      MidAbove(E, q - 1);
    } else {
      assert (E - 2) * HIDDEN + (2 * HIDDEN - 1) == (E - 1) * HIDDEN + q - 1;
      MidAbove(E - 1, 2 * HIDDEN - 1);
      ScaledDouble(2 * HIDDEN, E - 152);
      ScaledOrder(4 * HIDDEN - 1, 4 * HIDDEN, E - 152);
    }
  }

  lemma RoundedInInterval(v: real, E: int, sig: int, q: int)
    requires 1 <= E <= 254 && 0 <= sig < 2 * GRS_HIDDEN && (E == 1 || sig >= GRS_HIDDEN)
    requires Sides(v, sig, E - 151) && IsRounded(sig, q)
    ensures IsSignificand(E, q) && InInterval(v, (E - 1) * HIDDEN + q)
  {
    RoundedBelowNextMid(v, E, sig, q);
    if (E - 1) * HIDDEN + q > 0 {
      RoundedAbovePreviousMid(v, E, sig, q);
    }
  }

  // ----- the three ways out of the routine -----

  lemma SidesNonnegative(v: real, sig: int, k: int)
    requires sig >= 0 && Jammed(v, sig, k)
    ensures v >= 0.0
  {
    ScaledZero(k);
    ScaledOrder(0, sig, k);
    ScaledOrder(0, sig - 1, k);
  }

  lemma OverflowRounds(v: real, sig: int, exp: int)
    requires exp >= 255 && sig >= GRS_HIDDEN && Sides(v, sig, exp - 151)
    ensures v >= 0.0 && Rounded(v) == INF
  {
    ScaledGrows(2 * HIDDEN, 104, exp - 151);
    ScaledDouble(HIDDEN, 104);
    Lattice(255, HIDDEN);
    MagValueIncreases(HIDDEN, INF);
    MidBetween(INF - 1);
    NearestIs(v, INF);
  }

  lemma UnderflowRounds(v: real, sig: int, exp: int)
    requires exp < 0 && 0 <= sig <= 4 && Jammed(v, sig, exp - EXP_BIAS_GRS)
    ensures v >= 0.0 && Rounded(v) == 0
  {
    SidesNonnegative(v, sig, exp - 153);
    JammedSides(v, sig, exp - 153);
    assert v <= Scaled(1, exp - 151);
    ScaledGrows(1, exp - 151, -152);
    ScaledGrows(1, -152, -151);
    ScaledDouble(1, -152);
    ScaledDouble(1, -151);
    MidAbove(1, 0);
    MidOrder(0, HIDDEN - 1);
    NearestIs(v, 0);
  }

  lemma MidOrder(m: int, n: int)
    requires 0 <= m < n
    ensures Mid(m) < Mid(n)
  {
    MidBetween(m);
    MidBetween(n);
    if m + 1 < n { MagValueIncreases(m + 1, n); }
  }

  lemma GapBounds()
    ensures Mid(HIDDEN - 1) == Scaled(2 * HIDDEN - 1, -150)
    ensures MagValue(HIDDEN) == Scaled(2 * HIDDEN, -150)
  {
    MidAbove(1, HIDDEN - 1);
    Lattice(1, HIDDEN);
    ScaledDouble(HIDDEN, -150);
  }

  lemma GapOfSubnormal(v: real, sig: int)
    requires Sides(v, sig, -150) && sig < GRS_HIDDEN
    ensures InGap(v) <==> sig >= 4 * (2 * HIDDEN - 1)
  {
    GapBounds();
  }

  lemma GapOfNormal(v: real, E: int, sig: int)
    requires E >= 1 && Sides(v, sig, E - 151) && sig >= GRS_HIDDEN
    ensures !InGap(v)
  {
    GapBounds();
    ScaledGrows(2 * HIDDEN, -150, E - 151);
  }

  // A rounded significand q under exponent field f encodes v, except when a subnormal
  // carries into the hidden bit and the field is left at 0.
  lemma FiniteRounds(v: real, f: int, sig: int, q: int)
    requires 0 <= f <= 254 && 0 <= sig < 2 * GRS_HIDDEN && (f == 0 <==> sig < GRS_HIDDEN)
    requires Sides(v, sig, if f == 0 then -150 else f - 151)
    requires IsRounded(sig, q) && v >= 0.0
    ensures f == 0 ==> 0 <= q <= HIDDEN && Rounded(v) == if q == HIDDEN then 0 else q
    ensures f > 0 ==> HIDDEN <= q <= 2 * HIDDEN && Rounded(v) == (f - 1) * HIDDEN + q
  {
    var E := if f == 0 then 1 else f;
    RoundedInInterval(v, E, sig, q);
    NearestIs(v, (E - 1) * HIDDEN + q);
    if f == 0 { GapOfSubnormal(v, sig); } else { GapOfNormal(v, f, sig); }
  }

  // The significand a left normalisation has reached: exact, or jammed with its one bit
  // still to regain, or jammed and regained.
  ghost predicate LeftShifted(v: real, exp: int, sig: int) {
    (v == Scaled(sig, exp - EXP_BIAS_GRS) && (exp == 0 ==> sig % 2 == 0)) ||
    (Jammed(v, sig, exp - EXP_BIAS_GRS) && sig >= GRS_HIDDEN / 2 && exp >= 2) ||
    (Sides(v, sig, exp - 151) && sig >= GRS_HIDDEN && exp >= 1)
  }

  lemma ShiftLeftOnce(v: real, exp: int, sig: int)
    requires LeftShifted(v, exp, sig) && 0 <= sig < GRS_HIDDEN && exp > 0
    ensures LeftShifted(v, exp - 1, 2 * sig)
  {
    ScaledDouble(sig, exp - 154);
    if Jammed(v, sig, exp - EXP_BIAS_GRS) {
      ShiftedSides(v, sig, exp - 153);
    }
  }

  // ----- internal_normalize -----

  // Ready to round: an exponent field, and a significand with GRS bits that v rounds like.
  ghost predicate Settled(v: real, exp: int, sig: int) {
    0 <= exp && 0 <= sig < 2 * GRS_HIDDEN && (exp == 0 <==> sig < GRS_HIDDEN) &&
    Sides(v, sig, if exp == 0 then -150 else exp - 151)
  }

  // Lines 16-53: normalise towards the right.
  method ShiftRight(exp0: int, sig0: int, ghost v: real) returns (exp: int, sig: int, overflow: bool)
    requires sig0 >= 2 * GRS_HIDDEN || (exp0 < 0 && sig0 >= 0)
    requires Jammed(v, sig0, exp0 - EXP_BIAS_GRS) && v >= 0.0
    ensures overflow ==> (exp == 0xFF || exp == 0) && sig == 0 && Rounded(v) == exp * HIDDEN
    ensures !overflow ==> Settled(v, exp, sig) && exp < 0xFF
  {
    exp, sig, overflow := exp0, sig0, false;
    var sticky := 0;
    while (sig / GRS_HIDDEN > 1 && exp < 0xFF) || (sig > 4 && exp < 0)
      invariant sig >= 0 && 0 <= sticky <= 1 && (sticky == 1 ==> sig % 2 == 1)
      invariant Jammed(v, sig, exp - EXP_BIAS_GRS)
      invariant exp > 0 ==> sig >= GRS_HIDDEN
      decreases sig
    {
      JamOnce(v, sig, sticky, exp - EXP_BIAS_GRS);
      sticky := if sig % 2 == 1 then 1 else sticky;
      sig := OrBit(sig / 2, sticky);
      exp := exp + 1;
    }
    JammedSides(v, sig, exp - EXP_BIAS_GRS);
    if exp >= 0xFF {
      OverflowRounds(v, sig, exp);
      exp := 0xFF;
      sig := 0;
      overflow := true;
    }
    if exp == 0 {
      JamOnce(v, sig, sticky, -EXP_BIAS_GRS);
      sticky := if sig % 2 == 1 then 1 else sticky;
      sig := OrBit(sig / 2, sticky);
      JammedSides(v, sig, -152);
    }
    if exp < 0 {
      UnderflowRounds(v, sig, exp);
      exp := 0;
      sig := 0;
      overflow := true;
    }
  }

  // Lines 56-72: normalise towards the left.
  method ShiftLeft(exp0: int, sig0: int, ghost v: real) returns (exp: int, sig: int)
    requires 0 <= sig0 < GRS_HIDDEN && exp0 > 0 && LeftShifted(v, exp0, sig0)
    ensures Settled(v, exp, sig)
  {
    exp, sig := exp0, sig0;
    while sig / GRS_HIDDEN == 0 && exp > 0
      invariant 0 <= sig < 2 * GRS_HIDDEN && exp >= 0
      invariant LeftShifted(v, exp, sig)
      decreases exp
    {
      ShiftLeftOnce(v, exp, sig);
      sig := sig * 2;
      exp := exp - 1;
    }
    if exp == 0 {
      ScaledDouble(sig / 2, -153);
      var sticky := if sig % 2 == 1 then 1 else 0;
      sig := OrBit(sig / 2, sticky);
      JammedSides(v, sig, -152);
    } else if Jammed(v, sig, exp - EXP_BIAS_GRS) {
      JammedSides(v, sig, exp - EXP_BIAS_GRS);
    }
  }

  // Lines 82-94: drop the GRS bits, rounding half to even.
  function DropGrs(sig: int): (q: int)
    requires sig >= 0
    ensures IsRounded(sig, q)
  {
    if sig % 8 == 4 then
      (if sig / 8 % 2 == 1 then sig / 8 + 1 else sig / 8)
    else if sig % 8 < 4 then sig / 8
    else sig / 8 + 1
  }

  // Lines 81-104: round on the GRS bits, and renormalise after a carry.
  method RoundGrs(exp0: int, sig0: int, ghost v: real) returns (exp: int, sig: int)
    requires Settled(v, exp0, sig0) && v >= 0.0
    ensures 0 <= exp <= 0xFF && 0 <= sig && Rounded(v) == exp * HIDDEN + sig % HIDDEN
  {
    exp, sig := exp0, sig0;
    sig := DropGrs(sig);
    if exp >= 0xFF { OverflowRounds(v, sig0, exp); } else { FiniteRounds(v, exp, sig0, sig); }
    if sig / HIDDEN > 1 && exp < 0xFF {
      sig := sig / 2;
      exp := exp + 1;
    }
    if exp >= 0xFF {
      exp := 0xFF;
      sig := 0;
    }
  }

  // Lines 107-111: the bit-fields of FLOAT keep the low 8 and 23 bits.
  function Assemble(sign: int, exp: int, sig: int): (r: Bits)
    requires 0 <= sign <= 1 && 0 <= sig
    ensures 0 <= exp <= 0xFF ==> r == Pack(sign, exp * HIDDEN + sig % HIDDEN)
  {
    sign * SIGN + (exp % 0x100) * HIDDEN + sig % HIDDEN
  }

  lemma Entry(v: real, exp: int, sig: int)
    requires sig >= 0 && StandsFor(v, exp, sig)
    ensures v >= 0.0 && Jammed(v, sig, EntryScale(exp, sig))
    ensures exp > 0 && sig < GRS_HIDDEN ==> LeftShifted(v, exp, sig)
    ensures exp >= 0 && sig < 2 * GRS_HIDDEN && (exp > 0 ==> sig >= GRS_HIDDEN) ==>
      Settled(v, if exp == 0 && sig >= GRS_HIDDEN then 1 else exp, sig)
  {
    var k := EntryScale(exp, sig);
    SidesNonnegative(v, sig, k);
    JammedSides(v, sig, k);
  }

  method InternalNormalize(sign: int, exp0: int, sig0: int, ghost v: real) returns (r: Bits)
    requires 0 <= sign <= 1 && -0x8000_0000 <= exp0 < 0x8000_0000 && 0 <= sig0 < 0x1_0000_0000_0000_0000
    requires StandsFor(v, exp0, sig0)
    ensures v >= 0.0 && r == Pack(sign, Rounded(v))
  {
    var exp, sig, overflow := exp0, sig0, false;
    Entry(v, exp, sig);
    if sig / GRS_HIDDEN > 1 || exp < 0 {
      exp, sig, overflow := ShiftRight(exp, sig, v);
    } else if sig / GRS_HIDDEN == 0 && exp > 0 {
      exp, sig := ShiftLeft(exp, sig, v);
    } else if exp == 0 && sig / GRS_HIDDEN == 1 {
      // two subnormals added up to a normal number
      exp := exp + 1;
    }
    if !overflow {
      exp, sig := RoundGrs(exp, sig, v);
    }
    r := Assemble(sign, exp, sig);
  }
}
