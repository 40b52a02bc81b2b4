/** What the flags are for: comparisons after a subtraction, numbers of many limbs chained through
    the carry flag, and the arithmetic meaning of shifts. */
module AluTheorems {
  import opened Common
  import opened Alu

  // ----- the condition macros (nemu/include/cpu/instr_helper.h:169-218) -----

  predicate CondE(f: Flags) { f.ZF == 1 }

  predicate CondNE(f: Flags) { f.ZF == 0 }

  predicate CondA(f: Flags) { f.CF == 0 && f.ZF == 0 }

  predicate CondAE(f: Flags) { f.CF == 0 }

  predicate CondB(f: Flags) { f.CF == 1 }

  predicate CondBE(f: Flags) { f.CF == 1 || f.ZF == 1 }

  predicate CondG(f: Flags) { f.ZF == 0 && f.SF == f.OF }

  predicate CondGE(f: Flags) { f.SF == f.OF }

  predicate CondL(f: Flags) { f.SF != f.OF }

  predicate CondLE(f: Flags) { f.ZF == 1 || f.SF != f.OF }

  // cmp is alu_sub; afterwards the macros decide the unsigned comparisons of dest with src ...
  lemma UnsignedComparisons(src: int, dest: int, n: int)
    requires IsWidth(n)
    ensures var f, d, s := SubFlags(src, dest, 0, n), Low(dest, n), Low(src, n);
            (CondE(f) <==> d == s) && (CondNE(f) <==> d != s) &&
            (CondA(f) <==> d > s) && (CondAE(f) <==> d >= s) &&
            (CondB(f) <==> d < s) && (CondBE(f) <==> d <= s)
  {
    LowOfDifference(dest, src, 0, n);
  }

  // ... and the signed ones.
  lemma SignedComparisons(src: int, dest: int, n: int)
    requires IsWidth(n)
    ensures var f, d, s := SubFlags(src, dest, 0, n), Signed(dest, n), Signed(src, n);
            (CondE(f) <==> d == s) && (CondG(f) <==> d > s) && (CondGE(f) <==> d >= s) &&
            (CondL(f) <==> d < s) && (CondLE(f) <==> d <= s)
  {
    LowOfDifference(dest, src, 0, n);
  }

  // ----- numbers of many 32-bit limbs, least significant first -----

  datatype Op = Sum | Difference

  predicate Limbs(xs: seq<int>) { forall i :: 0 <= i < |xs| ==> IsWord(xs[i]) }

  function Multiple(x: int, y: int): int { x * y }

  // WORD^n
  function Base(n: nat): (b: int)
    ensures b >= 1
  {
    if n == 0 then 1 else WORD * Base(n - 1)
  }

  // The number the lowest n limbs spell.
  function Val(xs: seq<int>, n: nat): int
    requires n <= |xs|
  {
    if n == 0 then 0 else Val(xs, n - 1) + Multiple(xs[n - 1], Base(n - 1))
  }

  // The same limbs as two's complement: the top limb carries the sign.
  function SVal(xs: seq<int>, n: nat): int
    requires 1 <= n <= |xs|
  {
    Val(xs, n - 1) + Multiple(Signed(xs[n - 1], 32), Base(n - 1))
  }

  function Apply(op: Op, x: int, y: int): int { if op.Sum? then x + y else x - y }

  // One limb with carry c in and d out loses nothing.
  predicate LimbExact(op: Op, x: int, y: int, z: int, c: Bit, d: Bit) {
    IsWord(z) && z + Apply(op, 0, WORD * d) == Apply(op, x, y + c)
  }

  // The overflow flag of one limb, read as two's complement.
  predicate LimbSigned(op: Op, x: int, y: int, z: int, c: Bit, of: Bit) {
    var s := Apply(op, Signed(x, 32), Signed(y, 32) + c);
    of == B(!Fits(s, 32)) && (Fits(s, 32) ==> Signed(z, 32) == s)
  }

  lemma SumLimb(x: int, y: int, c: Bit)
    requires IsWord(x) && IsWord(y)
    ensures LimbExact(Sum, x, y, AddResult(y, x, c, 32), c, AddFlags(y, x, c, 32).CF)
  {
    LowOfSum(x, y, c, 32);
    LowIs(x, 0, x, 32);
    LowIs(y, 0, y, 32);
  }

  lemma SumLimbSigned(x: int, y: int, c: Bit)
    ensures LimbSigned(Sum, x, y, AddResult(y, x, c, 32), c, AddFlags(y, x, c, 32).OF)
  {
    var z := AddResult(y, x, c, 32);
    LowOfSum(x, y, c, 32);
    LowIs(z, 0, z, 32);
  }

  lemma DifferenceLimb(x: int, y: int, c: Bit)
    requires IsWord(x) && IsWord(y)
    ensures LimbExact(Difference, x, y, SubResult(y, x, c, 32), c, SubFlags(y, x, c, 32).CF)
  {
    LowOfDifference(x, y, c, 32);
    LowIs(x, 0, x, 32);
    LowIs(y, 0, y, 32);
  }

  lemma DifferenceLimbSigned(x: int, y: int, c: Bit)
    ensures LimbSigned(Difference, x, y, SubResult(y, x, c, 32), c, SubFlags(y, x, c, 32).OF)
  {
    var z := SubResult(y, x, c, 32);
    LowOfDifference(x, y, c, 32);
    LowIs(z, 0, z, 32);
  }

  // The values so far, with carry c, and the next limbs x, y, z with carry d out.
  predicate Balanced(op: Op, x: int, y: int, z: int, c: int, b: int) {
    z + Apply(op, 0, Multiple(c, b)) == Apply(op, x, y)
  }

  lemma BalancedStep(op: Op, X: int, Y: int, Z: int, x: int, y: int, z: int, c: Bit, d: Bit, b: int)
    requires Balanced(op, X, Y, Z, c, b) && LimbExact(op, x, y, z, c, d)
    ensures Balanced(op, X + Multiple(x, b), Y + Multiple(y, b), Z + Multiple(z, b), d, WORD * b)
  {
  }

  // Limb by limb, cs[i] is the carry into limb i.
  predicate Chained(op: Op, xs: seq<int>, ys: seq<int>, zs: seq<int>, cs: seq<Bit>) {
    |zs| <= |xs| == |ys| && |cs| == |zs| + 1 && cs[0] == 0 &&
    forall i :: 0 <= i < |zs| ==> LimbExact(op, xs[i], ys[i], zs[i], cs[i], cs[i + 1])
  }

  // The lowest n limbs of the result and the carry out are the exact sum or difference.
  lemma {:induction false} ChainExact(op: Op, xs: seq<int>, ys: seq<int>, zs: seq<int>, cs: seq<Bit>, n: nat)
    requires Chained(op, xs, ys, zs, cs) && n <= |zs|
    ensures Balanced(op, Val(xs, n), Val(ys, n), Val(zs, n), cs[n], Base(n))
    ensures 0 <= Val(zs, n) < Base(n)
  {
    if n > 0 {
      var i := n - 1;
      ChainExact(op, xs, ys, zs, cs, i);
      BalancedStep(op, Val(xs, i), Val(ys, i), Val(zs, i), xs[i], ys[i], zs[i], cs[i], cs[n], Base(i));
      LimbRoom(Val(zs, i), zs[i], Base(i));
    }
  }

  lemma LimbRoom(low: int, z: int, b: int)
    requires 0 <= low < b && IsWord(z)
    ensures 0 <= low + Multiple(z, b) < WORD * b
  {
    assert Multiple(z, b) >= 0;
    assert Multiple(z + 1, b) <= Multiple(WORD, b) by { MultipleGrows(z + 1, WORD, b); }
    assert Multiple(z + 1, b) == Multiple(z, b) + b;
  }

  lemma MultipleGrows(x: int, y: int, b: int)
    requires x <= y && b >= 0
    ensures Multiple(x, b) <= Multiple(y, b)
  {
    assert Multiple(y, b) - Multiple(x, b) == (y - x) * b;
  }

  // What the carry (or borrow) out of n limbs says, and what the limbs then spell.
  predicate UnsignedResult(op: Op, x: int, y: int, z: int, cf: Bit, base: int) {
    var exact := Apply(op, x, y);
    (cf == 0 <==> 0 <= exact < base) && 0 <= z < base &&
    z == if 0 <= exact < base then exact else if op.Sum? then exact - base else exact + base
  }

  lemma ChainUnsigned(op: Op, xs: seq<int>, ys: seq<int>, zs: seq<int>, cs: seq<Bit>)
    requires Chained(op, xs, ys, zs, cs)
    ensures var n := |zs|; UnsignedResult(op, Val(xs, n), Val(ys, n), Val(zs, n), cs[n], Base(n))
  {
    var n := |zs|;
    ChainExact(op, xs, ys, zs, cs, n);
    assert Multiple(0, Base(n)) == 0 && Multiple(1, Base(n)) == Base(n);
  }

  // A value made of a low part and a multiple of b lies in b * [lo, hi) iff the multiplier lies in [lo, hi).
  lemma PlaceOrder(low: int, s: int, h: int, b: int)
    requires 0 <= low < b
    ensures low + Multiple(s, b) < Multiple(h, b) <==> s < h
  {
    if s < h {
      MultipleGrows(s + 1, h, b);
      assert Multiple(s + 1, b) == Multiple(s, b) + b;
    } else {
      MultipleGrows(h, s, b);
    }
  }

  // b is the weight of the top limb.
  predicate SignedResult(op: Op, x: int, y: int, z: int, of: Bit, b: int) {
    var exact := Apply(op, x, y);
    (of == 0 <==> Multiple(-0x8000_0000, b) <= exact < Multiple(0x8000_0000, b)) && (of == 0 ==> z == exact)
  }

  // OF of the last limb is the overflow of the whole number.
  lemma ChainSigned(op: Op, xs: seq<int>, ys: seq<int>, zs: seq<int>, cs: seq<Bit>, of: Bit)
    requires |zs| >= 1 && Chained(op, xs, ys, zs, cs)
    requires var i := |zs| - 1; LimbSigned(op, xs[i], ys[i], zs[i], cs[i], of)
    ensures var n := |zs|; SignedResult(op, SVal(xs, n), SVal(ys, n), SVal(zs, n), of, Base(n - 1))
  {
    var i := |zs| - 1;
    ChainExact(op, xs, ys, zs, cs, i);
    TopPlace(op, Val(xs, i), Val(ys, i), Val(zs, i), Signed(xs[i], 32), Signed(ys[i], 32), cs[i], Base(i));
  }

  lemma TopPlace(op: Op, X: int, Y: int, Z: int, x: int, y: int, c: Bit, b: int)
    requires Balanced(op, X, Y, Z, c, b) && 0 <= Z < b
    ensures var s := Apply(op, x, y + c);
            Apply(op, X + Multiple(x, b), Y + Multiple(y, b)) == Z + Multiple(s, b) &&
            (Fits(s, 32) <==> Multiple(-0x8000_0000, b) <= Z + Multiple(s, b) < Multiple(0x8000_0000, b))
  {
    var s := Apply(op, x, y + c);
    PlaceOrder(Z, s, 0x8000_0000, b);
    PlaceOrder(Z, s, -0x8000_0000, b);
  }

  method FirstLimb(cpu: Cpu, op: Op, src: int, dest: int) returns (r: int)
    requires IsWord(src) && IsWord(dest)
    modifies cpu
    ensures LimbExact(op, dest, src, r, 0, cpu.eflags.CF) && LimbSigned(op, dest, src, r, 0, cpu.eflags.OF)
  {
    if op.Sum? {
      SumLimb(dest, src, 0);
      SumLimbSigned(dest, src, 0);
      r := cpu.AluAdd(src, dest, 32);
    } else {
      DifferenceLimb(dest, src, 0);
      DifferenceLimbSigned(dest, src, 0);
      r := cpu.AluSub(src, dest, 32);
    }
  }

  method NextLimb(cpu: Cpu, op: Op, src: int, dest: int) returns (r: int)
    requires IsWord(src) && IsWord(dest)
    modifies cpu
    ensures LimbExact(op, dest, src, r, old(cpu.eflags.CF), cpu.eflags.CF)
    ensures LimbSigned(op, dest, src, r, old(cpu.eflags.CF), cpu.eflags.OF)
  {
    ghost var c := cpu.eflags.CF;
    if op.Sum? {
      SumLimb(dest, src, c);
      SumLimbSigned(dest, src, c);
      r := cpu.AluAdc(src, dest, 32);
    } else {
      DifferenceLimb(dest, src, c);
      DifferenceLimbSigned(dest, src, c);
      r := cpu.AluSbb(src, dest, 32);
    }
  }

  // The chain so far, with the flags its last limb left.
  predicate Running(op: Op, xs: seq<int>, ys: seq<int>, zs: seq<int>, cs: seq<Bit>, f: Flags) {
    |zs| >= 1 && Chained(op, xs, ys, zs, cs) && f.CF == cs[|zs|] &&
    var i := |zs| - 1; LimbSigned(op, xs[i], ys[i], zs[i], cs[i], f.OF)
  }

  lemma RunningDone(op: Op, xs: seq<int>, ys: seq<int>, zs: seq<int>, cs: seq<Bit>, f: Flags)
    requires Running(op, xs, ys, zs, cs, f)
    ensures Limbs(zs)
    ensures var n := |zs|; UnsignedResult(op, Val(xs, n), Val(ys, n), Val(zs, n), f.CF, Base(n))
    ensures var n := |zs|; SignedResult(op, SVal(xs, n), SVal(ys, n), SVal(zs, n), f.OF, Base(n - 1))
  {
    ChainUnsigned(op, xs, ys, zs, cs);
    ChainSigned(op, xs, ys, zs, cs, f.OF);
    forall i | 0 <= i < |zs| ensures IsWord(zs[i]) {
      assert LimbExact(op, xs[i], ys[i], zs[i], cs[i], cs[i + 1]);
    }
  }

  // A guest's loop over its limbs: alu_add (alu_sub) on the first, alu_adc (alu_sbb) on the others.
  // The result is exact modulo WORD^n, CF is the carry or borrow and OF the signed overflow of the
  // whole number.
  method Chain(cpu: Cpu, op: Op, xs: seq<int>, ys: seq<int>) returns (zs: seq<int>)
    requires |xs| == |ys| >= 1 && Limbs(xs) && Limbs(ys)
    modifies cpu
    ensures |zs| == |xs| && Limbs(zs)
    ensures var n := |xs|; UnsignedResult(op, Val(xs, n), Val(ys, n), Val(zs, n), cpu.eflags.CF, Base(n))
    ensures var n := |xs|; SignedResult(op, SVal(xs, n), SVal(ys, n), SVal(zs, n), cpu.eflags.OF, Base(n - 1))
  {
    var r := FirstLimb(cpu, op, ys[0], xs[0]);
    zs := [r];
    ghost var cs: seq<Bit> := [0, cpu.eflags.CF];
    while |zs| < |xs|
      invariant Running(op, xs, ys, zs, cs, cpu.eflags) && |zs| <= |xs|
    {
      ghost var f := cpu.eflags;
      r := NextLimb(cpu, op, ys[|zs|], xs[|zs|]);
      zs := zs + [r];
      cs := cs + [cpu.eflags.CF];
    }
    RunningDone(op, xs, ys, zs, cs, cpu.eflags);
  }

  // ----- shifts as arithmetic -----

  // k left shifts multiply by 2^k modulo the width.
  lemma {:induction false} ShlMultiplies(x: int, k: nat, n: int)
    requires IsWidth(n) && 0 <= x < Size(n)
    ensures ShlBy(x, k, n).value == Low(Doubled(x, k), n)
  {
    if k == 0 {
      LowIs(x, 0, x, n);
    } else {
      ShlMultiplies(x, k - 1, n);
      LowOfSum(Doubled(x, k - 1), Doubled(x, k - 1), 0, n);
    }
  }

  // And CF is the last bit they push out: bit n of x * 2^k.
  lemma ShlCarryOut(x: int, k: nat, n: int)
    requires IsWidth(n) && 0 <= x < Size(n) && k >= 1
    ensures High(Doubled(x, k), n) % 2 == ShlBy(x, k, n).carry
  {
    var y := Doubled(x, k - 1);
    var v := Low(y, n);
    ShlMultiplies(x, k - 1, n);
    HighOfDouble(y, n);
  }

  lemma HighOfDouble(y: int, n: int)
    requires IsWidth(n)
    ensures High(2 * y, n) == 2 * High(y, n) + B(Low(y, n) >= Size(n) / 2)
  {
  }

  // k arithmetic right shifts divide the signed value by 2^k, rounding towards minus infinity.
  lemma SarDivides(x: int, k: nat, n: int)
    requires IsWidth(n) && 0 <= x < Size(n) && k <= n
    ensures var q := Signed(SarBy(x, k, n).value, n);
            Doubled(q, k) <= Signed(x, n) < Doubled(q, k) + Doubled(1, k)
  {
    var v := SarBy(x, k, n).value;
    SarValue(x, k, n);
    LowIs(x, 0, x, n);
    LowIs(v, 0, v, n);
    SizeIsDoubled(n);
    if x >= Size(n) / 2 { ShrOfDifference(x, n, k); }
    assert Signed(v, n) == Shr(Signed(x, n), k);
    ShrIsFloor(Signed(x, n), k);
  }

  // With the bit in CF the dividend is known to half the divisor: CF is the last bit shifted out.
  lemma SarCarryOut(x: int, k: nat, n: int)
    requires IsWidth(n) && 0 <= x < Size(n) && 1 <= k <= n
    ensures var q, b := Signed(SarBy(x, k, n).value, n), SarBy(x, k, n).carry;
            Doubled(2 * q + b, k - 1) <= Signed(x, n) < Doubled(2 * q + b, k - 1) + Doubled(1, k - 1)
  {
    var v := SarBy(x, k - 1, n).value;
    SarDivides(x, k - 1, n);
    SarHalves(v, n);
  }

  lemma SarHalves(v: int, n: int)
    requires IsWidth(n) && 0 <= v < Size(n)
    ensures Signed(v, n) == 2 * Signed(Sar1(v, n).value, n) + Sar1(v, n).carry
  {
    LowIs(v, 0, v, n);
    LowIs(Sar1(v, n).value, 0, Sar1(v, n).value, n);
  }

  lemma ShrCarryOut(x: int, k: nat, n: int)
    requires IsWidth(n) && 0 <= x < Size(n) && k >= 1
    ensures var q, b := ShrBy(x, k, n).value, ShrBy(x, k, n).carry;
            Doubled(2 * q + b, k - 1) <= x < Doubled(2 * q + b, k - 1) + Doubled(1, k - 1)
  {
    ShrIsFloor(x, k - 1);
    ShrCarry(x, k, n);
  }

  // k logical right shifts divide the unsigned value by 2^k.
  lemma ShrDivides(x: int, k: nat, n: int)
    requires IsWidth(n) && 0 <= x < Size(n)
    ensures var q := ShrBy(x, k, n).value; Doubled(q, k) <= x < Doubled(q, k) + Doubled(1, k)
  {
    ShrIsFloor(x, k);
  }
}
