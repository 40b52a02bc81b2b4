/** The ALU and its flags (nemu/src/cpu/alu.c, nemu/include/cpu/alu.h), and the condition macros
    (nemu/include/cpu/instr_helper.h:169-218).  A mask with n ones is the remainder by 2^n. */
module Alu {
  import opened Common

  type Bit = b: int | b == 0 || b == 1

  datatype Flags = Flags(CF: Bit, PF: Bit, ZF: Bit, SF: Bit, OF: Bit)

  predicate IsWidth(n: int) { n == 8 || n == 16 || n == 32 }

  // 2^n
  function Size(n: int): int
    requires IsWidth(n)
  {
    if n == 8 then 0x100 else if n == 16 then 0x1_0000 else WORD
  }

  function Low(x: int, n: int): (r: int)
    requires IsWidth(n)
    ensures 0 <= r < Size(n)
  {
    if n == 8 then x % 0x100 else if n == 16 then x % 0x1_0000 else x % WORD
  }

  // What a right shift by n leaves.
  function High(x: int, n: int): int
    requires IsWidth(n)
  {
    if n == 8 then x / 0x100 else if n == 16 then x / 0x1_0000 else x / WORD
  }

  function B(p: bool): Bit { if p then 1 else 0 }

  // ----- what the flags mean (section 3.4.3.1 of the Intel SDM, Volume 1) -----

  // The low n bits read as two's complement.
  function Signed(x: int, n: int): (r: int)
    requires IsWidth(n)
    ensures -Size(n) / 2 <= r < Size(n) / 2
  {
    if Low(x, n) < Size(n) / 2 then Low(x, n) else Low(x, n) - Size(n)
  }

  predicate Fits(v: int, n: int)
    requires IsWidth(n)
  {
    -Size(n) / 2 <= v < Size(n) / 2
  }

  // The number of ones among the lowest k bits.
  function Ones(x: int, k: nat): nat
    decreases k
  {
    if k == 0 then 0 else x % 2 + Ones(x / 2, k - 1)
  }

  // Parity, zero and sign of a result.
  function Judged(f: Flags, r: int, n: int): Flags
    requires IsWidth(n)
  {
    f.(PF := B(Ones(r, 8) % 2 == 0), ZF := B(r == 0), SF := B(r >= Size(n) / 2))
  }

  lemma JudgedThenOF(f: Flags, r: int, of: Bit, n: int)
    requires IsWidth(n)
    ensures Judged(f, r, n).(OF := of) == Judged(Flags(f.CF, 0, 0, 0, of), r, n)
  {
  }

  function AddResult(src: int, dest: int, c: Bit, n: int): int
    requires IsWidth(n)
  {
    Low(dest + src + c, n)
  }

  function AddFlags(src: int, dest: int, c: Bit, n: int): Flags
    requires IsWidth(n)
  {
    Judged(Flags(B(Low(dest, n) + Low(src, n) + c >= Size(n)), 0, 0, 0,
                 B(!Fits(Signed(dest, n) + Signed(src, n) + c, n))),
           AddResult(src, dest, c, n), n)
  }

  function SubResult(src: int, dest: int, c: Bit, n: int): int
    requires IsWidth(n)
  {
    Low(dest - src - c, n)
  }

  function SubFlags(src: int, dest: int, c: Bit, n: int): Flags
    requires IsWidth(n)
  {
    Judged(Flags(B(Low(dest, n) < Low(src, n) + c), 0, 0, 0,
                 B(!Fits(Signed(dest, n) - Signed(src, n) - c, n))),
           SubResult(src, dest, c, n), n)
  }

  // Setting one of the lowest k bits adds one to their number, and 0 has none.
  lemma {:induction false} OnesOfSetBit(x: int, i: nat, k: nat)
    requires i < k && Shr(x, i) % 2 == 0
    ensures Ones(x + Doubled(1, i), k) == Ones(x, k) + 1
    decreases k
  {
    if i > 0 {
      ShrCommutes(x, i - 1);
      assert (x + 2 * Doubled(1, i - 1)) / 2 == x / 2 + Doubled(1, i - 1);
      OnesOfSetBit(x / 2, i - 1, k - 1);
    }
  }

  lemma {:induction false} OnesOfZero(k: nat)
    ensures Ones(0, k) == 0
  {
    if k > 0 { OnesOfZero(k - 1); }
  }

  // ----- words -----

  function Shr(x: int, k: nat): int { if k == 0 then x else Shr(x, k - 1) / 2 }

  function Sign(x: int): int { x / 0x8000_0000 }

  // (int32_t)(int8_t)x and its siblings, as an unsigned word.
  function SignExt(x: int, n: int): (r: int)
    requires IsWord(x) && IsWidth(n)
    ensures IsWord(r)
  {
    if Low(x, n) < Size(n) / 2 then Low(x, n) else Low(x, n) + WORD - Size(n)
  }

  // Sign extension keeps the unsigned order, so comparing extended operands is sound.
  lemma SignExtOrder(x: int, y: int, n: int)
    requires IsWord(x) && IsWord(y) && IsWidth(n)
    ensures SignExt(x, n) < SignExt(y, n) <==> Low(x, n) < Low(y, n)
    ensures SignExt(x, n) == SignExt(y, n) <==> Low(x, n) == Low(y, n)
    ensures Sign(SignExt(x, n)) == B(Low(x, n) >= Size(n) / 2)
  {
  }

  // The lowest byte decides the parity.
  lemma {:induction false} OnesPeriodic(x: int, m: int, k: nat)
    ensures Ones(x + Doubled(m, k), k) == Ones(x, k)
    decreases k
  {
    if k > 0 {
      var d := Doubled(m, k - 1);
      assert Doubled(m, k) == 2 * d;
      assert (x + 2 * d) % 2 == x % 2 && (x + 2 * d) / 2 == x / 2 + d;
      OnesPeriodic(x / 2, m, k - 1);
    }
  }

  // m * 2^k
  function Doubled(m: int, k: nat): (r: int)
    ensures m >= 0 ==> r >= 0
  {
    if k == 0 then m else 2 * Doubled(m, k - 1)
  }

  lemma DoubledEight(m: int)
    ensures Doubled(m, 8) == 0x100 * m
  {
    assert Doubled(m, 1) == 2 * m;
    assert Doubled(m, 3) == 8 * m;
    assert Doubled(m, 5) == 32 * m;
    assert Doubled(m, 7) == 128 * m;
  }

  // Division with remainder by 2^n, one constant at a time.
  predicate Splits(x: int, q: int, r: int, n: int)
    requires IsWidth(n)
  {
    if n == 8 then x == 0x100 * q + r else if n == 16 then x == 0x1_0000 * q + r else x == WORD * q + r
  }

  lemma LowSplits(x: int, n: int)
    requires IsWidth(n)
    ensures Splits(x, High(x, n), Low(x, n), n)
  {
  }

  lemma LowIs(x: int, q: int, r: int, n: int)
    requires IsWidth(n) && Splits(x, q, r, n) && 0 <= r < Size(n)
    ensures Low(x, n) == r
  {
    if n == 8 { ByteIs(x, q, r); } else if n == 16 { HalfIs(x, q, r); } else { WordIs(x, q, r); }
  }

  lemma ByteIs(x: int, q: int, r: int)
    requires x == 0x100 * q + r && 0 <= r < 0x100
    ensures x % 0x100 == r
  {
  }

  lemma HalfIs(x: int, q: int, r: int)
    requires x == 0x1_0000 * q + r && 0 <= r < 0x1_0000
    ensures x % 0x1_0000 == r
  {
  }

  lemma WordIs(x: int, q: int, r: int)
    requires x == WORD * q + r && 0 <= r < WORD
    ensures x % WORD == r
  {
  }

  lemma BytesAbove(x: int, n: int) returns (m: int)
    requires IsWidth(n)
    ensures x == Low(x, n) + 0x100 * m
  {
    var q := High(x, n);
    LowSplits(x, n);
    m := if n == 8 then q else if n == 16 then 0x100 * q else 0x100_0000 * q;
  }

  lemma ParityOfLow(x: int, n: int)
    requires IsWidth(n)
    ensures Ones(Low(x, n), 8) == Ones(x, 8)
  {
    var m := BytesAbove(x, n);
    DoubledEight(m);
    OnesCongruent(x, Low(x, n), m, 8);
  }

  lemma OnesCongruent(x: int, y: int, m: int, k: nat)
    requires x == y + Doubled(m, k)
    ensures Ones(y, k) == Ones(x, k)
  {
    OnesPeriodic(y, m, k);
  }

  // Arithmetic on words wraps.
  function Sub32(x: int, y: int): int { (x - y) % WORD }

  lemma SubOfSum(x: int, y: int)
    ensures (x - y % WORD) % WORD == (x - y) % WORD
  {
    var q := y / WORD;
    assert x - y % WORD == x - y + WORD * q;
  }

  lemma LowOfWord(x: int, n: int)
    requires IsWidth(n)
    ensures Low(x % WORD, n) == Low(x, n)
  {
    var w, q := x % WORD, x / WORD;
    LowSplits(w, n);
    LowIs(x, High(w, n) + (if n == 8 then 0x100_0000 * q else if n == 16 then 0x1_0000 * q else q), Low(w, n), n);
  }

  // Reducing a sum or a difference of reduced operands takes one correction.
  lemma LowOfSum(x: int, y: int, c: Bit, n: int)
    requires IsWidth(n)
    ensures var s := Low(x, n) + Low(y, n) + c;
            Low(x + y + c, n) == if s >= Size(n) then s - Size(n) else s
  {
    LowSplits(x, n);
    LowSplits(y, n);
    var p, q, s := High(x, n), High(y, n), Low(x, n) + Low(y, n) + c;
    LowIs(x + y + c, if s >= Size(n) then p + q + 1 else p + q, if s >= Size(n) then s - Size(n) else s, n);
  }

  lemma LowOfDifference(x: int, y: int, c: Bit, n: int)
    requires IsWidth(n)
    ensures var d := Low(x, n) - Low(y, n) - c;
            Low(x - y - c, n) == if d < 0 then d + Size(n) else d
  {
    LowSplits(x, n);
    LowSplits(y, n);
    var p, q, d := High(x, n), High(y, n), Low(x, n) - Low(y, n) - c;
    LowIs(x - y - c, if d < 0 then p - q - 1 else p - q, if d < 0 then d + Size(n) else d, n);
  }

  // Two's complement by the half h of the range.
  function Wrapped(x: int, h: int): int { if x < h then x else x - 2 * h }

  lemma SumTests(d: int, s: int, r: int, c: Bit, h: int)
    requires 0 <= d < 2 * h && 0 <= s < 2 * h && r == if d + s + c >= 2 * h then d + s + c - 2 * h else d + s + c
    ensures r < s + c <==> d + s + c >= 2 * h
    ensures (d >= h) == (s >= h) != (r >= h) <==> !(-h <= Wrapped(d, h) + Wrapped(s, h) + c < h)
  {
  }

  lemma DifferenceTests(d: int, s: int, r: int, c: Bit, h: int)
    requires 0 <= d < 2 * h && 0 <= s < 2 * h && r == if d - s - c < 0 then d - s - c + 2 * h else d - s - c
    ensures r + c > d <==> d < s + c
    ensures (d >= h) != (s >= h) && (r >= h) != (d >= h) <==> !(-h <= Wrapped(d, h) - Wrapped(s, h) - c < h)
  {
  }

  lemma SignedWraps(x: int, v: int, n: int)
    requires IsWidth(n)
    ensures Signed(x, n) == Wrapped(Low(x, n), Size(n) / 2)
    ensures Fits(v, n) <==> -(Size(n) / 2) <= v < Size(n) / 2
    ensures Size(n) == 2 * (Size(n) / 2)
  {
  }

  // The carry and overflow tests the code makes are the exact ones.
  lemma AddTests(src: int, dest: int, c: Bit, n: int)
    requires IsWidth(n)
    ensures var r, d, s, h := Low(dest + src + c, n), Low(dest, n), Low(src, n), Size(n) / 2;
            (r < s + c <==> d + s + c >= Size(n)) &&
            ((d >= h) == (s >= h) != (r >= h) <==> !Fits(Signed(dest, n) + Signed(src, n) + c, n))
  {
    LowOfSum(dest, src, c, n);
    var v := Signed(dest, n) + Signed(src, n) + c;
    SignedWraps(dest, v, n);
    SignedWraps(src, v, n);
    SumTests(Low(dest, n), Low(src, n), Low(dest + src + c, n), c, Size(n) / 2);
  }

  lemma SubTests(src: int, dest: int, c: Bit, n: int)
    requires IsWidth(n)
    ensures var r, d, s, h := Low(dest - src - c, n), Low(dest, n), Low(src, n), Size(n) / 2;
            (r + c > d <==> d < s + c) &&
            (((d >= h) != (s >= h) && (r >= h) != (d >= h)) <==> !Fits(Signed(dest, n) - Signed(src, n) - c, n))
  {
    var v := Signed(dest, n) - Signed(src, n) - c;
    SignedWraps(dest, v, n);
    SignedWraps(src, v, n);
    LowOfDifference(dest, src, c, n);
    DifferenceTests(Low(dest, n), Low(src, n), Low(dest - src - c, n), c, Size(n) / 2);
  }

  // OF as the code sets it, on the sign bits of operands and result.
  function SumOF(res: int, src: int, dest: int, n: int): Bit
    requires IsWidth(n)
  {
    var h := Size(n) / 2;
    B((Low(dest, n) >= h) == (Low(src, n) >= h) != (Low(res, n) >= h))
  }

  function DifferenceOF(res: int, src: int, dest: int, n: int): Bit
    requires IsWidth(n)
  {
    var h := Size(n) / 2;
    B((Low(dest, n) >= h) != (Low(src, n) >= h) && (Low(res, n) >= h) != (Low(dest, n) >= h))
  }

  lemma SumFlags(f: Flags, src: int, dest: int, c: Bit, n: int, res: int)
    requires IsWidth(n) && res == (dest + src + c) % WORD
    requires f.CF == B(Low(dest, n) + Low(src, n) + c >= Size(n))
    ensures Judged(f, Low(res, n), n).(OF := SumOF(res, src, dest, n)) == AddFlags(src, dest, c, n)
  {
    LowOfWord(dest + src + c, n);
    AddTests(src, dest, c, n);
    JudgedThenOF(f, AddResult(src, dest, c, n), SumOF(res, src, dest, n), n);
  }

  lemma DifferenceFlags(f: Flags, src: int, dest: int, c: Bit, n: int, res: int)
    requires IsWidth(n) && res == (dest - src - c) % WORD
    requires f.CF == B(Low(dest, n) < Low(src, n) + c)
    ensures Judged(f, Low(res, n), n).(OF := DifferenceOF(res, src, dest, n)) == SubFlags(src, dest, c, n)
  {
    LowOfWord(dest - src - c, n);
    SubTests(src, dest, c, n);
    JudgedThenOF(f, SubResult(src, dest, c, n), DifferenceOF(res, src, dest, n), n);
  }

  function TopBit(x: int, n: int): (b: Bit)
    requires IsWidth(n)
    ensures b == B(Low(x, n) >= Size(n) / 2)
  {
    if n == 8 then Low(x, n) / 0x80 % 2 else if n == 16 then Low(x, n) / 0x8000 % 2 else Low(x, n) / 0x8000_0000 % 2
  }

  class Cpu {
    var eflags: Flags

    method SetPF(res: int)
      requires IsWord(res)
      modifies this
      ensures eflags == old(eflags).(PF := B(Ones(res, 8) % 2 == 0))
    {
      var ans := 0;
      for i := 0 to 8
        invariant ans + Ones(Shr(res, i), 8 - i) == Ones(res, 8)
      {
        if Shr(res, i) % 2 == 1 {
          ans := ans + 1;
        }
      }
      eflags := eflags.(PF := if ans % 2 == 0 then 1 else 0);
    }

    method SetZF(res: int, n: int)
      requires IsWord(res) && IsWidth(n)
      modifies this
      ensures eflags == old(eflags).(ZF := B(Low(res, n) == 0))
    {
      eflags := eflags.(ZF := B(Low(res, n) == 0));
    }

    method SetSF(res: int, n: int)
      requires IsWord(res) && IsWidth(n)
      modifies this
      ensures eflags == old(eflags).(SF := B(Low(res, n) >= Size(n) / 2))
    {
      eflags := eflags.(SF := TopBit(res, n));
    }

    // The three flags every operation judges its result by.
    method SetPZS(res: int, n: int)
      requires IsWord(res) && IsWidth(n)
      modifies this
      ensures eflags == Judged(old(eflags), Low(res, n), n)
    {
      ParityOfLow(res, n);
      SetPF(res);
      SetZF(res, n);
      SetSF(res, n);
    }

    method SetCFAdd(res: int, src: int, n: int)
      requires IsWord(res) && IsWord(src) && IsWidth(n)
      modifies this
      ensures eflags == old(eflags).(CF := B(Low(res, n) < Low(src, n)))
    {
      SignExtOrder(res, src, n);
      eflags := eflags.(CF := B(SignExt(res, n) < SignExt(src, n)));
    }

    method SetCFAdc(res: int, src: int, n: int)
      requires IsWord(res) && IsWord(src) && IsWidth(n)
      modifies this
      ensures eflags == old(eflags).(CF := B(Low(res, n) < Low(src, n) + old(eflags.CF)))
    {
      SignExtOrder(res, src, n);
      var r, s := SignExt(res, n), SignExt(src, n);
      if (eflags.CF == 1 && r <= s) || (eflags.CF == 0 && r < s) {
        eflags := eflags.(CF := 1);
      } else {
        eflags := eflags.(CF := 0);
      }
    }

    method SetOFAdd(res: int, src: int, dest: int, n: int)
      requires IsWord(res) && IsWord(src) && IsWord(dest) && IsWidth(n)
      modifies this
      ensures eflags == old(eflags).(OF := SumOF(res, src, dest, n))
    {
      SignExtOrder(res, src, n);
      SignExtOrder(dest, src, n);
      if Sign(SignExt(dest, n)) == Sign(SignExt(src, n)) {
        if Sign(SignExt(src, n)) == Sign(SignExt(res, n)) {
          eflags := eflags.(OF := 0);
        } else {
          eflags := eflags.(OF := 1);
        }
      } else {
        eflags := eflags.(OF := 0);
      }
    }

    // The flag setters of alu_add and alu_adc, given the carry that came in.
    method JudgeSum(res: int, src: int, dest: int, ghost c: Bit, n: int)
      requires IsWord(src) && IsWord(dest) && IsWidth(n) && res == (dest + src + c) % WORD
      requires eflags.CF == B(Low(dest, n) + Low(src, n) + c >= Size(n))
      modifies this
      ensures eflags == AddFlags(src, dest, c, n)
    {
      SumFlags(eflags, src, dest, c, n, res);
      SetPZS(res, n);
      SetOFAdd(res, src, dest, n);
    }

    method AluAdd(src: int, dest: int, n: int) returns (r: int)
      requires IsWord(src) && IsWord(dest) && IsWidth(n)
      modifies this
      ensures r == AddResult(src, dest, 0, n) && eflags == AddFlags(src, dest, 0, n)
    {
      var res := Add32(dest, src);
      LowOfWord(dest + src, n);
      AddTests(src, dest, 0, n);
      SetCFAdd(res, src, n);
      JudgeSum(res, src, dest, 0, n);
      r := Low(res, n);
    }

    method AluAdc(src: int, dest: int, n: int) returns (r: int)
      requires IsWord(src) && IsWord(dest) && IsWidth(n)
      modifies this
      ensures r == AddResult(src, dest, old(eflags.CF), n) && eflags == AddFlags(src, dest, old(eflags.CF), n)
    {
      ghost var c := eflags.CF;
      var res := Add32(src + dest, eflags.CF);
      LowOfWord(dest + src + c, n);
      AddTests(src, dest, c, n);
      SetCFAdc(res, src, n);
      JudgeSum(res, src, dest, c, n);
      r := Low(res, n);
    }

    method SetCFSub(res: int, dest: int, n: int)
      requires IsWord(res) && IsWord(dest) && IsWidth(n)
      modifies this
      ensures eflags == old(eflags).(CF := B(Low(res, n) > Low(dest, n)))
    {
      SignExtOrder(dest, res, n);
      eflags := eflags.(CF := B(SignExt(res, n) > SignExt(dest, n)));
    }

    method SetCFSbb(res: int, dest: int, n: int)
      requires IsWord(res) && IsWord(dest) && IsWidth(n)
      modifies this
      ensures eflags == old(eflags).(CF := B(Low(res, n) + old(eflags.CF) > Low(dest, n)))
    {
      if eflags.CF == 0 {
        SetCFSub(res, dest, n);
      } else {
        SignExtOrder(res, dest, n);
        eflags := eflags.(CF := B(SignExt(res, n) >= SignExt(dest, n)));
      }
    }

    method SetOFSub(res: int, src: int, dest: int, n: int)
      requires IsWord(res) && IsWord(src) && IsWord(dest) && IsWidth(n)
      modifies this
      ensures eflags == old(eflags).(OF := DifferenceOF(res, src, dest, n))
    {
      SignExtOrder(res, src, n);
      SignExtOrder(dest, src, n);
      if Sign(SignExt(dest, n)) != Sign(SignExt(src, n)) {
        if Sign(SignExt(res, n)) != Sign(SignExt(dest, n)) {
          eflags := eflags.(OF := 1);
        } else {
          eflags := eflags.(OF := 0);
        }
      } else {
        eflags := eflags.(OF := 0);
      }
    }

    method JudgeDifference(res: int, src: int, dest: int, ghost c: Bit, n: int)
      requires IsWord(src) && IsWord(dest) && IsWidth(n) && res == (dest - src - c) % WORD
      requires eflags.CF == B(Low(dest, n) < Low(src, n) + c)
      modifies this
      ensures eflags == SubFlags(src, dest, c, n)
    {
      DifferenceFlags(eflags, src, dest, c, n, res);
      SetPZS(res, n);
      SetOFSub(res, src, dest, n);
    }

    method AluSub(src: int, dest: int, n: int) returns (r: int)
      requires IsWord(src) && IsWord(dest) && IsWidth(n)
      modifies this
      ensures r == SubResult(src, dest, 0, n) && eflags == SubFlags(src, dest, 0, n)
    {
      var res := Sub32(dest, src);
      LowOfWord(dest - src, n);
      SubTests(src, dest, 0, n);
      SetCFSub(res, dest, n);
      JudgeDifference(res, src, dest, 0, n);
      r := Low(res, n);
    }

    method AluSbb(src: int, dest: int, n: int) returns (r: int)
      requires IsWord(src) && IsWord(dest) && IsWidth(n)
      modifies this
      ensures r == SubResult(src, dest, old(eflags.CF), n) && eflags == SubFlags(src, dest, old(eflags.CF), n)
    {
      ghost var c := eflags.CF;
      var res := Sub32(dest, Add32(src, eflags.CF));
      SubOfSum(dest, src + c);
      LowOfWord(dest - src - c, n);
      SubTests(src, dest, c, n);
      SetCFSbb(res, dest, n);
      JudgeDifference(res, src, dest, c, n);
      r := Low(res, n);
    }

    // alu_mul; CF and OF say whether the upper half is needed.
    method AluMul(src0: int, dest0: int, n: int) returns (res: int)
      requires IsWord(src0) && IsWord(dest0) && IsWidth(n)
      modifies this
      ensures res == Low(dest0, n) * Low(src0, n)
      ensures var b := B(res >= Size(n)); eflags == old(eflags).(CF := b, OF := b)
    {
      var src, dest := Low(src0, n), Low(dest0, n);
      ProductFits(src, dest, n);
      res := LowDouble(dest * src, n);
      if High(res, n) == 0 {
        eflags := eflags.(CF := 0);
        eflags := eflags.(OF := 0);
      } else {
        eflags := eflags.(CF := 1);
        eflags := eflags.(OF := 1);
      }
    }

    // The order in which the shifts judge their result.
    method SetSPZ(res: int, n: int)
      requires IsWidth(n) && 0 <= res < Size(n)
      modifies this
      ensures eflags == Judged(old(eflags), res, n)
    {
      LowIs(res, 0, res, n);
      SetSF(res, n);
      SetPF(res);
      SetZF(res, n);
    }

    // A count of 0 clears CF; at width 32 it would shift by 32, which C does not define.
    method AluShl(src0: int, dest0: int, n: int) returns (res: int)
      requires IsWord(src0) && IsWord(dest0) && IsWidth(n)
      requires 0 <= Low(src0, n) <= n && Low(src0, n) < 32 && n - Low(src0, n) < 32
      modifies this
      ensures var s := ShlBy(Low(dest0, n), Low(src0, n), n);
              res == s.value && eflags == Judged(old(eflags).(CF := s.carry), res, n)
      ensures eflags.CF == Shr(Low(dest0, n), n - Low(src0, n)) % 2
    {
      var src, dest := Low(src0, n), Low(dest0, n);
      ShlValue(dest, src, n);
      ShlCarry(dest, src, n);
      eflags := eflags.(CF := Shr(dest, n - src) % 2);
      res := Low(Shl32(dest, src), n);
      SetSPZ(res, n);
    }

    method AluShr(src0: int, dest0: int, n: int) returns (res: int)
      requires IsWord(src0) && IsWord(dest0) && IsWidth(n)
      requires 1 <= Low(src0, n) < 32
      modifies this
      ensures var s := ShrBy(Low(dest0, n), Low(src0, n), n);
              res == s.value && eflags == Judged(old(eflags).(CF := s.carry), res, n)
      ensures eflags.CF == Shr(Low(dest0, n), Low(src0, n) - 1) % 2
    {
      var src, dest := Low(src0, n), Low(dest0, n);
      ShrCarry(dest, src, n);
      eflags := eflags.(CF := Shr(dest, src - 1) % 2);
      res := Shr(dest, src);
      SetSPZ(res, n);
    }

    method AluSar(src0: int, dest0: int, n: int) returns (res: int)
      requires IsWord(src0) && IsWord(dest0) && IsWidth(n)
      requires 1 <= Low(src0, n) <= n && Low(src0, n) < 32
      modifies this
      ensures var s := SarBy(Low(dest0, n), Low(src0, n), n);
              res == s.value && eflags == Judged(old(eflags).(CF := s.carry), res, n)
      ensures eflags.CF == Shr(Low(dest0, n), Low(src0, n) - 1) % 2
    {
      var src, dest := Low(src0, n), Low(dest0, n);
      SarCarry(dest, src, n);
      SarFormula(dest, src, n);
      TopBitShr(dest, n);
      eflags := eflags.(CF := Shr(dest, src - 1) % 2);
      var sign := Shr(dest, n - 1) % 2;
      var temp := Shl32(Shr(WORD - 1, n - src), n - src);
      if sign == 1 {
        res := BitOr(Shr(dest, src), temp);
      } else {
        res := Shr(dest, src);
      }
      res := Low(res, n);
      SetSPZ(res, n);
    }
  }

  // ----- shifts, one bit at a time -----

  datatype Shifted = Shifted(value: int, carry: Bit)

  function Shl1(x: int, n: int): Shifted
    requires IsWidth(n) && 0 <= x < Size(n)
  {
    Shifted(if x >= Size(n) / 2 then 2 * x - Size(n) else 2 * x, B(x >= Size(n) / 2))
  }

  function Shr1(x: int): Shifted
    requires x >= 0
  {
    Shifted(x / 2, x % 2)
  }

  function Sar1(x: int, n: int): Shifted
    requires IsWidth(n) && 0 <= x < Size(n)
  {
    Shifted(x / 2 + if x >= Size(n) / 2 then Size(n) / 2 else 0, x % 2)
  }

  // k successive one-bit shifts; the carry is the last bit shifted out.
  function ShlBy(x: int, k: nat, n: int): (s: Shifted)
    requires IsWidth(n) && 0 <= x < Size(n)
    ensures 0 <= s.value < Size(n)
  {
    if k == 0 then Shifted(x, 0) else Shl1(ShlBy(x, k - 1, n).value, n)
  }

  function ShrBy(x: int, k: nat, n: int): (s: Shifted)
    requires IsWidth(n) && 0 <= x < Size(n)
    ensures 0 <= s.value < Size(n) && s.value == Shr(x, k)
  {
    if k == 0 then Shifted(x, 0) else Shr1(ShrBy(x, k - 1, n).value)
  }

  function SarBy(x: int, k: nat, n: int): (s: Shifted)
    requires IsWidth(n) && 0 <= x < Size(n)
    ensures 0 <= s.value < Size(n)
  {
    if k == 0 then Shifted(x, 0) else Sar1(SarBy(x, k - 1, n).value, n)
  }

  // ----- C shifts of words -----

  function Shl32(x: int, k: nat): int { if k == 0 then x else 2 * Shl32(x, k - 1) % WORD }

  // Bitwise or of two nonnegative numbers.
  function BitOr(x: nat, y: nat): nat {
    if x == 0 && y == 0 then 0
    else (if x % 2 == 1 || y % 2 == 1 then 1 else 0) + 2 * BitOr(x / 2, y / 2)
  }

  // Numbers without common bits add up.
  lemma {:induction false} BitOrDisjoint(x: nat, h: nat, j: nat)
    requires Shr(x, j) == 0
    ensures BitOr(x, Doubled(h, j)) == x + Doubled(h, j)
    decreases j
  {
    if j == 0 {
      BitOrZero(h);
    } else {
      ShrCommutes(x, j - 1);
      BitOrDisjoint(x / 2, h, j - 1);
      assert (2 * Doubled(h, j - 1)) / 2 == Doubled(h, j - 1);
    }
  }

  lemma {:induction false} BitOrZero(h: nat)
    ensures BitOr(0, h) == h
  {
    if h > 0 { BitOrZero(h / 2); }
  }

  lemma {:induction false} ShrCommutes(x: int, k: nat)
    ensures Shr(x, k + 1) == Shr(x / 2, k)
  {
    if k > 0 { ShrCommutes(x, k - 1); }
  }

  // ----- facts about right shifts -----

  lemma {:induction false} DoubledSum(m: int, m': int, k: nat)
    ensures Doubled(m + m', k) == Doubled(m, k) + Doubled(m', k)
  {
    if k > 0 { DoubledSum(m, m', k - 1); }
  }

  // Shr is floor division by 2^k, for negative numbers too.
  lemma {:induction false} ShrIsFloor(x: int, k: nat)
    ensures Doubled(Shr(x, k), k) <= x < Doubled(Shr(x, k), k) + Doubled(1, k)
  {
    if k > 0 {
      ShrIsFloor(x, k - 1);
      var y, z := Shr(x, k - 1), Shr(x, k);
      DoubledTwice(z, k - 1);
      if y == 2 * z + 1 { DoubledSum(2 * z, 1, k - 1); }
    }
  }

  lemma {:induction false} DoubledTwice(m: int, k: nat)
    ensures Doubled(2 * m, k) == 2 * Doubled(m, k)
  {
    if k > 0 { DoubledTwice(m, k - 1); }
  }

  lemma {:induction false} ShrSmall(x: int, k: nat)
    requires 0 <= x < Doubled(1, k)
    ensures Shr(x, k) == 0
  {
    if k > 0 {
      ShrCommutes(x, k - 1);
      ShrSmall(x / 2, k - 1);
    }
  }

  lemma {:induction false} ShrShr(x: int, j: nat, k: nat)
    ensures Shr(Shr(x, j), k) == Shr(x, j + k)
  {
    if k > 0 { ShrShr(x, j, k - 1); }
  }

  // Subtracting a high power of two leaves the lower bits alone.
  lemma {:induction false} ShrOfDifference(x: int, t: nat, k: nat)
    requires k <= t
    ensures Shr(x - Doubled(1, t), k) == Shr(x, k) - Doubled(1, t - k)
  {
    if k > 0 { ShrOfDifference(x, t, k - 1); }
  }

  lemma SizeIsDoubled(n: int)
    requires IsWidth(n)
    ensures Doubled(1, n) == Size(n) && Doubled(1, n - 1) == Size(n) / 2
  {
    assert Doubled(1, 7) == 0x80;
    assert Doubled(1, 8) == 0x100;
    assert Doubled(1, 15) == 0x8000;
    assert Doubled(1, 16) == 0x1_0000;
    assert Doubled(1, 23) == 0x80_0000;
    assert Doubled(1, 31) == 0x8000_0000;
  }

  // ----- the closed forms the code computes -----

  lemma {:induction false} ShlValue(x: int, k: nat, n: int)
    requires IsWidth(n) && 0 <= x < Size(n)
    ensures Low(Shl32(x, k), n) == ShlBy(x, k, n).value
  {
    if k > 0 {
      ShlValue(x, k - 1, n);
      var y := Shl32(x, k - 1);
      LowOfWord(2 * y, n);
      LowOfSum(y, y, 0, n);
    } else {
      LowIs(x, 0, x, n);
    }
  }

  // Taking away a power of two leaves the bits below it.
  lemma BitsBelow(v: int, t: nat, i: nat)
    requires i < t
    ensures Shr(v - Doubled(1, t), i) % 2 == Shr(v, i) % 2
  {
    ShrOfDifference(v, t, i);
  }

  lemma Shl1Bits(y: int, i: nat, n: int)
    requires IsWidth(n) && 0 <= y < Size(n) && 1 <= i < n
    ensures Shr(Shl1(y, n).value, i) % 2 == Shr(y, i - 1) % 2
  {
    ShrCommutes(Shl1(y, n).value, i - 1);
    if y >= Size(n) / 2 {
      SizeIsDoubled(n);
      BitsBelow(y, n - 1, i - 1);
      assert Shl1(y, n).value / 2 == y - Doubled(1, n - 1);
    } else {
      assert Shl1(y, n).value / 2 == y;
    }
  }

  // Bit i of the shifted value is bit i - j of the original.
  lemma {:induction false} ShlBits(x: int, j: nat, i: nat, n: int)
    requires IsWidth(n) && 0 <= x < Size(n) && j <= i < n
    ensures Shr(ShlBy(x, j, n).value, i) % 2 == Shr(x, i - j) % 2
    decreases j
  {
    if j > 0 {
      Shl1Bits(ShlBy(x, j - 1, n).value, i, n);
      ShlBits(x, j - 1, i - 1, n);
    }
  }

  lemma TopBitShr(v: int, n: int)
    requires IsWidth(n) && 0 <= v < Size(n)
    ensures Shr(v, n - 1) % 2 == B(v >= Size(n) / 2)
  {
    SizeIsDoubled(n);
    if v >= Size(n) / 2 {
      ShrOfDifference(v, n - 1, n - 1);
      ShrSmall(v - Doubled(1, n - 1), n - 1);
    } else {
      ShrSmall(v, n - 1);
    }
  }

  lemma ShlCarry(x: int, k: nat, n: int)
    requires IsWidth(n) && 0 <= x < Size(n) && k <= n
    ensures ShlBy(x, k, n).carry == Shr(x, n - k) % 2
  {
    if k > 0 {
      ShlBits(x, k - 1, n - 1, n);
      TopBitShr(ShlBy(x, k - 1, n).value, n);
    } else {
      SizeIsDoubled(n);
      ShrSmall(x, n);
    }
  }

  lemma ShrCarry(x: int, k: nat, n: int)
    requires IsWidth(n) && 0 <= x < Size(n) && k >= 1
    ensures ShrBy(x, k, n).value == Shr(x, k) && ShrBy(x, k, n).carry == Shr(x, k - 1) % 2
  {
    assert ShrBy(x, k - 1, n).value == Shr(x, k - 1);
  }

  // A negative value shifted right arithmetically: k ones come in from above.
  lemma {:induction false} SarValue(x: int, k: nat, n: int)
    requires IsWidth(n) && 0 <= x < Size(n) && k <= n
    ensures SarBy(x, k, n).value == if x >= Size(n) / 2 then Shr(x, k) + Size(n) - Doubled(1, n - k) else Shr(x, k)
    ensures SarBy(x, k, n).value >= Size(n) / 2 <==> x >= Size(n) / 2
  {
    SizeIsDoubled(n);
    if k > 0 {
      SarValue(x, k - 1, n);
      assert Doubled(1, n - k + 1) == 2 * Doubled(1, n - k);
    }
  }

  // 0xFFFFFFFF shifted right and back left.
  lemma {:induction false} OnesShifted(a: nat, j: nat)
    ensures Shr(Doubled(1, a + j) - 1, j) == Doubled(1, a) - 1
    decreases j
  {
    if j > 0 {
      OnesShifted(a + 1, j - 1);
    }
  }

  lemma {:induction false} DoubledAdds(m: int, a: nat, j: nat)
    ensures Doubled(Doubled(m, a), j) == Doubled(m, a + j)
  {
    if j > 0 { DoubledAdds(m, a, j - 1); }
  }

  lemma {:induction false} Shl32NoWrap(x: int, j: nat)
    requires 0 <= x && Doubled(x, j) < WORD
    ensures Shl32(x, j) == Doubled(x, j)
  {
    if j > 0 { Shl32NoWrap(x, j - 1); }
  }

  lemma HighOnes(j: nat)
    requires j <= 31
    ensures Shl32(Shr(WORD - 1, j), j) == WORD - Doubled(1, j) == Doubled(Doubled(1, 32 - j) - 1, j)
    ensures Doubled(1, 32 - j) >= 1
  {
    SizeIsDoubled(32);
    OnesShifted(32 - j, j);
    DoubledSum(Doubled(1, 32 - j), -1, j);
    DoubledSum(1, -1, j);
    DoubledZero(j);
    DoubledAdds(1, 32 - j, j);
    DoubledPositive(32 - j);
    DoubledPositive(j);
    Shl32NoWrap(Shr(WORD - 1, j), j);
  }

  lemma NothingAbove(x: int, k: nat, n: int)
    requires IsWidth(n) && 0 <= x < Size(n) && k <= n
    ensures Shr(x, k) >= 0 && Shr(Shr(x, k), n - k) == 0
  {
    assert Shr(x, k) == ShrBy(x, k, n).value;
    SizeIsDoubled(n);
    ShrShr(x, k, n - k);
    ShrSmall(x, n);
  }

  // The ones that come in do not meet the bits that stay.
  lemma OnesIn(x: int, k: nat, n: int)
    requires IsWidth(n) && 0 <= x < Size(n) && 1 <= k <= n && k < 32
    ensures var temp := Shl32(Shr(WORD - 1, n - k), n - k);
            Shr(x, k) >= 0 && temp >= 0 && BitOr(Shr(x, k), temp) == Shr(x, k) + WORD - Doubled(1, n - k)
  {
    NothingAbove(x, k, n);
    HighOnes(n - k);
    BitOrDisjoint(Shr(x, k), Doubled(1, 32 - (n - k)) - 1, n - k);
  }

  lemma SarFormula(x: int, k: nat, n: int)
    requires IsWidth(n) && 0 <= x < Size(n) && 1 <= k <= n && k < 32
    ensures var temp := Shl32(Shr(WORD - 1, n - k), n - k);
            Shr(x, k) >= 0 && temp >= 0 &&
            Low(if x >= Size(n) / 2 then BitOr(Shr(x, k), temp) else Shr(x, k), n) == SarBy(x, k, n).value
  {
    var y, z, d := Shr(x, k), SarBy(x, k, n).value, Doubled(1, n - k);
    SarValue(x, k, n);
    OnesIn(x, k, n);
    if x >= Size(n) / 2 {
      LowIs(y + WORD - d, if n == 8 then 0xFF_FFFF else if n == 16 then 0xFFFF else 0, z, n);
    } else {
      LowIs(y, 0, z, n);
    }
  }

  lemma {:induction false} SarBits(x: int, k: nat, i: nat, n: int)
    requires IsWidth(n) && 0 <= x < Size(n) && i + k < n
    ensures Shr(SarBy(x, k, n).value, i) % 2 == Shr(x, i + k) % 2
    decreases k
  {
    if k > 0 {
      var y := SarBy(x, k - 1, n).value;
      Sar1Bits(y, i, n);
      SarBits(x, k - 1, i + 1, n);
    }
  }

  lemma Sar1Bits(y: int, i: nat, n: int)
    requires IsWidth(n) && 0 <= y < Size(n) && i + 1 < n
    ensures Shr(Sar1(y, n).value, i) % 2 == Shr(y, i + 1) % 2
  {
    ShrCommutes(y, i);
    if y >= Size(n) / 2 {
      SizeIsDoubled(n);
      BitsBelow(Sar1(y, n).value, n - 1, i);
      assert Sar1(y, n).value - Doubled(1, n - 1) == y / 2;
    } else {
      assert Sar1(y, n).value == y / 2;
    }
  }

  lemma SarCarry(x: int, k: nat, n: int)
    requires IsWidth(n) && 0 <= x < Size(n) && 1 <= k <= n
    ensures SarBy(x, k, n).carry == Shr(x, k - 1) % 2
  {
    SarBits(x, k - 1, 0, n);
  }

  lemma {:induction false} DoubledZero(j: nat)
    ensures Doubled(0, j) == 0
  {
    if j > 0 { DoubledZero(j - 1); }
  }

  lemma {:induction false} DoubledPositive(j: nat)
    ensures Doubled(1, j) >= 1
  {
    if j > 0 { DoubledPositive(j - 1); }
  }

  // The mask that keeps 2n bits, on a product of two n-bit numbers.
  function LowDouble(p: int, n: int): (r: int)
    requires IsWidth(n) && 0 <= p < Square(n)
    ensures r == p && (High(r, n) == 0 <==> r < Size(n))
  {
    if n == 8 then p % 0x1_0000 else if n == 16 then p % WORD else p % 0x1_0000_0000_0000_0000
  }

  // 2^(2n)
  function Square(n: int): int
    requires IsWidth(n)
  {
    if n == 8 then 0x1_0000 else if n == 16 then WORD else 0x1_0000_0000_0000_0000
  }

  lemma ProductFits(x: int, y: int, n: int)
    requires IsWidth(n) && 0 <= x < Size(n) && 0 <= y < Size(n)
    ensures 0 <= y * x < Square(n)
  {
    ProductGrows(y, Size(n), x);
  }
}
