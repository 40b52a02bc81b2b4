/** Physical memory, the two-level page walk and the linear accesses of nemu/src/memory/memory.c and
    nemu/src/memory/mmu/page.c.  None stands for a stop: an assertion on a present bit, or an access
    outside hw_mem. */
module Memory {
  import opened Common

  const MEM_SIZE := 128 * 1024 * 1024
  const PAGE_SIZE := 4096
  const FRAMES := 0x8000  // MEM_SIZE / PAGE_SIZE

  // cr0.pe && cr0.pg, and cr3.pdbr
  datatype Mmu = Mmu(paging: bool, pdbr: nat)

  predicate IsMem(m: seq<Byte>) { |m| == MEM_SIZE }

  // uint32_t addition of a small offset.
  function Wrap(a: int): int { if a < WORD then a else a - WORD }

  // 256^i
  function Place(i: nat): (p: int)
    requires i <= 4
    ensures p >= 1
  {
    if i == 0 then 1 else if i == 1 then 0x100 else if i == 2 then 0x1_0000 else if i == 3 then 0x100_0000 else WORD
  }

  // v * 256^k, a left shift by whole bytes.
  function Up(v: int, k: nat): int
    requires k <= 4
  {
    if k == 0 then v else if k == 1 then 0x100 * v else if k == 2 then 0x1_0000 * v
    else if k == 3 then 0x100_0000 * v else WORD * v
  }

  function ByteOf(x: int, i: nat): Byte {
    if i == 0 then x % 0x100 else if i == 1 then x / 0x100 % 0x100
    else if i == 2 then x / 0x1_0000 % 0x100 else if i == 3 then x / 0x100_0000 % 0x100 else 0
  }

  // The little-endian value of n bytes from p on.
  function Value(m: seq<Byte>, p: nat, n: nat): (v: int)
    requires n <= 4 && p + n <= |m|
    ensures 0 <= v < Place(n)
  {
    if n == 0 then 0 else Value(m, p, n - 1) + Up(m[p + n - 1], n - 1)
  }

  // A 32-bit word.
  function WordAt(m: seq<Byte>, p: nat): (w: int)
    requires p + 4 <= |m|
    ensures w == Value(m, p, 4) && 0 <= w < WORD
  {
    ValueFour(m, p);
    Up(m[p], 0) + Up(m[p + 1], 1) + Up(m[p + 2], 2) + Up(m[p + 3], 3)
  }

  lemma ValueFour(m: seq<Byte>, p: nat)
    requires p + 4 <= |m|
    ensures Value(m, p, 4) == Up(m[p], 0) + Up(m[p + 1], 1) + Up(m[p + 2], 2) + Up(m[p + 3], 3)
  {
    assert Value(m, p, 2) == Up(m[p], 0) + Up(m[p + 1], 1);
  }

  // The least significant byte comes first.
  lemma LittleEndian(m: seq<Byte>, p: nat)
    requires p + 4 <= |m|
    ensures var b0: int, b1: int, b2: int, b3: int := m[p], m[p + 1], m[p + 2], m[p + 3];
            Value(m, p, 1) == b0 && Value(m, p, 2) == b0 + 0x100 * b1 &&
            WordAt(m, p) == b0 + 0x100 * b1 + 0x1_0000 * b2 + 0x100_0000 * b3
    ensures ByteOf(0x1234_5678, 0) == 0x78 && ByteOf(0x1234_5678, 1) == 0x56
    ensures ByteOf(0x1234_5678, 2) == 0x34 && ByteOf(0x1234_5678, 3) == 0x12
  {
    assert Value(m, p, 1) == Value(m, p, 0) + m[p];
  }

  // ----- the page walk (section 4.3 of the Intel SDM, Volume 3A) -----

  function Present(entry: int): bool { entry % 2 == 1 }

  // The entry's page_frame field.
  function FrameIn(entry: int): int { entry / PAGE_SIZE }

  // Entry k of the table in frame f.
  function Entry(m: seq<Byte>, f: nat, k: nat): Option<int>
    requires IsMem(m) && k < 1024
  {
    if f < FRAMES then Some(WordAt(m, PAGE_SIZE * f + 4 * k)) else None
  }

  // What follows an entry: the frame it points to.
  function Follow(entry: Option<int>): Option<int> {
    if entry.Some? && Present(entry.value) then Some(FrameIn(entry.value)) else None
  }

  // The frame of linear page n.
  function Walk(m: seq<Byte>, mmu: Mmu, n: nat): Option<int>
    requires IsMem(m) && n < 0x10_0000
  {
    if !mmu.paging then Some(n)
    else
      var table := Follow(Entry(m, mmu.pdbr, n / 1024));
      if table.Some? && table.value >= 0 then Follow(Entry(m, table.value, n % 1024)) else None
  }

  // The physical address of a linear one.
  function Phys(m: seq<Byte>, mmu: Mmu, a: nat): (p: Option<int>)
    requires IsMem(m) && IsWord(a)
    ensures p.Some? ==> 0 <= p.value < MEM_SIZE
  {
    var f := Walk(m, mmu, a / PAGE_SIZE);
    if f.Some? && 0 <= f.value < FRAMES then Some(PAGE_SIZE * f.value + a % PAGE_SIZE) else None
  }

  // ----- the reference: every byte translated on its own -----

  function At(m: seq<Byte>, mmu: Mmu, a: nat): Option<int>
    requires IsMem(m) && IsWord(a)
  {
    var p := Phys(m, mmu, a);
    if p.Some? then Some(m[p.value]) else None
  }

  // The four bytes from a on, wrapping at 2^32.
  function LinearBytes(m: seq<Byte>, mmu: Mmu, a: nat): seq<Option<int>>
    requires IsMem(m) && IsWord(a)
  {
    seq(4, i requires 0 <= i < 4 => At(m, mmu, Wrap(a + i)))
  }

  // The little-endian value of the first n bytes, if all are there.
  function Spell(bs: seq<Option<int>>, n: nat): Option<int>
    requires n <= |bs| == 4
  {
    if n == 0 then Some(0) else Append(Spell(bs, n - 1), bs[n - 1], n - 1)
  }

  function Append(low: Option<int>, high: Option<int>, k: nat): Option<int>
    requires k <= 4
  {
    if low.Some? && high.Some? then Some(low.value + Up(high.value, k)) else None
  }

  function Spelled(m: seq<Byte>, mmu: Mmu, a: nat, n: nat): Option<int>
    requires IsMem(m) && IsWord(a) && n <= 4
  {
    Spell(LinearBytes(m, mmu, a), n)
  }

  // Within a page the translations are consecutive.
  lemma PhysNext(m: seq<Byte>, mmu: Mmu, a: nat, i: nat)
    requires IsMem(m) && IsWord(a) && a % PAGE_SIZE + i < PAGE_SIZE
    ensures Wrap(a + i) == a + i
    ensures var p, q := Phys(m, mmu, a), Phys(m, mmu, a + i);
            p.Some? == q.Some? && (p.Some? ==> q.value == p.value + i && p.value % PAGE_SIZE == a % PAGE_SIZE)
  {
    assert (a + i) / PAGE_SIZE == a / PAGE_SIZE;
  }

  lemma SpelledOnPage(m: seq<Byte>, mmu: Mmu, a: nat, n: nat)
    requires IsMem(m) && IsWord(a) && 1 <= n <= 4 && a % PAGE_SIZE + n <= PAGE_SIZE
    ensures var p := Phys(m, mmu, a);
            (p.Some? ==> p.value + n <= MEM_SIZE) &&
            Spelled(m, mmu, a, n) == if p.Some? then Some(Value(m, p.value, n)) else None
  {
    var p, bs := Phys(m, mmu, a), LinearBytes(m, mmu, a);
    ByteOnPage(m, mmu, a, n - 1);
    forall i | 0 <= i < n ensures RunByte(m, p, bs, i) {
      ByteOnPage(m, mmu, a, i);
    }
    SpellRun(m, p, bs, n);
  }

  // Byte i of a run at p, or of one that is not there.
  predicate RunByte(m: seq<Byte>, p: Option<int>, bs: seq<Option<int>>, i: nat)
    requires i < |bs| && (p.Some? ==> 0 <= p.value && p.value + i < |m|)
  {
    bs[i] == if p.Some? then Some(m[p.value + i]) else None
  }

  lemma SpellRun(m: seq<Byte>, p: Option<int>, bs: seq<Option<int>>, n: nat)
    requires 1 <= n <= |bs| == 4 && (p.Some? ==> 0 <= p.value && p.value + n <= |m|)
    requires forall i :: 0 <= i < n ==> RunByte(m, p, bs, i)
    ensures Spell(bs, n) == if p.Some? then Some(Value(m, p.value, n)) else None
  {
    if p.Some? {
      forall i | 0 <= i < n ensures bs[i] == Some(m[p.value + i]) {
        assert RunByte(m, p, bs, i);
      }
      SpellValue(m, p.value, bs, n);
    } else {
      assert RunByte(m, p, bs, 0);
      SpellNone(bs, n);
    }
  }

  lemma ByteOnPage(m: seq<Byte>, mmu: Mmu, a: nat, i: nat)
    requires IsMem(m) && IsWord(a) && a % PAGE_SIZE + i < PAGE_SIZE
    ensures var p := Phys(m, mmu, a);
            (p.Some? ==> p.value + i < MEM_SIZE) &&
            At(m, mmu, Wrap(a + i)) == if p.Some? then Some(m[p.value + i]) else None
  {
    PhysNext(m, mmu, a, i);
  }

  lemma {:induction false} SpellValue(m: seq<Byte>, p: nat, bs: seq<Option<int>>, n: nat)
    requires p + n <= |m| && n <= |bs| == 4
    requires forall i :: 0 <= i < n ==> bs[i] == Some(m[p + i])
    ensures Spell(bs, n) == Some(Value(m, p, n))
  {
    if n > 0 { SpellValue(m, p, bs, n - 1); }
  }

  lemma {:induction false} SpellNone(bs: seq<Option<int>>, n: nat)
    requires 1 <= n <= |bs| == 4 && bs[0] == None
    ensures Spell(bs, n) == None
  {
    if n > 1 { SpellNone(bs, n - 1); }
  }

  lemma {:induction false} SpellSplit(bs: seq<Option<int>>, cs: seq<Option<int>>, k: nat, n: nat)
    requires k + n <= |bs| == |cs| == 4
    requires forall i :: 0 <= i < n ==> cs[i] == bs[k + i]
    ensures Spell(bs, k + n) == Append(Spell(bs, k), Spell(cs, n), k)
    decreases n
  {
    if n > 0 {
      SpellSplit(bs, cs, k, n - 1);
      assert cs[n - 1] == bs[k + n - 1];
    }
  }

  lemma SpelledSplit(m: seq<Byte>, mmu: Mmu, a: nat, k: nat, n: nat)
    requires IsMem(m) && IsWord(a) && k + n <= 4
    ensures Spelled(m, mmu, a, k + n) == Append(Spelled(m, mmu, a, k), Spelled(m, mmu, Wrap(a + k), n), k)
  {
    var bs, cs := LinearBytes(m, mmu, a), LinearBytes(m, mmu, Wrap(a + k));
    forall i | 0 <= i < n ensures cs[i] == bs[k + i] {
      assert Wrap(Wrap(a + k) + i) == Wrap(a + (k + i));
    }
    SpellSplit(bs, cs, k, n);
  }

  // ----- writes -----

  function Stored(m: seq<Byte>, p: nat, n: nat, data: int): (r: seq<Byte>)
    requires p + n <= |m| && n <= 4
    ensures |r| == |m|
  {
    seq(|m|, i requires 0 <= i < |m| => StoredAt(m, p, n, data, i))
  }

  function StoredAt(m: seq<Byte>, p: nat, n: nat, data: int, i: nat): Byte
    requires i < |m|
  {
    if p <= i < p + n then ByteOf(data, i - p) else m[i]
  }

  predicate Crosses(a: int, len: int) { a / PAGE_SIZE != Wrap(a + len - 1) / PAGE_SIZE }

  // The start of the page after a.
  function NextPage(a: int): int { (a / PAGE_SIZE + 1) * PAGE_SIZE % WORD }

  // The bytes before the page boundary.
  function FirstPart(a: int): int { (NextPage(a) - a) % WORD }

  lemma CrossingParts(a: nat, len: nat)
    requires IsWord(a) && 1 <= len <= 4
    ensures Crosses(a, len) <==> a % PAGE_SIZE + len > PAGE_SIZE
    ensures Crosses(a, len) ==> 1 <= FirstPart(a) == PAGE_SIZE - a % PAGE_SIZE < len
    ensures Crosses(a, len) ==> NextPage(a) == Wrap(a + FirstPart(a)) && NextPage(a) % PAGE_SIZE == 0
  {
    var q, r := a / PAGE_SIZE, a % PAGE_SIZE;
    assert a == PAGE_SIZE * q + r && q < 0x10_0000;
    if q == 0xF_FFFF { assert NextPage(a) == 0; } else { assert NextPage(a) == PAGE_SIZE * (q + 1); }
    if r + len <= PAGE_SIZE { assert (a + len - 1) / PAGE_SIZE == q; }
  }

  lemma SpelledAcross(m: seq<Byte>, mmu: Mmu, a: nat, c: nat, k: nat, n: nat)
    requires IsMem(m) && IsWord(a) && 1 <= k && 1 <= n && k + n <= 4
    requires a % PAGE_SIZE + k == PAGE_SIZE && c == Wrap(a + k) && IsWord(c) && c % PAGE_SIZE == 0
    ensures var p, q := Phys(m, mmu, a), Phys(m, mmu, c);
            (p.Some? ==> p.value + k <= MEM_SIZE) && (q.Some? ==> q.value + n <= MEM_SIZE) &&
            Spelled(m, mmu, a, k + n) ==
              Append(if p.Some? then Some(Value(m, p.value, k)) else None,
                     if q.Some? then Some(Value(m, q.value, n)) else None, k)
  {
    SpelledSplit(m, mmu, a, k, n);
    SpelledOnPage(m, mmu, a, k);
    SpelledOnPage(m, mmu, c, n);
  }

  // What laddr_read has to return: the bytes before the boundary, then those after it.
  lemma SpelledCrossing(m: seq<Byte>, mmu: Mmu, a: nat, len: nat)
    requires IsMem(m) && IsWord(a) && 1 <= len <= 4 && Crosses(a, len)
    ensures 1 <= FirstPart(a) < len && IsWord(NextPage(a))
    ensures var k := FirstPart(a); var p, q := Phys(m, mmu, a), Phys(m, mmu, NextPage(a));
            (p.Some? ==> p.value + k <= MEM_SIZE) && (q.Some? ==> q.value + len - k <= MEM_SIZE) &&
            Spelled(m, mmu, a, len) ==
              if p.Some? && q.Some? then Some(Value(m, p.value, k) + Up(Value(m, q.value, len - k), k)) else None
  {
    CrossingParts(a, len);
    var k := FirstPart(a);
    SpelledAcross(m, mmu, a, NextPage(a), k, len - k);
  }

  // Shifting the upper part into place and adding the lower one does not wrap.
  lemma PartsFit(low: int, high: int, k: nat, n: nat)
    requires 1 <= k && 1 <= n && k + n <= 4 && 0 <= low < Place(k) && 0 <= high < Place(n)
    ensures 0 <= low + Up(high, k) < Place(k + n) && Up(high, k) % WORD == Up(high, k)
    ensures (Up(high, k) % WORD + low) % WORD == low + Up(high, k)
  {
  }

  // Without paging an access is outside hw_mem exactly if one of its bytes is.
  lemma SpelledFlat(m: seq<Byte>, mmu: Mmu, a: nat, len: nat)
    requires IsMem(m) && IsWord(a) && 1 <= len <= 4 && !mmu.paging
    ensures Spelled(m, mmu, a, len) == if a + len <= MEM_SIZE then Some(Value(m, a, len)) else None
  {
    var bs := LinearBytes(m, mmu, a);
    forall i | 0 <= i < 4 && a + i < MEM_SIZE ensures bs[i] == Some(m[a + i]) {
      assert Wrap(a + i) == a + i;
      FlatByte(m, mmu, a + i);
    }
    if a + len <= MEM_SIZE {
      SpellValue(m, a, bs, len);
    } else {
      var i := if a < MEM_SIZE then MEM_SIZE - a else 0;
      assert Wrap(a + i) == a + i;
      FlatByte(m, mmu, a + i);
      assert bs[i] == None;
      SpellHole(bs, len, i);
    }
  }

  lemma FlatByte(m: seq<Byte>, mmu: Mmu, a: nat)
    requires IsMem(m) && IsWord(a) && !mmu.paging
    ensures At(m, mmu, a) == if a < MEM_SIZE then Some(m[a]) else None
  {
  }

  lemma {:induction false} SpellHole(bs: seq<Option<int>>, n: nat, i: nat)
    requires i < n <= |bs| == 4 && bs[i] == None
    ensures Spell(bs, n) == None
  {
    if i < n - 1 { SpellHole(bs, n - 1, i); }
  }

  // data >> (32 - 8 * k), and data & (0xffffffff >> (32 - 8 * k))
  function ShiftedDown(data: int, k: nat): int
    requires 1 <= k <= 3
  {
    if k == 1 then data / 0x100_0000 else if k == 2 then data / 0x1_0000 else data / 0x100
  }

  function Masked(data: int, k: nat): int
    requires 1 <= k <= 3
  {
    if k == 1 then data % 0x100 else if k == 2 then data % 0x1_0000 else data % 0x100_0000
  }

  // One access that stays inside hw_mem, or none at all.
  function StoredIf(m: seq<Byte>, p: Option<int>, n: nat, data: int): Option<seq<Byte>>
    requires n <= 4
  {
    if p.Some? && 0 <= p.value && p.value + n <= |m| then Some(Stored(m, p.value, n, data)) else None
  }

  // laddr_write as the code has it: the second page is translated after the first part is stored.
  function Written(m: seq<Byte>, mmu: Mmu, a: nat, len: nat, data: int): Option<seq<Byte>>
    requires IsMem(m) && IsWord(a) && 1 <= len <= 4
  {
    if !mmu.paging then StoredIf(m, Some(a), len, data)
    else if !Crosses(a, len) then StoredIf(m, Phys(m, mmu, a), len, data)
    else
      CrossingParts(a, len);
      WrittenAcross(m, mmu, a, NextPage(a), FirstPart(a), len - FirstPart(a), data)
  }

  // k bytes at a, then n bytes on the page that starts at c.
  function WrittenAcross(m: seq<Byte>, mmu: Mmu, a: nat, c: nat, k: nat, n: nat, data: int): Option<seq<Byte>>
    requires IsMem(m) && IsWord(a) && IsWord(c) && 1 <= k <= 3 && n <= 3
  {
    var first := StoredIf(m, Phys(m, mmu, a), k, Masked(data, k));
    if first.Some? then StoredIf(first.value, Phys(first.value, mmu, c), n, ShiftedDown(data, k)) else None
  }

  class Machine {
    const hwMem: array<Byte>
    var mmu: Mmu

    ghost predicate Valid()
      reads this
    {
      hwMem.Length == MEM_SIZE
    }

    method HwRead(paddr: nat, len: nat) returns (ret: int)
      requires Valid() && len <= 4 && paddr + len <= MEM_SIZE
      ensures ret == Value(hwMem[..], paddr, len)
    {
      ret := 0;
      ghost var m := hwMem[..];
      for i := 0 to len
        invariant ret == Value(m, paddr, i)
      {
        assert m[paddr + i] == hwMem[paddr + i];
        ret := ret + Up(hwMem[paddr + i], i);
      }
    }

    method HwWrite(paddr: nat, len: nat, data: int)
      requires Valid() && len <= 4 && paddr + len <= MEM_SIZE
      modifies hwMem
      ensures hwMem[..] == Stored(old(hwMem[..]), paddr, len, data)
    {
      ghost var m := hwMem[..];
      for i := 0 to len
        invariant forall j :: 0 <= j < hwMem.Length ==> hwMem[j] == StoredAt(m, paddr, i, data, j)
      {
        hwMem[paddr + i] := ByteOf(data, i);
      }
    }

    // page_translate, on the bytes of hw_mem.
    method PageTranslate(laddr: nat) returns (paddr: Option<int>)
      requires Valid() && IsWord(laddr) && mmu.paging
      ensures paddr == Phys(hwMem[..], mmu, laddr)
    {
      ghost var m := hwMem[..];
      var dir, page, offset := laddr / 0x40_0000 % 0x400, laddr / 0x1000 % 0x400, laddr % 0x1000;
      IndicesAgree(laddr);
      if mmu.pdbr >= FRAMES { return None; }
      var pde := HwRead(PAGE_SIZE * mmu.pdbr + 4 * dir, 4);
      assert Entry(m, mmu.pdbr, dir) == Some(pde);
      if !Present(pde) || FrameIn(pde) >= FRAMES { return None; }
      var pte := HwRead(PAGE_SIZE * FrameIn(pde) + 4 * page, 4);
      assert Entry(m, FrameIn(pde), page) == Some(pte);
      if !Present(pte) || FrameIn(pte) >= FRAMES { return None; }
      paddr := Some(PAGE_SIZE * FrameIn(pte) + offset);
    }

    method PaddrRead(paddr: nat, len: nat) returns (r: Option<int>)
      requires Valid() && len <= 4
      ensures r == if paddr + len <= MEM_SIZE then Some(Value(hwMem[..], paddr, len)) else None
    {
      if paddr + len > MEM_SIZE { return None; }
      var v := HwRead(paddr, len);
      r := Some(v);
    }

    // Whatever the page boundaries and translations, the value of the bytes translated one by one.
    method LaddrRead(laddr: nat, len: nat) returns (r: Option<int>)
      requires Valid() && IsWord(laddr) && (len == 1 || len == 2 || len == 4)
      ensures r == Spelled(hwMem[..], mmu, laddr, len)
    {
      ghost var m := hwMem[..];
      var paddr := Some(laddr);
      if mmu.paging {
        CrossingParts(laddr, len);
        if laddr / PAGE_SIZE != Wrap(laddr + len - 1) / PAGE_SIZE {
          r := ReadAcross(laddr, len);
          return;
        }
        SpelledOnPage(m, mmu, laddr, len);
        paddr := PageTranslate(laddr);
      } else {
        SpelledFlat(m, mmu, laddr, len);
      }
      if paddr.None? { return None; }
      r := PaddrRead(paddr.value, len);
    }

    method ReadAcross(laddr: nat, len: nat) returns (r: Option<int>)
      requires Valid() && IsWord(laddr) && 1 <= len <= 4 && Crosses(laddr, len) && mmu.paging
      ensures r == Spelled(hwMem[..], mmu, laddr, len)
    {
      SpelledCrossing(hwMem[..], mmu, laddr, len);
      var len1 := FirstPart(laddr);
      var p := PageTranslate(laddr);
      if p.None? { return None; }
      var low := HwRead(p.value, len1);
      var q := PageTranslate(NextPage(laddr));
      if q.None? { return None; }
      var high := HwRead(q.value, len - len1);
      PartsFit(low, high, len1, len - len1);
      r := Some((Up(high, len1) % WORD + low) % WORD);
    }

    method PaddrWrite(paddr: nat, len: nat, data: int) returns (ok: bool)
      requires Valid() && len <= 4
      modifies hwMem
      ensures var r := StoredIf(old(hwMem[..]), Some(paddr), len, data);
              ok == r.Some? && hwMem[..] == if ok then r.value else old(hwMem[..])
    {
      if paddr + len > MEM_SIZE { return false; }
      HwWrite(paddr, len, data);
      ok := true;
    }

    method LaddrWrite(laddr: nat, len: nat, data: int) returns (ok: bool)
      requires Valid() && IsWord(laddr) && (len == 1 || len == 2 || len == 4)
      modifies hwMem
      ensures var r := Written(old(hwMem[..]), mmu, laddr, len, data);
              ok == r.Some? && (ok ==> hwMem[..] == r.value)
    {
      var paddr := Some(laddr);
      if mmu.paging {
        if laddr / PAGE_SIZE != Wrap(laddr + len - 1) / PAGE_SIZE {
          ok := WriteAcross(laddr, len, data);
          return;
        }
        paddr := PageTranslate(laddr);
      }
      if paddr.None? { return false; }
      ok := PaddrWrite(paddr.value, len, data);
    }

    method WriteAcross(laddr: nat, len: nat, data: int) returns (ok: bool)
      requires Valid() && IsWord(laddr) && 1 <= len <= 4 && Crosses(laddr, len) && mmu.paging
      modifies hwMem
      ensures var r := Written(old(hwMem[..]), mmu, laddr, len, data);
              ok == r.Some? && (ok ==> hwMem[..] == r.value)
    {
      CrossingParts(laddr, len);
      var len1 := FirstPart(laddr);
      var low, high := Masked(data, len1), ShiftedDown(data, len1);
      var p := PageTranslate(laddr);
      if p.None? { return false; }
      ok := PaddrWrite(p.value, len1, low);
      if !ok { return; }
      var q := PageTranslate(NextPage(laddr));
      if q.None? { return false; }
      ok := PaddrWrite(q.value, len - len1, high);
    }
  }

  lemma IndicesAgree(a: nat)
    requires IsWord(a)
    ensures a / 0x40_0000 % 0x400 == a / PAGE_SIZE / 1024 && a / 0x1000 % 0x400 == a / PAGE_SIZE % 1024
  {
  }
}
