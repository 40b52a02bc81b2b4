/** When a linear write can be read back. */
module MemoryTheorems {
  import opened Common
  import opened Memory

  // The low n bytes of a word.
  function LowBytes(d: int, n: nat): int
    requires n <= 4
  {
    if n == 0 then 0 else LowBytes(d, n - 1) + Up(ByteOf(d, n - 1), n - 1)
  }

  lemma {:induction false} ValueStored(m: seq<Byte>, p: nat, n: nat, d: int, i: nat)
    requires i <= n <= 4 && p + n <= |m|
    ensures Value(Stored(m, p, n, d), p, i) == LowBytes(d, i)
  {
    if i > 0 { ValueStored(m, p, n, d, i - 1); }
  }

  // A store elsewhere changes nothing.
  lemma {:induction false} ValueKept(m: seq<Byte>, p: nat, n: nat, d: int, q: nat, i: nat)
    requires i <= 4 && n <= 4 && p + n <= |m| && q + i <= |m| && (q + i <= p || p + n <= q)
    ensures Value(Stored(m, p, n, d), q, i) == Value(m, q, i)
  {
    if i > 0 { ValueKept(m, p, n, d, q, i - 1); }
  }

  // The store to [p, p + n) misses the two entries that translate linear page l.
  predicate Misses(m: seq<Byte>, mmu: Mmu, l: nat, p: nat, n: nat)
    requires IsMem(m) && l < 0x10_0000
  {
    mmu.paging ==>
      Apart(PAGE_SIZE * mmu.pdbr + 4 * (l / 1024), p, n) &&
      var table := Follow(Entry(m, mmu.pdbr, l / 1024));
      (table.Some? && table.value >= 0 ==> Apart(PAGE_SIZE * table.value + 4 * (l % 1024), p, n))
  }

  predicate Apart(word: int, p: nat, n: nat) { word + 4 <= p || p + n <= word }

  lemma EntryKept(m: seq<Byte>, f: nat, k: nat, p: nat, n: nat, d: int)
    requires IsMem(m) && k < 1024 && n <= 4 && p + n <= |m| && Apart(PAGE_SIZE * f + 4 * k, p, n)
    ensures Entry(Stored(m, p, n, d), f, k) == Entry(m, f, k)
  {
    if f < FRAMES { ValueKept(m, p, n, d, PAGE_SIZE * f + 4 * k, 4); }
  }

  lemma PhysKept(m: seq<Byte>, mmu: Mmu, a: nat, p: nat, n: nat, d: int)
    requires IsMem(m) && IsWord(a) && n <= 4 && p + n <= |m| && Misses(m, mmu, a / PAGE_SIZE, p, n)
    ensures Phys(Stored(m, p, n, d), mmu, a) == Phys(m, mmu, a)
  {
    var l := a / PAGE_SIZE;
    if mmu.paging {
      EntryKept(m, mmu.pdbr, l / 1024, p, n, d);
      var table := Follow(Entry(m, mmu.pdbr, l / 1024));
      if table.Some? && table.value >= 0 { EntryKept(m, table.value, l % 1024, p, n, d); }
    }
  }

  // The store of the first (or only) part.
  lemma OnePageReadBack(m: seq<Byte>, mmu: Mmu, a: nat, len: nat, data: int)
    requires IsMem(m) && IsWord(a) && 1 <= len <= 4
    requires mmu.paging ==> !Crosses(a, len)
    requires Written(m, mmu, a, len, data).Some?
    requires var p := Phys(m, mmu, a); p.Some? && Misses(m, mmu, a / PAGE_SIZE, p.value, len)
    ensures Spelled(Written(m, mmu, a, len, data).value, mmu, a, len) == Some(LowBytes(data, len))
  {
    var p, m' := Phys(m, mmu, a).value, Written(m, mmu, a, len, data).value;
    CrossingParts(a, len);
    assert m' == Stored(m, p, len, data);
    PhysKept(m, mmu, a, p, len, data);
    ValueStored(m, p, len, data, len);
    if mmu.paging { SpelledOnPage(m', mmu, a, len); } else { SpelledFlat(m', mmu, a, len); }
  }

  // The bytes the code stores after the boundary are the ones that belong there.
  predicate Faithful(data: int, len: nat, k: nat)
    requires 1 <= k <= 3
  {
    forall i :: k <= i < len ==> ByteOf(data, i + 4 - 2 * k) == ByteOf(data, i)
  }

  // Read back from both pages, the parts spell this.
  function CrossingResult(data: int, len: nat, k: nat): int
    requires 1 <= k < len <= 4
  {
    LowBytes(data, k) + Up(LowBytes(ShiftedDown(data, k), len - k), k)
  }

  // A number from its four digits.
  lemma FromBytes(d: int, b0: Byte, b1: Byte, b2: Byte, b3: Byte)
    requires d == b0 + 0x100 * b1 + 0x1_0000 * b2 + 0x100_0000 * b3
    ensures ByteOf(d, 0) == b0 && ByteOf(d, 1) == b1 && ByteOf(d, 2) == b2 && ByteOf(d, 3) == b3
  {
    assert d / 0x100 == b1 + 0x100 * b2 + 0x1_0000 * b3;
    assert d / 0x1_0000 == b2 + 0x100 * b3;
  }

  lemma ToBytes(d: int) returns (b0: Byte, b1: Byte, b2: Byte, b3: Byte)
    requires IsWord(d)
    ensures d == b0 + 0x100 * b1 + 0x1_0000 * b2 + 0x100_0000 * b3
  {
    var q1 := d / 0x100;
    var q2 := q1 / 0x100;
    b0, b1, b2, b3 := d % 0x100, q1 % 0x100, q2 % 0x100, q2 / 0x100;
  }

  lemma ShiftedBytes(d: int, k: nat, i: nat)
    requires IsWord(d) && 1 <= k <= 3 && i < 4
    ensures ByteOf(ShiftedDown(d, k), i) == ByteOf(d, i + 4 - k)
  {
  }

  lemma MaskedBytes(d: int, k: nat, i: nat)
    requires IsWord(d) && 1 <= k <= 3 && i < k
    ensures ByteOf(Masked(d, k), i) == ByteOf(d, i)
  {
    var b0, b1, b2, b3 := ToBytes(d);
    FromBytes(d, b0, b1, b2, b3);
    if k == 1 {
      FromBytes(Masked(d, k), b0, 0, 0, 0);
    } else if k == 2 {
      FromBytes(Masked(d, k), b0, b1, 0, 0);
    } else {
      FromBytes(Masked(d, k), b0, b1, b2, 0);
    }
  }

  lemma {:induction false} MaskedLow(d: int, k: nat, i: nat)
    requires IsWord(d) && 1 <= k <= 3 && i <= k
    ensures LowBytes(Masked(d, k), i) == LowBytes(d, i)
  {
    if i > 0 {
      MaskedBytes(d, k, i - 1);
      MaskedLow(d, k, i - 1);
    }
  }

  // The upper part as it is stored, and as it should be.
  function UpperStored(data: int, k: nat, n: nat): int
    requires 1 <= k <= 3 && n <= 3
  {
    LowBytes(ShiftedDown(data, k), n)
  }

  lemma UpperOne(data: int, k: nat)
    requires IsWord(data) && (k == 1 || k == 3)
    ensures UpperStored(data, k, 1) == ByteOf(data, 4 - k)
    ensures LowBytes(data, k + 1) == LowBytes(data, k) + Up(ByteOf(data, k), k)
  {
    ShiftedBytes(data, k, 0);
    assert LowBytes(ShiftedDown(data, k), 0) == 0;
  }

  lemma UpperTwo(data: int)
    requires IsWord(data)
    ensures UpperStored(data, 2, 2) == ByteOf(data, 2) + 0x100 * ByteOf(data, 3)
    ensures LowBytes(data, 4) == LowBytes(data, 2) + Up(ByteOf(data, 2) + 0x100 * ByteOf(data, 3), 2)
  {
    ShiftedBytes(data, 2, 0);
    ShiftedBytes(data, 2, 1);
    assert LowBytes(ShiftedDown(data, 2), 1) == ByteOf(data, 2);
    assert LowBytes(data, 3) == LowBytes(data, 2) + Up(ByteOf(data, 2), 2);
  }

  lemma UpperThree(data: int)
    requires IsWord(data)
    ensures UpperStored(data, 1, 3) == ByteOf(data, 3)
    ensures LowBytes(data, 4) ==
            LowBytes(data, 1) + Up(ByteOf(data, 1) + 0x100 * ByteOf(data, 2) + 0x1_0000 * ByteOf(data, 3), 1)
  {
    var s := ShiftedDown(data, 1);
    ShiftedBytes(data, 1, 0);
    ShiftedBytes(data, 1, 1);
    ShiftedBytes(data, 1, 2);
    assert LowBytes(s, 1) == ByteOf(data, 3);
    assert LowBytes(s, 2) == ByteOf(data, 3);
    assert LowBytes(data, 2) == LowBytes(data, 1) + Up(ByteOf(data, 1), 1);
    assert LowBytes(data, 3) == LowBytes(data, 2) + Up(ByteOf(data, 2), 2);
  }

  lemma FaithfulIff(data: int, len: nat, k: nat)
    requires IsWord(data) && (len == 2 || len == 4) && 1 <= k < len
    ensures CrossingResult(data, len, k) == LowBytes(data, len) <==> Faithful(data, len, k)
  {
    if len == k + 1 {
      UpperOne(data, k);
      assert Faithful(data, len, k) <==> ByteOf(data, 4 - k) == ByteOf(data, k);
    } else if k == 2 {
      UpperTwo(data);
      assert Faithful(data, len, k);
    } else {
      UpperThree(data);
      FaithfulLong(data);
    }
  }

  lemma FaithfulLong(data: int)
    ensures Faithful(data, 4, 1) <==> ByteOf(data, 1) == ByteOf(data, 3) && ByteOf(data, 2) == ByteOf(data, 3) == 0
  {
    assert Faithful(data, 4, 1) <==>
      ByteOf(data, 3) == ByteOf(data, 1) && ByteOf(data, 4) == ByteOf(data, 2) && ByteOf(data, 5) == ByteOf(data, 3);
  }

  // Only the even split of four bytes is right whatever the data.
  lemma FaithfulAlways(len: nat, k: nat)
    requires (len == 2 || len == 4) && 1 <= k < len
    ensures (forall data :: IsWord(data) ==> Faithful(data, len, k)) <==> len == 4 && k == 2
  {
    assert IsWord(0x100);
    if len != 4 || k != 2 {
      var i := if k == 3 then 3 else 1;
      assert ByteOf(0x100, i + 4 - 2 * k) != ByteOf(0x100, i);
      assert !Faithful(0x100, len, k);
    }
  }

  lemma TranslationsKept(m: seq<Byte>, mmu: Mmu, a: nat, c: nat, p: nat, k: nat, d: int, q: nat, n: nat, e: int)
    requires IsMem(m) && IsWord(a) && IsWord(c) && k <= 4 && n <= 4 && p + k <= |m| && q + n <= |m|
    requires Misses(m, mmu, a / PAGE_SIZE, p, k) && Misses(m, mmu, c / PAGE_SIZE, p, k)
    requires Misses(m, mmu, a / PAGE_SIZE, q, n) && Misses(m, mmu, c / PAGE_SIZE, q, n)
    ensures var m' := Stored(Stored(m, p, k, d), q, n, e);
            Phys(m', mmu, a) == Phys(m, mmu, a) && Phys(m', mmu, c) == Phys(m, mmu, c)
  {
    PhysKept(m, mmu, a, p, k, d);
    PhysKept(m, mmu, c, p, k, d);
    MissesKept(m, mmu, a / PAGE_SIZE, p, k, d, q, n);
    MissesKept(m, mmu, c / PAGE_SIZE, p, k, d, q, n);
    PhysKept(Stored(m, p, k, d), mmu, a, q, n, e);
    PhysKept(Stored(m, p, k, d), mmu, c, q, n, e);
  }

  lemma MissesKept(m: seq<Byte>, mmu: Mmu, l: nat, p: nat, k: nat, d: int, q: nat, n: nat)
    requires IsMem(m) && l < 0x10_0000 && k <= 4 && p + k <= |m| && Misses(m, mmu, l, p, k) && Misses(m, mmu, l, q, n)
    ensures Misses(Stored(m, p, k, d), mmu, l, q, n)
  {
    if mmu.paging { EntryKept(m, mmu.pdbr, l / 1024, p, k, d); }
  }

  // Neither part of the write disturbs the translations of the two pages.
  predicate PartsClear(m: seq<Byte>, mmu: Mmu, a: nat, c: nat, k: nat, n: nat)
    requires IsMem(m) && IsWord(a) && IsWord(c)
  {
    var p, q := Phys(m, mmu, a), Phys(m, mmu, c);
    p.Some? && q.Some? &&
    Misses(m, mmu, a / PAGE_SIZE, p.value, k) && Misses(m, mmu, c / PAGE_SIZE, p.value, k) &&
    Misses(m, mmu, a / PAGE_SIZE, q.value, n) && Misses(m, mmu, c / PAGE_SIZE, q.value, n)
  }

  lemma PartsApart(m: seq<Byte>, mmu: Mmu, a: nat, c: nat, k: nat, n: nat)
    requires IsMem(m) && IsWord(a) && IsWord(c) && 1 <= k && 1 <= n && k + n <= 4
    requires a % PAGE_SIZE + k == PAGE_SIZE && c % PAGE_SIZE == 0
    requires Phys(m, mmu, a).Some? && Phys(m, mmu, c).Some?
    ensures var p, q := Phys(m, mmu, a).value, Phys(m, mmu, c).value;
            p + k <= MEM_SIZE && q + n <= MEM_SIZE && (p + k <= q || q + n <= p)
  {
  }

  lemma AcrossStores(m: seq<Byte>, mmu: Mmu, a: nat, c: nat, k: nat, n: nat, data: int)
    requires IsMem(m) && IsWord(a) && IsWord(c) && 1 <= k && 1 <= n && k + n <= 4
    requires a % PAGE_SIZE + k == PAGE_SIZE && c % PAGE_SIZE == 0 && PartsClear(m, mmu, a, c, k, n)
    ensures var p, q := Phys(m, mmu, a).value, Phys(m, mmu, c).value;
            p + k <= |m| && q + n <= |m| &&
            WrittenAcross(m, mmu, a, c, k, n, data)
            == Some(Stored(Stored(m, p, k, Masked(data, k)), q, n, ShiftedDown(data, k)))
  {
    PartsApart(m, mmu, a, c, k, n);
    PhysKept(m, mmu, c, Phys(m, mmu, a).value, k, Masked(data, k));
  }

  // After both stores each part reads back as it was stored.
  lemma PartsReadBack(m: seq<Byte>, p: nat, k: nat, q: nat, n: nat, data: int)
    requires IsWord(data) && 1 <= k <= 3 && n <= 3 && p + k <= |m| && q + n <= |m| && (p + k <= q || q + n <= p)
    ensures var m' := Stored(Stored(m, p, k, Masked(data, k)), q, n, ShiftedDown(data, k));
            Value(m', p, k) == LowBytes(data, k) && Value(m', q, n) == UpperStored(data, k, n)
  {
    var first := Stored(m, p, k, Masked(data, k));
    ValueStored(m, p, k, Masked(data, k), k);
    ValueKept(first, q, n, ShiftedDown(data, k), p, k);
    ValueStored(first, q, n, ShiftedDown(data, k), n);
    MaskedLow(data, k, k);
  }

  lemma ReadParts(m: seq<Byte>, mmu: Mmu, a: nat, c: nat, k: nat, n: nat, p: nat, q: nat)
    requires IsMem(m) && IsWord(a) && 1 <= k && 1 <= n && k + n <= 4
    requires a % PAGE_SIZE + k == PAGE_SIZE && c == Wrap(a + k) && IsWord(c) && c % PAGE_SIZE == 0
    requires Phys(m, mmu, a) == Some(p) && Phys(m, mmu, c) == Some(q)
    ensures p + k <= |m| && q + n <= |m|
    ensures Spelled(m, mmu, a, k + n) == Some(Value(m, p, k) + Up(Value(m, q, n), k))
  {
    SpelledAcross(m, mmu, a, c, k, n);
  }

  // Both parts stored at p and q, and read back through the pages they went to.
  lemma StoredReadBack(m: seq<Byte>, mmu: Mmu, a: nat, c: nat, k: nat, n: nat, p: nat, q: nat, data: int)
    requires IsMem(m) && IsWord(a) && 1 <= k && 1 <= n && k + n <= 4 && IsWord(data)
    requires a % PAGE_SIZE + k == PAGE_SIZE && c == Wrap(a + k) && IsWord(c) && c % PAGE_SIZE == 0
    requires p + k <= |m| && q + n <= |m| && (p + k <= q || q + n <= p)
    requires var m' := Stored(Stored(m, p, k, Masked(data, k)), q, n, ShiftedDown(data, k));
             Phys(m', mmu, a) == Some(p) && Phys(m', mmu, c) == Some(q)
    ensures var m' := Stored(Stored(m, p, k, Masked(data, k)), q, n, ShiftedDown(data, k));
            Spelled(m', mmu, a, k + n) == Some(CrossingResult(data, k + n, k))
  {
    var m' := Stored(Stored(m, p, k, Masked(data, k)), q, n, ShiftedDown(data, k));
    ReadParts(m', mmu, a, c, k, n, p, q);
    PartsReadBack(m, p, k, q, n, data);
  }

  lemma AcrossReadBack(m: seq<Byte>, mmu: Mmu, a: nat, c: nat, k: nat, n: nat, data: int)
    requires IsMem(m) && IsWord(a) && 1 <= k && 1 <= n && k + n <= 4 && IsWord(data)
    requires a % PAGE_SIZE + k == PAGE_SIZE && c == Wrap(a + k) && IsWord(c) && c % PAGE_SIZE == 0
    requires PartsClear(m, mmu, a, c, k, n)
    ensures WrittenAcross(m, mmu, a, c, k, n, data).Some?
    ensures Spelled(WrittenAcross(m, mmu, a, c, k, n, data).value, mmu, a, k + n)
            == Some(CrossingResult(data, k + n, k))
  {
    var p, q := Phys(m, mmu, a).value, Phys(m, mmu, c).value;
    AcrossStores(m, mmu, a, c, k, n, data);
    PartsApart(m, mmu, a, c, k, n);
    TranslationsKept(m, mmu, a, c, p, k, Masked(data, k), q, n, ShiftedDown(data, k));
    StoredReadBack(m, mmu, a, c, k, n, p, q, data);
  }

  lemma AcrossFaithful(m: seq<Byte>, mmu: Mmu, a: nat, c: nat, k: nat, len: nat, data: int)
    requires IsMem(m) && IsWord(a) && 1 <= k < len && (len == 2 || len == 4) && IsWord(data)
    requires a % PAGE_SIZE + k == PAGE_SIZE && c == Wrap(a + k) && IsWord(c) && c % PAGE_SIZE == 0
    requires PartsClear(m, mmu, a, c, k, len - k)
    ensures WrittenAcross(m, mmu, a, c, k, len - k, data).Some?
    ensures Spelled(WrittenAcross(m, mmu, a, c, k, len - k, data).value, mmu, a, len) == Some(LowBytes(data, len))
            <==> Faithful(data, len, k)
  {
    AcrossReadBack(m, mmu, a, c, k, len - k, data);
    FaithfulIff(data, len, k);
  }

  lemma WrittenCrossing(m: seq<Byte>, mmu: Mmu, a: nat, len: nat, data: int, c: nat, k: nat)
    requires IsMem(m) && IsWord(a) && 1 <= len <= 4 && mmu.paging && Crosses(a, len)
    requires c == NextPage(a) && k == FirstPart(a) && 1 <= k < len && IsWord(c)
    ensures Written(m, mmu, a, len, data) == WrittenAcross(m, mmu, a, c, k, len - k, data)
  {
  }

  ghost predicate ReadsBack(m: seq<Byte>, mmu: Mmu, a: nat, len: nat, data: int)
    requires IsMem(m) && IsWord(a) && 1 <= len <= 4
  {
    var w := Written(m, mmu, a, len, data);
    w.Some? && Spelled(w.value, mmu, a, len) == Some(LowBytes(data, len))
  }

  // A write across a page boundary is read back if and only if the misplaced bytes happen to coincide;
  // c is where the second page starts, and k bytes lie before it.
  lemma CrossingReadBack(m: seq<Byte>, mmu: Mmu, a: nat, len: nat, data: int, c: nat, k: nat)
    requires IsMem(m) && IsWord(a) && (len == 2 || len == 4) && IsWord(data) && mmu.paging && Crosses(a, len)
    requires c == NextPage(a) && k == FirstPart(a) && 1 <= k < len && IsWord(c) && PartsClear(m, mmu, a, c, k, len - k)
    ensures Written(m, mmu, a, len, data).Some?
    ensures ReadsBack(m, mmu, a, len, data) <==> Faithful(data, len, k)
  {
    CrossingParts(a, len);
    WrittenCrossing(m, mmu, a, len, data, c, k);
    AcrossFaithful(m, mmu, a, c, k, len, data);
  }
}
