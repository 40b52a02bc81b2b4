/** The user directory (kernel/src/memory/mm.c) and the video mapping (kernel/src/memory/vmem.c).  The
    kernel stores to these tables at linear addresses below 128 MB or from 0xC0000000 on; KernelWindow says
    that both are the physical words meant here. */
module UserPages {
  import opened Common
  import opened Memory
  import opened MemoryTheorems
  import opened PageTables

  // ----- reading and writing through the kernel's map -----

  // The linear address of physical byte p in the low or the high window.
  function InWindow(p: nat, high: bool): nat { if high then KOFFSET + p else p }

  // Any access through either window, page crossings included, is an access to physical memory.
  lemma KernelWindow(m: seq<Byte>, l: Layout, p: nat, high: bool, len: nat)
    requires IsMem(m) && l.Valid() && KernelMapped(m, l) && 1 <= len <= 4 && p + len <= MEM_SIZE
    ensures Spelled(m, Mmu(true, l.kpdir), InWindow(p, high), len) == Some(Value(m, p, len))
  {
    var mmu, a := Mmu(true, l.kpdir), InWindow(p, high);
    var bs := LinearBytes(m, mmu, a);
    forall i | 0 <= i < len ensures RunByte(m, Some(p), bs, i) {
      WindowByte(m, l, p, high, i);
    }
    SpellRun(m, Some(p), bs, len);
  }

  lemma WindowByte(m: seq<Byte>, l: Layout, p: nat, high: bool, i: nat)
    requires IsMem(m) && l.Valid() && KernelMapped(m, l) && i < 4 && p + i < MEM_SIZE
    ensures RunByte(m, Some(p), LinearBytes(m, Mmu(true, l.kpdir), InWindow(p, high)), i)
  {
    KernelByte(m, l, InWindow(p, high) + i);
    assert Wrap(InWindow(p, high) + i) == InWindow(p, high) + i;
  }

  lemma KernelByte(m: seq<Byte>, l: Layout, a: nat)
    requires IsMem(m) && l.Valid() && KernelMapped(m, l)
    requires a < MEM_SIZE || KOFFSET <= a < KOFFSET + MEM_SIZE
    ensures var p := if a < MEM_SIZE then a else a - KOFFSET;
            Phys(m, Mmu(true, l.kpdir), a) == Some(p) && At(m, Mmu(true, l.kpdir), a) == Some(m[p])
  {
    KernelWalk(m, l, a / PAGE_SIZE);
  }

  // A word stored through either window is stored at its physical address.
  lemma KernelStore(m: seq<Byte>, l: Layout, p: nat, high: bool, data: int)
    requires IsMem(m) && l.Valid() && KernelMapped(m, l) && p % 4 == 0 && p + 4 <= MEM_SIZE
    ensures Written(m, Mmu(true, l.kpdir), InWindow(p, high), 4, data) == Some(Stored(m, p, 4, data))
  {
    KernelByte(m, l, InWindow(p, high));
    AlignedStays(p, high);
    WrittenInPage(m, Mmu(true, l.kpdir), InWindow(p, high), 4, data);
  }

  lemma AlignedStays(p: nat, high: bool)
    requires p % 4 == 0 && p + 4 <= MEM_SIZE
    ensures IsWord(InWindow(p, high)) && !Crosses(InWindow(p, high), 4)
  {
    assert InWindow(p, high) % PAGE_SIZE == p % PAGE_SIZE && p % PAGE_SIZE + 4 <= PAGE_SIZE;
    CrossingParts(InWindow(p, high), 4);
  }

  lemma WrittenInPage(m: seq<Byte>, mmu: Mmu, a: nat, len: nat, data: int)
    requires IsMem(m) && IsWord(a) && 1 <= len <= 4 && mmu.paging && !Crosses(a, len)
    ensures Written(m, mmu, a, len, data) == StoredIf(m, Phys(m, mmu, a), len, data)
  {
  }

  // Stores outside the kernel's tables leave its translations alone.
  lemma KernelMisses(m: seq<Byte>, l: Layout, n: nat, p: nat, len: nat, f: nat)
    requires IsMem(m) && l.Valid() && KernelMapped(m, l) && n < 0x10_0000
    requires PAGE_SIZE * f <= p && p + len <= PAGE_SIZE * (f + 1) && f != l.kpdir && !l.InKptable(f)
    ensures Misses(m, Mmu(true, l.kpdir), n, p, len)
  {
    var d, k := n / 1024, n % 1024;
    DirFollows(m, l, d);
    FramesApart(l.kpdir, d, p, len, f);
    if Block(d).Some? { FramesApart(l.kptable + Block(d).value, k, p, len, f); }
  }

  lemma FramesApart(g: nat, k: nat, p: nat, len: nat, f: nat)
    requires PAGE_SIZE * f <= p && p + len <= PAGE_SIZE * (f + 1) && f != g && k < 1024
    ensures Apart(PAGE_SIZE * g + 4 * k, p, len)
  {
  }

  // With the kernel's own map, a write at a that runs from an ordinary frame f into the next is read back if and
  // only if the misplaced bytes coincide ...
  lemma KernelCrossing(m: seq<Byte>, l: Layout, f: nat, high: bool, len: nat, k: nat, data: int, a: nat)
    requires IsMem(m) && l.Valid() && KernelMapped(m, l) && f + 1 < FRAMES && IsWord(data)
    requires f != l.kpdir && f + 1 != l.kpdir && !l.InKptable(f) && !l.InKptable(f + 1)
    requires (len == 2 || len == 4) && 1 <= k < len && a == InWindow(PAGE_SIZE * (f + 1) - k, high)
    ensures IsWord(a) && Written(m, Mmu(true, l.kpdir), a, len, data).Some?
    ensures ReadsBack(m, Mmu(true, l.kpdir), a, len, data) <==> Faithful(data, len, k)
  {
    var p, q := PAGE_SIZE * (f + 1) - k, PAGE_SIZE * (f + 1);
    KernelCrosses(m, l, p, q, f, high, len, k);
    CrossesReadBack(m, Mmu(true, l.kpdir), len, data, p, q, k, a, high);
  }

  lemma CrossesReadBack(m: seq<Byte>, mmu: Mmu, len: nat, data: int, p: nat, q: nat, k: nat, a: nat, high: bool)
    requires IsMem(m) && (len == 2 || len == 4) && IsWord(data) && mmu.paging && a == InWindow(p, high)
    requires 1 <= k < len && IsWord(a) && Crosses(a, len)
    requires InWindow(q, high) == NextPage(a) && k == FirstPart(a) && IsWord(InWindow(q, high))
    requires PartsClear(m, mmu, a, InWindow(q, high), k, len - k)
    ensures Written(m, mmu, a, len, data).Some?
    ensures ReadsBack(m, mmu, a, len, data) <==> Faithful(data, len, k)
  {
    CrossingReadBack(m, mmu, a, len, data, InWindow(q, high), k);
  }

  lemma KernelCrosses(m: seq<Byte>, l: Layout, p: nat, q: nat, f: nat, high: bool, len: nat, k: nat)
    requires IsMem(m) && l.Valid() && KernelMapped(m, l) && f + 1 < FRAMES && len <= 4
    requires f != l.kpdir && f + 1 != l.kpdir && !l.InKptable(f) && !l.InKptable(f + 1)
    requires q == PAGE_SIZE * (f + 1) && p == q - k && 1 <= k < len
    ensures var a, c := InWindow(p, high), InWindow(q, high);
            IsWord(a) && Crosses(a, len) && c == NextPage(a) && k == FirstPart(a) && IsWord(c) &&
            PartsClear(m, Mmu(true, l.kpdir), a, c, k, len - k)
  {
    WindowCrosses(p, q, k, len, high, f);
    KernelPartsClear(m, l, p, q, f, high, k, len - k);
  }

  lemma KernelPartsClear(m: seq<Byte>, l: Layout, p: nat, q: nat, f: nat, high: bool, k: nat, n: nat)
    requires IsMem(m) && l.Valid() && KernelMapped(m, l) && f + 1 < FRAMES && k <= 4 && n <= 4
    requires f != l.kpdir && f + 1 != l.kpdir && !l.InKptable(f) && !l.InKptable(f + 1)
    requires q == PAGE_SIZE * (f + 1) && p == q - k && 1 <= k
    ensures IsWord(InWindow(p, high)) && IsWord(InWindow(q, high))
    ensures PartsClear(m, Mmu(true, l.kpdir), InWindow(p, high), InWindow(q, high), k, n)
  {
    var a, c := InWindow(p, high), InWindow(q, high);
    KernelByte(m, l, a);
    KernelByte(m, l, c);
    KernelMisses(m, l, a / PAGE_SIZE, p, k, f);
    KernelMisses(m, l, c / PAGE_SIZE, p, k, f);
    KernelMisses(m, l, a / PAGE_SIZE, q, n, f + 1);
    KernelMisses(m, l, c / PAGE_SIZE, q, n, f + 1);
  }

  lemma WindowCrosses(p: nat, q: nat, k: nat, len: nat, high: bool, f: nat)
    requires q == PAGE_SIZE * (f + 1) && p == q - k && f + 1 < FRAMES && 1 <= k < len <= 4
    ensures var a, c := InWindow(p, high), InWindow(q, high);
            IsWord(a) && Crosses(a, len) && c == NextPage(a) && k == FirstPart(a) && IsWord(c)
  {
    CrossingParts(InWindow(p, high), len);
  }

  // ... which two bytes of 0x100 do not: they do not come back.
  lemma KernelCrossingFails(m: seq<Byte>, l: Layout, f: nat, high: bool, a: nat)
    requires IsMem(m) && l.Valid() && KernelMapped(m, l) && f + 1 < FRAMES
    requires f != l.kpdir && f + 1 != l.kpdir && !l.InKptable(f) && !l.InKptable(f + 1)
    requires a == InWindow(PAGE_SIZE * (f + 1) - 1, high)
    ensures IsWord(a) && Written(m, Mmu(true, l.kpdir), a, 2, 0x100).Some?
    ensures Spelled(Written(m, Mmu(true, l.kpdir), a, 2, 0x100).value, Mmu(true, l.kpdir), a, 2) != Some(0x100)
  {
    Misplaced();
    KernelCrossing(m, l, f, high, 2, 1, 0x100, a);
  }

  lemma Misplaced()
    ensures LowBytes(0x100, 2) == 0x100 && !Faithful(0x100, 2, 1)
  {
    assert LowBytes(0x100, 1) == 0;
    assert ByteOf(0x100, 1 + 4 - 2) != ByteOf(0x100, 1);
  }

  // ----- the user directory -----

  // Entry 0, the shared kernel half, and nothing else.
  function UserWord(kptable: nat, first: int, k: nat): int {
    if k == 0 then first
    else if KERNEL_PDE <= k < KERNEL_PDE + KERNEL_PDES then EntryFor(kptable + k - KERNEL_PDE)
    else 0
  }

  predicate UserDirIs(m: seq<Byte>, l: Layout, first: int)
    requires IsMem(m) && l.Valid()
  {
    forall k :: 0 <= k < NR_PDE ==> Slot(m, l.updir, k) == UserWord(l.kptable, first, k)
  }

  // Every frame but updir's and the video table's keeps its bytes.
  predicate KeepsOthers(m: seq<Byte>, m': seq<Byte>, f: nat)
    requires IsMem(m) && IsMem(m')
  {
    forall i :: 0 <= i < |m| && i / PAGE_SIZE != f ==> m'[i] == m[i]
  }

  lemma KeptWord(m: seq<Byte>, m': seq<Byte>, f: nat, g: nat, k: nat)
    requires IsMem(m) && IsMem(m') && KeepsOthers(m, m', f)
    requires PAGE_SIZE * g + 4 * k + 4 <= MEM_SIZE && g + k / 1024 != f
    ensures Slot(m', g, k) == Slot(m, g, k)
  {
    var p := PAGE_SIZE * g + 4 * k;
    forall i | p <= i < p + 4 ensures m'[i] == m[i] {
      assert i / PAGE_SIZE == g + k / 1024;
    }
    SameBytes(m, m', p, 4);
  }

  lemma KernelKept(m: seq<Byte>, m': seq<Byte>, l: Layout, f: nat)
    requires IsMem(m) && IsMem(m') && l.Valid() && KernelMapped(m, l) && KeepsOthers(m, m', f)
    requires f != l.kpdir && !l.InKptable(f)
    ensures KernelMapped(m', l)
  {
    forall k | 0 <= k < NR_PDE ensures Slot(m', l.kpdir, k) == DirWord(l.kptable, KERNEL_PDES, k) {
      KeptWord(m, m', f, l.kpdir, k);
    }
    forall k | 0 <= k < ALL_PTES ensures Slot(m', l.kptable, k) == EntryFor(k) {
      KeptWord(m, m', f, l.kptable, k);
    }
  }

  // memset, then memcpy of the 32 shared entries.
  function Initialised(m: seq<Byte>, l: Layout): (m': seq<Byte>)
    requires IsMem(m) && l.Valid()
    ensures IsMem(m')
  {
    Copied(Zeroed(m, PAGE_SIZE * l.updir, 4 * NR_PDE), PAGE_SIZE * l.updir + 4 * KERNEL_PDE,
           PAGE_SIZE * l.kpdir + 4 * KERNEL_PDE, 4 * KERNEL_PDES)
  }

  lemma SharedByte(m: seq<Byte>, l: Layout, p: nat, q: nat)
    requires IsMem(m) && l.Valid() && p - q == PAGE_SIZE * l.updir - PAGE_SIZE * l.kpdir
    requires 4 * KERNEL_PDE <= p - PAGE_SIZE * l.updir < 4 * (KERNEL_PDE + KERNEL_PDES)
    ensures p < |m| && q < |m| && Initialised(m, l)[p] == m[q]
  {
  }

  lemma SharedWord(m: seq<Byte>, l: Layout, k: nat)
    requires IsMem(m) && l.Valid() && DirIs(m, l, KERNEL_PDES) && KERNEL_PDE <= k < KERNEL_PDE + KERNEL_PDES
    ensures Slot(Initialised(m, l), l.updir, k) == EntryFor(l.kptable + k - KERNEL_PDE)
  {
    assert Slot(m, l.kpdir, k) == DirWord(l.kptable, KERNEL_PDES, k);
    CopiedSlot(m, l, k);
  }

  lemma CopiedSlot(m: seq<Byte>, l: Layout, k: nat)
    requires IsMem(m) && l.Valid() && KERNEL_PDE <= k < KERNEL_PDE + KERNEL_PDES
    ensures Slot(Initialised(m, l), l.updir, k) == Slot(m, l.kpdir, k)
  {
    var p, q := PAGE_SIZE * l.updir + 4 * k, PAGE_SIZE * l.kpdir + 4 * k;
    SharedByte(m, l, p, q);
    SharedByte(m, l, p + 1, q + 1);
    SharedByte(m, l, p + 2, q + 2);
    SharedByte(m, l, p + 3, q + 3);
    SameWord(Initialised(m, l), p, m, q);
  }

  lemma SameWord(m: seq<Byte>, p: nat, m': seq<Byte>, q: nat)
    requires p + 4 <= |m| && q + 4 <= |m'|
    requires m[p] == m'[q] && m[p + 1] == m'[q + 1] && m[p + 2] == m'[q + 2] && m[p + 3] == m'[q + 3]
    ensures WordAt(m, p) == WordAt(m', q)
  {
  }

  lemma UnsharedWord(m: seq<Byte>, l: Layout, k: nat)
    requires IsMem(m) && l.Valid() && k < NR_PDE && !(KERNEL_PDE <= k < KERNEL_PDE + KERNEL_PDES)
    ensures Slot(Initialised(m, l), l.updir, k) == 0
  {
  }

  lemma InitialisedDir(m: seq<Byte>, m': seq<Byte>, l: Layout)
    requires IsMem(m) && l.Valid() && KernelMapped(m, l) && m' == Initialised(m, l)
    ensures UserDirIs(m', l, 0) && KernelMapped(m', l)
    ensures KeepsOthers(m, m', l.updir)
  {
    forall k | 0 <= k < NR_PDE ensures Slot(m', l.updir, k) == UserWord(l.kptable, 0, k) {
      if KERNEL_PDE <= k < KERNEL_PDE + KERNEL_PDES { SharedWord(m, l, k); } else { UnsharedWord(m, l, k); }
    }
    InitialisedKeeps(m, l);
    KernelKept(m, m', l, l.updir);
  }

  lemma InitialisedKeeps(m: seq<Byte>, l: Layout)
    requires IsMem(m) && l.Valid()
    ensures KeepsOthers(m, Initialised(m, l), l.updir)
  {
  }

  method FillUserDirectory(cpu: Machine, l: Layout)
    requires cpu.Valid() && l.Valid()
    modifies cpu.hwMem
    ensures cpu.hwMem[..] == Initialised(old(cpu.hwMem[..]), l)
  {
    Memset0(cpu, PAGE_SIZE * l.updir, 4 * NR_PDE);
    Memcpy(cpu, PAGE_SIZE * l.updir + 4 * KERNEL_PDE, PAGE_SIZE * l.kpdir + 4 * KERNEL_PDE, 4 * KERNEL_PDES);
  }

  // init_mm
  method InitMm(cpu: Machine, l: Layout) returns (ucr3: nat)
    requires cpu.Valid() && l.Valid() && KernelMapped(cpu.hwMem[..], l)
    modifies cpu.hwMem
    ensures UserDirIs(cpu.hwMem[..], l, 0) && KernelMapped(cpu.hwMem[..], l)
    ensures KeepsOthers(old(cpu.hwMem[..]), cpu.hwMem[..], l.updir)
    ensures ucr3 == PAGE_SIZE * l.updir
  {
    ghost var m := cpu.hwMem[..];
    FillUserDirectory(cpu, l);
    InitialisedDir(m, cpu.hwMem[..], l);
    AlignedLowBits(l.updir);
    ucr3 := DropLowBits(PAGE_SIZE * l.updir);
  }

  // addr & ~0x3ff
  function DropLowBits(addr: nat): nat { addr / 0x400 * 0x400 }

  lemma AlignedLowBits(f: nat)
    ensures DropLowBits(PAGE_SIZE * f) == PAGE_SIZE * f
  {
    assert PAGE_SIZE * f == 0x400 * (4 * f);
  }

  // ----- the video mapping -----

  // The table after entries 0xa0 .. n-1 are made; it is zero when the kernel is loaded.
  function VideoWord(n: nat, k: nat): int { if VMEM_FIRST <= k < n then EntryFor(k) else 0 }

  predicate VideoTableIs(m: seq<Byte>, l: Layout, n: nat)
    requires IsMem(m) && l.Valid()
  {
    forall k :: 0 <= k < NR_PTE ==> Slot(m, l.ptable, k) == VideoWord(n, k)
  }

  predicate VideoBuilt(m: seq<Byte>, l: Layout, n: nat)
    requires IsMem(m) && l.Valid()
  {
    UserDirIs(m, l, EntryFor(l.ptable)) && KernelMapped(m, l) && VideoTableIs(m, l, n)
  }

  lemma StoreKeepsOthers(m: seq<Byte>, f: nat, k: nat, v: int)
    requires IsMem(m) && f < FRAMES && k < 1024
    ensures PAGE_SIZE * f + 4 * k + 4 <= MEM_SIZE && KeepsOthers(m, SetSlot(m, f, k, v), f)
  {
  }

  lemma SetFirst(m: seq<Byte>, l: Layout)
    requires IsMem(m) && l.Valid() && UserDirIs(m, l, 0) && KernelMapped(m, l) && VideoTableIs(m, l, VMEM_FIRST)
    ensures VideoBuilt(SetSlot(m, l.updir, 0, EntryFor(l.ptable)), l, VMEM_FIRST)
  {
    var v := EntryFor(l.ptable);
    var m' := SetSlot(m, l.updir, 0, v);
    StoreKeepsOthers(m, l.updir, 0, v);
    KernelKept(m, m', l, l.updir);
    forall k | 0 <= k < NR_PDE ensures Slot(m', l.updir, k) == UserWord(l.kptable, v, k) {
      SlotAfter(m, l.updir, 0, v, l.updir, k);
      assert Slot(m, l.updir, k) == UserWord(l.kptable, 0, k);
    }
    forall k | 0 <= k < NR_PTE ensures Slot(m', l.ptable, k) == VideoWord(VMEM_FIRST, k) {
      KeptWord(m, m', l.updir, l.ptable, k);
    }
  }

  lemma SetVideo(m: seq<Byte>, l: Layout, n: nat)
    requires IsMem(m) && l.Valid() && VideoBuilt(m, l, n) && VMEM_FIRST <= n <= VMEM_LAST
    ensures VideoBuilt(SetSlot(m, l.ptable, n, EntryFor(n)), l, n + 1)
  {
    var v := EntryFor(n);
    var m' := SetSlot(m, l.ptable, n, v);
    StoreKeepsOthers(m, l.ptable, n, v);
    KernelKept(m, m', l, l.ptable);
    forall k | 0 <= k < NR_PDE ensures Slot(m', l.updir, k) == UserWord(l.kptable, EntryFor(l.ptable), k) {
      KeptWord(m, m', l.ptable, l.updir, k);
    }
    forall k | 0 <= k < NR_PTE ensures Slot(m', l.ptable, k) == VideoWord(n + 1, k) {
      SlotAfter(m, l.ptable, n, v, l.ptable, k);
      assert Slot(m, l.ptable, k) == VideoWord(n, k);
    }
  }

  // Every frame but two keeps its bytes.
  predicate KeepsBoth(m: seq<Byte>, m': seq<Byte>, f: nat, g: nat)
    requires IsMem(m) && IsMem(m')
  {
    forall i :: 0 <= i < |m| && i / PAGE_SIZE != f && i / PAGE_SIZE != g ==> m'[i] == m[i]
  }

  // The body of its loop.
  method StoreVideo(cpu: Machine, l: Layout, i: nat, pageTable: nat, ghost m0: seq<Byte>)
    requires cpu.Valid() && l.Valid() && VMEM_FIRST <= i <= VMEM_LAST && pageTable == PAGE_SIZE * l.ptable + 4 * i
    requires VideoBuilt(cpu.hwMem[..], l, i) && IsMem(m0) && KeepsBoth(m0, cpu.hwMem[..], l.updir, l.ptable)
    modifies cpu.hwMem
    ensures VideoBuilt(cpu.hwMem[..], l, i + 1) && KeepsBoth(m0, cpu.hwMem[..], l.updir, l.ptable)
  {
    SetVideo(cpu.hwMem[..], l, i);
    StoreKeepsOthers(cpu.hwMem[..], l.ptable, i, EntryFor(i));
    StoreEntry(cpu, pageTable, i * 0x1000, l.ptable, i, i);
  }

  // create_video_mapping, after init_mm
  method CreateVideoMapping(cpu: Machine, l: Layout)
    requires cpu.Valid() && l.Valid() && UserDirIs(cpu.hwMem[..], l, 0) && KernelMapped(cpu.hwMem[..], l)
    requires VideoTableIs(cpu.hwMem[..], l, VMEM_FIRST)
    modifies cpu.hwMem
    ensures VideoBuilt(cpu.hwMem[..], l, 0xb0)
    ensures KeepsBoth(old(cpu.hwMem[..]), cpu.hwMem[..], l.updir, l.ptable)
  {
    ghost var m0 := cpu.hwMem[..];
    var pageTable := PAGE_SIZE * l.ptable;
    SetFirst(m0, l);
    StoreKeepsOthers(m0, l.updir, 0, EntryFor(l.ptable));
    StoreEntry(cpu, PAGE_SIZE * l.updir, pageTable, l.updir, 0, l.ptable);
    pageTable := pageTable + 4 * 0xa0;
    for i := 0xa0 to 0xb0
      invariant pageTable == PAGE_SIZE * l.ptable + 4 * i
      invariant VideoBuilt(cpu.hwMem[..], l, i) && KeepsBoth(m0, cpu.hwMem[..], l.updir, l.ptable)
    {
      StoreVideo(cpu, l, i, pageTable, m0);
      pageTable := pageTable + 4;
    }
  }

  // ----- all of it -----

  // The video table is static data, zero when the kernel is loaded.
  predicate ZeroFrame(m: seq<Byte>, f: nat)
    requires IsMem(m) && f < FRAMES
  {
    forall i :: PAGE_SIZE * f <= i < PAGE_SIZE * (f + 1) ==> m[i] == 0
  }

  lemma ZeroTable(m: seq<Byte>, l: Layout)
    requires IsMem(m) && l.Valid() && ZeroFrame(m, l.ptable)
    ensures VideoTableIs(m, l, VMEM_FIRST)
  {
    forall k | 0 <= k < NR_PTE ensures Slot(m, l.ptable, k) == VideoWord(VMEM_FIRST, k) {
      var p := PAGE_SIZE * l.ptable + 4 * k;
      assert m[p] == 0 && m[p + 1] == 0 && m[p + 2] == 0 && m[p + 3] == 0;
    }
  }

  // A frame the kernel keeps no table in.
  predicate Spare(l: Layout, f: int) {
    f != l.kpdir && !l.InKptable(f) && f != l.updir && f != l.ptable
  }

  // From memory as the kernel is loaded: afterwards kernel and user see what KernelWalk and VideoWalk say, and
  // only the tables have changed.
  method SetUpPaging(cpu: Machine, l: Layout) returns (ucr3: nat)
    requires cpu.Valid() && l.Valid() && ZeroFrame(cpu.hwMem[..], l.ptable)
    modifies cpu, cpu.hwMem
    ensures cpu.mmu == Mmu(true, l.kpdir) && ucr3 == PAGE_SIZE * l.updir
    ensures VideoBuilt(cpu.hwMem[..], l, 0xb0)
    ensures forall i :: 0 <= i < MEM_SIZE && Spare(l, i / PAGE_SIZE) ==> cpu.hwMem[i] == old(cpu.hwMem[i])
  {
    ghost var m0 := cpu.hwMem[..];
    InitPage(cpu, l);
    ghost var m1 := cpu.hwMem[..];
    ucr3 := InitMm(cpu, l);
    ghost var m2 := cpu.hwMem[..];
    TableUntouched(m0, m1, m2, l);
    CreateVideoMapping(cpu, l);
    SpareUntouched(m0, m1, m2, cpu.hwMem[..], l);
  }

  lemma TableUntouched(m0: seq<Byte>, m1: seq<Byte>, m2: seq<Byte>, l: Layout)
    requires IsMem(m0) && IsMem(m1) && IsMem(m2) && l.Valid() && ZeroFrame(m0, l.ptable)
    requires KeepsRest(m0, m1, l) && KeepsOthers(m1, m2, l.updir)
    ensures VideoTableIs(m2, l, VMEM_FIRST)
  {
    forall i | PAGE_SIZE * l.ptable <= i < PAGE_SIZE * (l.ptable + 1) ensures m2[i] == 0 {
      assert i / PAGE_SIZE == l.ptable;
    }
    ZeroTable(m2, l);
  }

  lemma SpareUntouched(m0: seq<Byte>, m1: seq<Byte>, m2: seq<Byte>, m3: seq<Byte>, l: Layout)
    requires IsMem(m0) && IsMem(m1) && IsMem(m2) && IsMem(m3) && l.Valid()
    requires KeepsRest(m0, m1, l) && KeepsOthers(m1, m2, l.updir) && KeepsBoth(m2, m3, l.updir, l.ptable)
    ensures forall i :: 0 <= i < MEM_SIZE && Spare(l, i / PAGE_SIZE) ==> m3[i] == m0[i]
  {
  }

  // ----- what a user process then sees -----

  function UserFrame(n: nat, video: bool): Option<int> {
    if video && VMEM_FIRST <= n <= VMEM_LAST then Some(n)
    else if 0xC_0000 <= n < 0xC_0000 + FRAMES then Some(n - 0xC_0000)
    else None
  }

  lemma UserDirFollows(m: seq<Byte>, l: Layout, first: int, d: nat)
    requires IsMem(m) && l.Valid() && UserDirIs(m, l, first) && d < NR_PDE
    ensures Follow(Entry(m, l.updir, d)) ==
            if d == 0 then Follow(Some(first))
            else if KERNEL_PDE <= d < KERNEL_PDE + KERNEL_PDES then Some(l.kptable + d - KERNEL_PDE) else None
  {
    assert Slot(m, l.updir, d) == UserWord(l.kptable, first, d);
    if KERNEL_PDE <= d < KERNEL_PDE + KERNEL_PDES { EntryFollows(l.kptable + d - KERNEL_PDE); }
  }

  lemma VideoTableFollows(m: seq<Byte>, l: Layout, k: nat)
    requires IsMem(m) && l.Valid() && VideoTableIs(m, l, VMEM_LAST + 1) && k < NR_PTE
    ensures Follow(Entry(m, l.ptable, k)) == if VMEM_FIRST <= k <= VMEM_LAST then Some(k) else None
  {
    assert Slot(m, l.ptable, k) == VideoWord(VMEM_LAST + 1, k);
    EntryFollows(k);
  }

  // After init_mm only the kernel half is there, translated as the kernel translates it.
  lemma UserWalk(m: seq<Byte>, l: Layout, n: nat)
    requires IsMem(m) && l.Valid() && UserDirIs(m, l, 0) && KernelMapped(m, l) && n < 0x10_0000
    ensures Walk(m, Mmu(true, l.updir), n) == UserFrame(n, false)
    ensures n >= 0xC_0000 ==> Walk(m, Mmu(true, l.updir), n) == Walk(m, Mmu(true, l.kpdir), n)
  {
    var d, k := n / 1024, n % 1024;
    UserDirFollows(m, l, 0, d);
    if KERNEL_PDE <= d < KERNEL_PDE + KERNEL_PDES { TableFollows(m, l, d - KERNEL_PDE, k); }
    KernelWalk(m, l, n);
  }

  // After create_video_mapping [0xa0000, 0xb0000) maps to itself as well, and nothing else is added.
  lemma VideoWalk(m: seq<Byte>, l: Layout, n: nat)
    requires IsMem(m) && l.Valid() && VideoBuilt(m, l, VMEM_LAST + 1) && n < 0x10_0000
    ensures Walk(m, Mmu(true, l.updir), n) == UserFrame(n, true)
  {
    var d, k := n / 1024, n % 1024;
    UserDirFollows(m, l, EntryFor(l.ptable), d);
    if d == 0 {
      EntryFollows(l.ptable);
      VideoTableFollows(m, l, k);
    } else if KERNEL_PDE <= d < KERNEL_PDE + KERNEL_PDES {
      TableFollows(m, l, d - KERNEL_PDE, k);
    }
  }

  // The same by address, before and after.
  lemma UserAddresses(m: seq<Byte>, l: Layout, a: nat)
    requires IsMem(m) && l.Valid() && UserDirIs(m, l, 0) && KernelMapped(m, l) && IsWord(a)
    ensures Phys(m, Mmu(true, l.updir), a) == if 0xC000_0000 <= a < 0xC800_0000 then Some(a - 0xC000_0000) else None
  {
    UserWalk(m, l, a / PAGE_SIZE);
  }

  lemma VideoAddresses(m: seq<Byte>, l: Layout, a: nat)
    requires IsMem(m) && l.Valid() && VideoBuilt(m, l, 0xb0) && IsWord(a)
    ensures Phys(m, Mmu(true, l.updir), a)
            == if 0xa_0000 <= a < 0xb_0000 then Some(a)
               else if 0xC000_0000 <= a < 0xC800_0000 then Some(a - 0xC000_0000) else None
  {
    VideoWalk(m, l, a / PAGE_SIZE);
  }
}
