/** The kernel's page tables (kernel/src/memory/kvm.c, mm.c, vmem.c), built word by word in the physical
    memory that the page walk reads. */
module PageTables {
  import opened Common
  import opened Memory
  import opened MemoryTheorems

  const NR_PDE := 1024
  const NR_PTE := 1024
  const KOFFSET := 0xC000_0000
  const KERNEL_PDES := 32     // PHY_MEM / PT_SIZE, 128 MB by 4 MB
  const KERNEL_PDE := 768     // KOFFSET / PT_SIZE
  const ALL_PTES := 0x8000    // KERNEL_PDES * NR_PTE
  const VMEM_FIRST := 0xa0
  const VMEM_LAST := 0xaf

  // make_pde and make_pte: (addr & 0xfffff000) | 0x7
  function MakeEntry(addr: nat): int { addr / PAGE_SIZE * PAGE_SIZE + 7 }

  // The present entry for frame f.
  function EntryFor(f: nat): int { PAGE_SIZE * f + 7 }

  lemma EntryFollows(f: nat)
    requires f < 0x10_0000
    ensures 0 <= EntryFor(f) < WORD && Follow(Some(EntryFor(f))) == Some(f)
  {
    assert EntryFor(f) == 2 * (2048 * f + 3) + 1;
  }

  // The word k of the table that starts at frame f.
  function Slot(m: seq<Byte>, f: nat, k: nat): int
    requires IsMem(m) && PAGE_SIZE * f + 4 * k + 4 <= MEM_SIZE
  {
    WordAt(m, PAGE_SIZE * f + 4 * k)
  }

  function SetSlot(m: seq<Byte>, f: nat, k: nat, v: int): (r: seq<Byte>)
    requires IsMem(m) && PAGE_SIZE * f + 4 * k + 4 <= MEM_SIZE
    ensures IsMem(r)
  {
    Stored(m, PAGE_SIZE * f + 4 * k, 4, v)
  }

  lemma LowBytesWhole(v: int)
    requires IsWord(v)
    ensures LowBytes(v, 4) == v
  {
    var b0, b1, b2, b3 := ToBytes(v);
    FromBytes(v, b0, b1, b2, b3);
    assert LowBytes(v, 1) == Up(b0, 0);
    assert LowBytes(v, 2) == Up(b0, 0) + Up(b1, 1);
    assert LowBytes(v, 3) == Up(b0, 0) + Up(b1, 1) + Up(b2, 2);
  }

  lemma SlotSet(m: seq<Byte>, f: nat, k: nat, v: int)
    requires IsMem(m) && IsWord(v) && PAGE_SIZE * f + 4 * k + 4 <= MEM_SIZE
    ensures Slot(SetSlot(m, f, k, v), f, k) == v
  {
    ValueStored(m, PAGE_SIZE * f + 4 * k, 4, v, 4);
    LowBytesWhole(v);
  }

  // A word store is seen by that slot and by no other.
  lemma SlotAfter(m: seq<Byte>, f: nat, k: nat, v: int, g: nat, j: nat)
    requires IsMem(m) && IsWord(v)
    requires PAGE_SIZE * f + 4 * k + 4 <= MEM_SIZE && PAGE_SIZE * g + 4 * j + 4 <= MEM_SIZE
    ensures Slot(SetSlot(m, f, k, v), g, j) == if 1024 * g + j == 1024 * f + k then v else Slot(m, g, j)
  {
    if 1024 * g + j == 1024 * f + k { SlotSet(m, f, k, v); }
  }

  // A write that hits a page-table entry of its own page need not come back: where entry d of the directory points
  // to the directory itself, clearing it through linear memory removes the page it was written through.
  lemma OwnEntryLost(m: seq<Byte>, f: nat, d: nat, a: nat)
    requires IsMem(m) && f < FRAMES && d < NR_PDE && Follow(Entry(m, f, d)) == Some(f)
    requires a == PAGE_SIZE * (1024 * d + d) + 4 * d
    ensures IsWord(a) && Written(m, Mmu(true, f), a, 4, 0) == Some(SetSlot(m, f, d, 0))
    ensures Spelled(SetSlot(m, f, d, 0), Mmu(true, f), a, 4) == None
  {
    OwnAddress(d, a);
    OwnPhys(m, f, d, a);
    SlotSet(m, f, d, 0);
    OwnGone(SetSlot(m, f, d, 0), f, d, a);
  }

  lemma OwnAddress(d: nat, a: nat)
    requires d < NR_PDE && a == PAGE_SIZE * (1024 * d + d) + 4 * d
    ensures IsWord(a) && a / PAGE_SIZE == 1024 * d + d && a % PAGE_SIZE == 4 * d && !Crosses(a, 4)
    ensures (1024 * d + d) / 1024 == d && (1024 * d + d) % 1024 == d
  {
    CrossingParts(a, 4);
  }

  lemma OwnPhys(m: seq<Byte>, f: nat, d: nat, a: nat)
    requires IsMem(m) && f < FRAMES && d < NR_PDE && Follow(Entry(m, f, d)) == Some(f) && IsWord(a)
    requires a / PAGE_SIZE / 1024 == d && a / PAGE_SIZE % 1024 == d && a % PAGE_SIZE == 4 * d && !Crosses(a, 4)
    ensures Written(m, Mmu(true, f), a, 4, 0) == Some(SetSlot(m, f, d, 0))
  {
    assert Phys(m, Mmu(true, f), a) == Some(PAGE_SIZE * f + 4 * d);
  }

  lemma OwnGone(m: seq<Byte>, f: nat, d: nat, a: nat)
    requires IsMem(m) && f < FRAMES && d < NR_PDE && Slot(m, f, d) == 0 && IsWord(a) && a / PAGE_SIZE / 1024 == d
    ensures Spelled(m, Mmu(true, f), a, 4) == None
  {
    assert Phys(m, Mmu(true, f), a) == None;
    assert At(m, Mmu(true, f), Wrap(a + 0)) == None;
    SpellNone(LinearBytes(m, Mmu(true, f), a), 4);
  }

  // ----- where things are -----

  // Frames of kpdir, kptable (32 of them), updir and the table for the video memory.
  datatype Layout = Layout(kpdir: nat, kptable: nat, updir: nat, ptable: nat) {
    predicate Valid() {
      kpdir < FRAMES && kptable + KERNEL_PDES <= FRAMES && updir < FRAMES && ptable < FRAMES &&
      !InKptable(kpdir) && !InKptable(updir) && !InKptable(ptable) &&
      kpdir != updir && kpdir != ptable && updir != ptable
    }

    predicate InKptable(f: int) { kptable <= f < kptable + KERNEL_PDES }
  }

  lemma {:induction false} SameBytes(m: seq<Byte>, m': seq<Byte>, p: nat, n: nat)
    requires n <= 4 && p + n <= |m| == |m'| && forall i :: p <= i < p + n ==> m'[i] == m[i]
    ensures Value(m', p, n) == Value(m, p, n)
  {
    if n > 0 { SameBytes(m, m', p, n - 1); }
  }

  // ----- the kernel's own tables -----

  // kpdir after d turns of the outer loop.
  function DirWord(kptable: nat, d: nat, k: nat): int {
    if k < d then EntryFor(kptable + k)
    else if KERNEL_PDE <= k < KERNEL_PDE + d then EntryFor(kptable + k - KERNEL_PDE)
    else 0
  }

  predicate DirIs(m: seq<Byte>, l: Layout, d: nat)
    requires IsMem(m) && l.Valid()
  {
    forall k :: 0 <= k < NR_PDE ==> Slot(m, l.kpdir, k) == DirWord(l.kptable, d, k)
  }

  // The first n PTEs map frame k to itself.
  predicate TableIs(m: seq<Byte>, l: Layout, n: nat)
    requires IsMem(m) && l.Valid() && n <= ALL_PTES
  {
    forall k :: 0 <= k < n ==> Slot(m, l.kptable, k) == EntryFor(k)
  }

  lemma SetPte(m: seq<Byte>, l: Layout, d: nat, n: nat)
    requires IsMem(m) && l.Valid() && n < ALL_PTES && DirIs(m, l, d) && TableIs(m, l, n)
    ensures var m' := SetSlot(m, l.kptable, n, EntryFor(n)); DirIs(m', l, d) && TableIs(m', l, n + 1)
  {
    var v := EntryFor(n);
    var m' := SetSlot(m, l.kptable, n, v);
    forall k | 0 <= k < NR_PDE ensures Slot(m', l.kpdir, k) == DirWord(l.kptable, d, k) {
      SlotAfter(m, l.kptable, n, v, l.kpdir, k);
    }
    forall k | 0 <= k < n + 1 ensures Slot(m', l.kptable, k) == EntryFor(k) {
      SlotAfter(m, l.kptable, n, v, l.kptable, k);
    }
  }

  lemma TableKept(m: seq<Byte>, l: Layout, f: nat, k: nat, v: int, n: nat)
    requires IsMem(m) && l.Valid() && n <= ALL_PTES && TableIs(m, l, n) && IsWord(v)
    requires f < FRAMES && k < 1024 && !l.InKptable(f)
    ensures TableIs(SetSlot(m, f, k, v), l, n)
  {
    forall j | 0 <= j < n ensures Slot(SetSlot(m, f, k, v), l.kptable, j) == EntryFor(j) {
      SlotAfter(m, f, k, v, l.kptable, j);
    }
  }

  lemma PdeAfter(m: seq<Byte>, l: Layout, d: nat, k: nat)
    requires IsMem(m) && l.Valid() && d < KERNEL_PDES && k < NR_PDE && Slot(m, l.kpdir, k) == DirWord(l.kptable, d, k)
    ensures var v := EntryFor(l.kptable + d);
            Slot(SetSlot(SetSlot(m, l.kpdir, d, v), l.kpdir, d + KERNEL_PDE, v), l.kpdir, k)
            == DirWord(l.kptable, d + 1, k)
  {
    var v := EntryFor(l.kptable + d);
    SlotAfter(m, l.kpdir, d, v, l.kpdir, k);
    SlotAfter(SetSlot(m, l.kpdir, d, v), l.kpdir, d + KERNEL_PDE, v, l.kpdir, k);
  }

  lemma SetPdes(m: seq<Byte>, l: Layout, d: nat)
    requires IsMem(m) && l.Valid() && d < KERNEL_PDES && DirIs(m, l, d)
    ensures var v := EntryFor(l.kptable + d);
            DirIs(SetSlot(SetSlot(m, l.kpdir, d, v), l.kpdir, d + KERNEL_PDE, v), l, d + 1)
  {
    var v := EntryFor(l.kptable + d);
    var m2 := SetSlot(SetSlot(m, l.kpdir, d, v), l.kpdir, d + KERNEL_PDE, v);
    forall k | 0 <= k < NR_PDE ensures Slot(m2, l.kpdir, k) == DirWord(l.kptable, d + 1, k) {
      assert Slot(m, l.kpdir, k) == DirWord(l.kptable, d, k);
      PdeAfter(m, l, d, k);
    }
  }

  predicate KernelMapped(m: seq<Byte>, l: Layout)
    requires IsMem(m) && l.Valid()
  {
    DirIs(m, l, KERNEL_PDES) && TableIs(m, l, ALL_PTES)
  }

  // ----- what the walk then finds -----

  function KernelFrame(n: nat): Option<int> {
    if n < FRAMES then Some(n)
    else if 0xC_0000 <= n < 0xC_0000 + FRAMES then Some(n - 0xC_0000)
    else None
  }

  // The table, as a number of 4 MB blocks, that directory entry d leads to.
  function Block(d: nat): Option<nat> {
    if d < KERNEL_PDES then Some(d)
    else if KERNEL_PDE <= d < KERNEL_PDE + KERNEL_PDES then Some(d - KERNEL_PDE)
    else None
  }

  lemma DirFollows(m: seq<Byte>, l: Layout, d: nat)
    requires IsMem(m) && l.Valid() && DirIs(m, l, KERNEL_PDES) && d < NR_PDE
    ensures Follow(Entry(m, l.kpdir, d)) == if Block(d).Some? then Some(l.kptable + Block(d).value) else None
  {
    assert Slot(m, l.kpdir, d) == DirWord(l.kptable, KERNEL_PDES, d);
    if Block(d).Some? { EntryFollows(l.kptable + Block(d).value); }
  }

  lemma TableFollows(m: seq<Byte>, l: Layout, t: nat, k: nat)
    requires IsMem(m) && l.Valid() && TableIs(m, l, ALL_PTES) && t < KERNEL_PDES && k < NR_PTE
    ensures Follow(Entry(m, l.kptable + t, k)) == Some(1024 * t + k)
  {
    var j := 1024 * t + k;
    assert Slot(m, l.kptable, j) == EntryFor(j);
    assert PAGE_SIZE * (l.kptable + t) + 4 * k == PAGE_SIZE * l.kptable + 4 * j;
    EntryFollows(j);
  }

  // The low 128 MB map to themselves, 0xC0000000 upwards to the same frames, and nothing else is mapped.
  lemma KernelWalk(m: seq<Byte>, l: Layout, n: nat)
    requires IsMem(m) && l.Valid() && KernelMapped(m, l) && n < 0x10_0000
    ensures Walk(m, Mmu(true, l.kpdir), n) == KernelFrame(n)
  {
    var d, k := n / 1024, n % 1024;
    DirFollows(m, l, d);
    if Block(d).Some? { TableFollows(m, l, Block(d).value, k); }
  }

  // The same by address.
  lemma KernelAddresses(m: seq<Byte>, l: Layout, a: nat)
    requires IsMem(m) && l.Valid() && KernelMapped(m, l) && IsWord(a)
    ensures Phys(m, Mmu(true, l.kpdir), a)
            == if a < 0x800_0000 then Some(a)
               else if 0xC000_0000 <= a < 0xC800_0000 then Some(a - 0xC000_0000) else None
  {
    KernelWalk(m, l, a / PAGE_SIZE);
  }

  // Entries are laid out as the processor has them: the frame from bit 12 on, present in bit 0, and user and
  // writable beside it.
  lemma EntryLayout()
    ensures EntryFor(0x1_2345 % FRAMES) == 0x234_5007 && FrameIn(0x234_5007) == 0x2345
    ensures Present(0x234_5007) && !Present(0x234_5006)
  {
  }

  // ----- building the kernel's tables -----

  function Zeroed(m: seq<Byte>, p: nat, n: nat): seq<Byte>
  {
    seq(|m|, i requires 0 <= i < |m| => ZeroedAt(m, p, n, i))
  }

  function ZeroedAt(m: seq<Byte>, p: nat, n: nat, i: nat): Byte
    requires i < |m|
  {
    if p <= i < p + n then 0 else m[i]
  }

  function Copied(m: seq<Byte>, dst: nat, src: nat, n: nat): seq<Byte>
    requires src + n <= |m|
  {
    seq(|m|, i requires 0 <= i < |m| => CopiedAt(m, dst, src, n, i))
  }

  function CopiedAt(m: seq<Byte>, dst: nat, src: nat, n: nat, i: nat): Byte
    requires i < |m| && src + n <= |m|
  {
    if dst <= i < dst + n then m[src + i - dst] else m[i]
  }

  method Memset0(cpu: Machine, p: nat, n: nat)
    requires cpu.Valid() && p + n <= MEM_SIZE
    modifies cpu.hwMem
    ensures cpu.hwMem[..] == Zeroed(old(cpu.hwMem[..]), p, n)
  {
    ghost var m := cpu.hwMem[..];
    for i := 0 to n
      invariant forall j :: 0 <= j < cpu.hwMem.Length ==> cpu.hwMem[j] == ZeroedAt(m, p, i, j)
    {
      cpu.hwMem[p + i] := 0;
    }
  }

  // The two regions do not overlap.
  method Memcpy(cpu: Machine, dst: nat, src: nat, n: nat)
    requires cpu.Valid() && dst + n <= MEM_SIZE && src + n <= MEM_SIZE && (dst + n <= src || src + n <= dst)
    modifies cpu.hwMem
    ensures cpu.hwMem[..] == Copied(old(cpu.hwMem[..]), dst, src, n)
  {
    ghost var m := cpu.hwMem[..];
    for i := 0 to n
      invariant forall j :: 0 <= j < cpu.hwMem.Length ==> cpu.hwMem[j] == CopiedAt(m, dst, src, i, j)
    {
      cpu.hwMem[dst + i] := cpu.hwMem[src + i];
    }
  }

  // Nothing outside kpdir and kptable changes.
  predicate KeepsRest(m: seq<Byte>, m': seq<Byte>, l: Layout)
    requires IsMem(m) && IsMem(m') && l.Valid()
  {
    forall i :: 0 <= i < |m| && i / PAGE_SIZE != l.kpdir && !l.InKptable(i / PAGE_SIZE) ==> m'[i] == m[i]
  }

  // What holds when the outer loop has made d turns and n entries are filled in.
  predicate Built(m0: seq<Byte>, m: seq<Byte>, l: Layout, d: nat, n: nat)
    requires IsMem(m0) && IsMem(m) && l.Valid() && n <= ALL_PTES
  {
    DirIs(m, l, d) && TableIs(m, l, n) && KeepsRest(m0, m, l)
  }

  lemma BuiltPte(m0: seq<Byte>, m: seq<Byte>, l: Layout, d: nat, n: nat)
    requires IsMem(m0) && IsMem(m) && l.Valid() && n < ALL_PTES && Built(m0, m, l, d, n)
    ensures Built(m0, SetSlot(m, l.kptable, n, EntryFor(n)), l, d, n + 1)
  {
    SetPte(m, l, d, n);
  }

  lemma BuiltPdes(m0: seq<Byte>, m: seq<Byte>, m': seq<Byte>, l: Layout, d: nat, n: nat)
    requires IsMem(m0) && IsMem(m) && l.Valid() && d < KERNEL_PDES && n <= ALL_PTES && Built(m0, m, l, d, n)
    requires var v := EntryFor(l.kptable + d);
             m' == SetSlot(SetSlot(m, l.kpdir, d, v), l.kpdir, d + KERNEL_PDE, v)
    ensures Built(m0, m', l, d + 1, n)
  {
    var v := EntryFor(l.kptable + d);
    SetPdes(m, l, d);
    TableKept(m, l, l.kpdir, d, v, n);
    TableKept(SetSlot(m, l.kpdir, d, v), l, l.kpdir, d + KERNEL_PDE, v, n);
    PdesKeepRest(m0, m, l, d, v);
  }

  lemma PdesKeepRest(m0: seq<Byte>, m: seq<Byte>, l: Layout, d: nat, v: int)
    requires IsMem(m0) && IsMem(m) && l.Valid() && d < KERNEL_PDES && KeepsRest(m0, m, l)
    ensures KeepsRest(m0, SetSlot(SetSlot(m, l.kpdir, d, v), l.kpdir, d + KERNEL_PDE, v), l)
  {
  }

  // init_page, run with paging off: pointers are physical addresses.
  method InitPage(cpu: Machine, l: Layout)
    requires cpu.Valid() && l.Valid()
    modifies cpu, cpu.hwMem
    ensures KernelMapped(cpu.hwMem[..], l) && cpu.mmu == Mmu(true, l.kpdir)
    ensures KeepsRest(old(cpu.hwMem[..]), cpu.hwMem[..], l)
  {
    var pdir := PAGE_SIZE * l.kpdir;
    ghost var m0 := cpu.hwMem[..];
    ClearDirectory(cpu, l, pdir);
    FillTables(cpu, l, pdir, m0);
    cpu.mmu := Mmu(cpu.mmu.paging, pdir / PAGE_SIZE);
    cpu.mmu := cpu.mmu.(paging := true);
  }

  // The outer loop.
  method FillTables(cpu: Machine, l: Layout, pdir: nat, ghost m0: seq<Byte>)
    requires cpu.Valid() && l.Valid() && IsMem(m0) && pdir == PAGE_SIZE * l.kpdir
    requires Built(m0, cpu.hwMem[..], l, 0, 0)
    modifies cpu.hwMem
    ensures Built(m0, cpu.hwMem[..], l, KERNEL_PDES, ALL_PTES)
  {
    var ptable, pframe, d := PAGE_SIZE * l.kptable, 0, 0;
    while d < KERNEL_PDES
      invariant 0 <= d <= KERNEL_PDES && pframe == 1024 * d && ptable == PAGE_SIZE * l.kptable + 4 * pframe
      invariant Built(m0, cpu.hwMem[..], l, d, pframe)
    {
      PointToTable(cpu, l, d, pdir, ptable, pframe, m0);
      ptable, pframe := FillTable(cpu, l, d, ptable, pframe, m0);
      d := d + 1;
    }
  }

  method ClearDirectory(cpu: Machine, l: Layout, pdir: nat)
    requires cpu.Valid() && l.Valid() && pdir == PAGE_SIZE * l.kpdir
    modifies cpu.hwMem
    ensures Built(old(cpu.hwMem[..]), cpu.hwMem[..], l, 0, 0)
  {
    Memset0(cpu, pdir, 4 * NR_PDE);
  }

  // p->val = make_pde(addr), p being slot k of frame f and addr the start of frame t.
  method StoreEntry(cpu: Machine, p: nat, addr: nat, ghost f: nat, ghost k: nat, ghost t: nat)
    requires cpu.Valid() && p == PAGE_SIZE * f + 4 * k && addr == PAGE_SIZE * t && p + 4 <= MEM_SIZE
    modifies cpu.hwMem
    ensures cpu.hwMem[..] == SetSlot(old(cpu.hwMem[..]), f, k, EntryFor(t))
  {
    cpu.HwWrite(p, 4, MakeEntry(addr));
  }

  method StoreBoth(cpu: Machine, p: nat, q: nat, addr: nat, ghost f: nat, ghost d: nat, ghost t: nat)
    requires cpu.Valid() && f < FRAMES && d < KERNEL_PDES && addr == PAGE_SIZE * t
    requires p == PAGE_SIZE * f + 4 * d && q == PAGE_SIZE * f + 4 * (d + KERNEL_PDE)
    modifies cpu.hwMem
    ensures var v := EntryFor(t);
            cpu.hwMem[..] == SetSlot(SetSlot(old(cpu.hwMem[..]), f, d, v), f, d + KERNEL_PDE, v)
  {
    StoreEntry(cpu, p, addr, f, d, t);
    StoreEntry(cpu, q, addr, f, d + KERNEL_PDE, t);
  }

  // Both directory entries for the d-th table.
  method PointToTable(cpu: Machine, l: Layout, d: nat, pdir: nat, ptable: nat, ghost n: nat, ghost m0: seq<Byte>)
    requires cpu.Valid() && l.Valid() && IsMem(m0) && d < KERNEL_PDES && n == 1024 * d
    requires pdir == PAGE_SIZE * l.kpdir && ptable == PAGE_SIZE * (l.kptable + d)
    requires Built(m0, cpu.hwMem[..], l, d, n)
    modifies cpu.hwMem
    ensures Built(m0, cpu.hwMem[..], l, d + 1, n)
  {
    ghost var m := cpu.hwMem[..];
    StoreBoth(cpu, pdir + 4 * d, pdir + 4 * (d + KERNEL_PDE), ptable, l.kpdir, d, l.kptable + d);
    BuiltPdes(m0, m, cpu.hwMem[..], l, d, n);
  }

  // The inner loop.
  method FillTable(cpu: Machine, l: Layout, d: nat, ptable0: nat, pframe0: nat, ghost m0: seq<Byte>)
    returns (ptable: nat, pframe: nat)
    requires cpu.Valid() && l.Valid() && IsMem(m0) && d < KERNEL_PDES
    requires pframe0 == 1024 * d && ptable0 == PAGE_SIZE * l.kptable + 4 * pframe0
    requires Built(m0, cpu.hwMem[..], l, d + 1, pframe0)
    modifies cpu.hwMem
    ensures pframe == pframe0 + NR_PTE && ptable == ptable0 + 4 * NR_PTE
    ensures Built(m0, cpu.hwMem[..], l, d + 1, pframe)
  {
    ptable, pframe := ptable0, pframe0;
    var k := 0;
    while k < NR_PTE
      invariant 0 <= k <= NR_PTE && pframe == pframe0 + k && ptable == ptable0 + 4 * k
      invariant Built(m0, cpu.hwMem[..], l, d + 1, pframe)
    {
      BuiltPte(m0, cpu.hwMem[..], l, d + 1, pframe);
      StoreEntry(cpu, ptable, pframe * 0x1000, l.kptable, pframe, pframe);
      pframe := pframe + 1;
      ptable := ptable + 4;
      k := k + 1;
    }
  }
}
