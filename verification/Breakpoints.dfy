/** The breakpoint manager (nemu/src/monitor/breakpoint.c): a pool of 32 records threaded into a
    list of set points and a list of free records, kept in step with bytes patched into memory.
    Pointers are pool indices; code addresses map to memory one to one. */
module Breakpoints {
  import opened Common
  import opened StaticPool

  const NR_BP := 32
  const INT3 := 0xF1

  datatype Bp = Bp(ori: Byte, enable: bool, inUse: bool, no: int, addr: nat, watch: bool, next: int)

  // What one listed record means: its number, and for a breakpoint where and what it replaced.
  datatype Point = Point(no: int, addr: nat, ori: Byte, watch: bool)

  // ----- meaning of the operations, on the points from newest to oldest and on memory -----

  function Poke(m: seq<Byte>, a: nat, b: Byte): (m': seq<Byte>)
    ensures |m'| == |m|
  {
    if a < |m| then m[a := b] else m
  }

  // Undo one point.
  function Undo(p: Point, m: seq<Byte>): (m': seq<Byte>)
    ensures |m'| == |m|
  {
    if p.watch then m else Poke(m, p.addr, p.ori)
  }

  // delete_all_breakpoint: oldest first.
  function UndoAll(ps: seq<Point>, k: nat, m: seq<Byte>): (m': seq<Byte>)
    requires k <= |ps|
    ensures |m'| == |m|
    decreases |ps| - k
  {
    if k == |ps| then m else Undo(ps[k], UndoAll(ps, k + 1, m))
  }

  // mask_breakpoints: newest first, stopping after k points.
  function Masked(ps: seq<Point>, k: nat, m: seq<Byte>): (m': seq<Byte>)
    requires k <= |ps|
    ensures |m'| == |m|
  {
    if k == 0 then m else Undo(ps[k - 1], Masked(ps, k - 1, m))
  }

  // resume_breakpoints, after k points.
  function Armed(ps: seq<Point>, k: nat, m: seq<Byte>): (m': seq<Byte>)
    requires k <= |ps|
    ensures |m'| == |m|
  {
    if k == 0 then m
    else if ps[k - 1].watch then Armed(ps, k - 1, m)
    else Poke(Armed(ps, k - 1, m), ps[k - 1].addr, INT3)
  }

  // ----- links -----

  ghost predicate Within(p: seq<Bp>, s: seq<int>) { forall i :: 0 <= i < |s| ==> 0 <= s[i] < |p| }

  ghost predicate Step(p: seq<Bp>, s: seq<int>, i: int)
    requires Within(p, s) && 0 <= i < |s|
  {
    p[s[i]].next == At(s, i + 1)
  }

  ghost predicate Reaches(p: seq<Bp>, s: seq<int>, first: int) {
    Within(p, s) && NoDup(s) && first == At(s, 0) && forall i :: 0 <= i < |s| ==> Step(p, s, i)
  }

  function PointOf(b: Bp): Point { Point(b.no, b.addr, b.ori, b.watch) }

  ghost function PointsOf(p: seq<Bp>, s: seq<int>): (ps: seq<Point>)
    requires Within(p, s)
    ensures |ps| == |s| && forall i :: 0 <= i < |s| ==> ps[i] == PointOf(p[s[i]])
  {
    seq(|s|, i requires 0 <= i < |s| => PointOf(p[s[i]]))
  }

  // Listed records are in use and free ones are not.
  ghost predicate Marked(p: seq<Bp>, s: seq<int>, inUse: bool)
    requires Within(p, s)
  {
    forall i :: 0 <= i < |s| ==> p[s[i]].inUse == inUse
  }

  // The two lists partition the pool.
  ghost predicate Pool(p: seq<Bp>, live: seq<int>, free: seq<int>, head: int, free_: int) {
    |p| == NR_BP && Reaches(p, live, head) && Reaches(p, free, free_) && Covers(live, free, NR_BP) &&
    Marked(p, live, true) && Marked(p, free, false) && forall i :: 0 <= i < NR_BP ==> p[i].no == i
  }

  lemma ReachesFrame(p: seq<Bp>, q: seq<Bp>, s: seq<int>, first: int)
    requires Reaches(p, s, first) && |q| == |p| && forall i :: 0 <= i < |s| ==> q[s[i]].next == p[s[i]].next
    ensures Reaches(q, s, first)
  {
    forall i | 0 <= i < |s| ensures Step(q, s, i) { assert Step(p, s, i); }
  }

  lemma ReachesPush(p: seq<Bp>, s: seq<int>, first: int, n: int)
    requires Reaches(p, s, first) && 0 <= n < |p| && n !in s && p[n].next == first
    ensures Reaches(p, [n] + s, n)
  {
    var t := [n] + s;
    forall i, j | 0 <= i < j < |t| ensures Differ(t, i, t, j) {
      if i > 0 { SamePlace(s, i - 1, j - 1); }
    }
    forall i | 0 <= i < |t| ensures 0 <= t[i] < |p| && p[t[i]].next == At(t, i + 1) {
      if i > 0 { assert Step(p, s, i - 1); }
    }
    forall i | 0 <= i < |t| ensures Step(p, t, i) {}
  }

  // Taking the k-th record out: only its predecessor's link changes.
  function Bypassed(p: seq<Bp>, s: seq<int>, k: int): (q: seq<Bp>)
    requires Within(p, s) && 0 <= k < |s|
    ensures |q| == |p|
  {
    if k == 0 then p else p[s[k - 1] := p[s[k - 1]].(next := p[s[k]].next)]
  }

  lemma BypassedReaches(p: seq<Bp>, s: seq<int>, first: int, k: int)
    requires Reaches(p, s, first) && 0 <= k < |s|
    ensures var t := Without(s, k);
            Reaches(Bypassed(p, s, k), t, At(t, 0)) && s[k] !in t &&
            PointsOf(Bypassed(p, s, k), t) == Without(PointsOf(p, s), k)
  {
    var q, t := Bypassed(p, s, k), Without(s, k);
    NotInRest(s, t, k);
    forall i | 0 <= i < |t| ensures Step(q, t, i) && PointOf(q[t[i]]) == PointOf(p[t[i]]) {
      var j := if i < k then i else i + 1;
      assert Step(p, s, j) && Step(p, s, k);
      if k > 0 { SamePlace(s, j, k - 1); }
    }
  }

  // A free record taken for use.
  lemma TakeFree(p: seq<Bp>, live: seq<int>, free: seq<int>, head: int, free_: int, b: Bp)
    requires Pool(p, live, free, head, free_) && |free| >= 1
    requires b.inUse && b.no == free_ && b.next == head
    ensures var q := p[free_ := b];
            Pool(q, [free_] + live, free[1..], free_, p[free_].next) &&
            PointsOf(q, [free_] + live) == [PointOf(b)] + PointsOf(p, live)
  {
    var q, t, f := p[free_ := b], [free_] + live, free[1..];
    CoversPop(live, free, NR_BP);
    NotInRest(free, f, 0);
    assert Step(p, free, 0);
    ReachesFrame(p, q, live, head);
    ReachesPush(q, live, head, free_);
    forall i | 0 <= i < |f| ensures Step(q, f, i) { assert Step(p, free, i + 1) && f[i] in f; }
  }

  // A listed record given back, the list already closed over its place.
  lemma GiveBack(p: seq<Bp>, live: seq<int>, free: seq<int>, head: int, free_: int, k: int)
    requires Pool(p, live, free, head, free_) && 0 <= k < |live|
    ensures var q, t, n := Bypassed(p, live, k), Without(live, k), live[k];
            var r := q[n := q[n].(inUse := false, next := free_)];
            Pool(r, t, [n] + free, At(t, 0), n) && PointsOf(r, t) == Without(PointsOf(p, live), k)
  {
    var q, t, n := Bypassed(p, live, k), Without(live, k), live[k];
    var r := q[n := q[n].(inUse := false, next := free_)];
    BypassedReaches(p, live, head, k);
    CoversPush(live, free, k, NR_BP);
    NotIn(live, free, k);
    if k > 0 { NotIn(live, free, k - 1); }
    ReachesFrame(q, r, t, At(t, 0));
    ReachesFrame(p, r, free, free_);
    ReachesPush(r, free, free_, n);
  }

  lemma ListEnds(p: seq<Bp>, s: seq<int>, k: int)
    requires Within(p, s) && At(s, k) == NULL && k >= 0
    ensures k >= |s|
  {
  }

  // Setting enable changes neither links nor points.
  lemma EnableFrame(p: seq<Bp>, live: seq<int>, free: seq<int>, head: int, free_: int, n: int)
    requires Pool(p, live, free, head, free_) && 0 <= n < |p|
    ensures var q := p[n := p[n].(enable := true)];
            Pool(q, live, free, head, free_) && PointsOf(q, live) == PointsOf(p, live)
  {
    var q := p[n := p[n].(enable := true)];
    ReachesFrame(p, q, live, head);
    ReachesFrame(p, q, free, free_);
  }

  predicate NoNumber(ps: seq<Point>, no: int) { forall i :: 0 <= i < |ps| ==> ps[i].no != no }

  ghost predicate NoneAt(ps: seq<Point>, addr: nat, n: int) {
    n <= |ps| && forall i :: 0 <= i < n ==> ps[i].watch || ps[i].addr != addr
  }

  // The newest breakpoint at addr.
  ghost predicate NewestAt(ps: seq<Point>, addr: nat, k: int) {
    0 <= k < |ps| && !ps[k].watch && ps[k].addr == addr && NoneAt(ps, addr, k)
  }

  // Part way through delete_all_breakpoint: the first k listed records are as they were, the
  // rest are free.
  ghost predicate Draining(p: seq<Bp>, p0: seq<Bp>, live: seq<int>, k: int, free: seq<int>, free_: int) {
    |p| == |p0| == NR_BP && Within(p, live) && 0 <= k <= |live| && NoDup(live) &&
    Reaches(p, free, free_) && Covers(live[..k], free, NR_BP) && Marked(p, free, false) &&
    (forall i :: 0 <= i < NR_BP ==> p[i].no == i) &&
    forall i :: 0 <= i < k ==> p[live[i]] == p0[live[i]]
  }

  lemma NothingDrained(p: seq<Bp>, live: seq<int>, free: seq<int>, head: int, free_: int)
    requires Pool(p, live, free, head, free_)
    ensures Draining(p, p, live, |live|, free, free_)
  {
    assert live[..|live|] == live;
  }

  lemma DrainStep(p: seq<Bp>, p0: seq<Bp>, live: seq<int>, k: int, free: seq<int>, free_: int)
    requires 0 <= k < |live| && Draining(p, p0, live, k + 1, free, free_)
    ensures var n := live[k];
            p[n] == p0[n] &&
            Draining(p[n := p[n].(inUse := false, next := free_)], p0, live, k, [n] + free, n)
  {
    var n, t := live[k], live[..k + 1];
    var q := p[n := p[n].(inUse := false, next := free_)];
    forall i, j | 0 <= i < j < |t| ensures Differ(t, i, t, j) { SamePlace(live, i, j); }
    CoversPush(t, free, k, NR_BP);
    assert Without(t, k) == live[..k];
    NotIn(t, free, k);
    ReachesFrame(p, q, free, free_);
    ReachesPush(q, free, free_, n);
    forall i | 0 <= i < k ensures q[live[i]] == p0[live[i]] { SamePlace(live, i, k); }
  }

  // The free records are a stack, from the one that is next on; a record's number is its index.
  class Manager {
    const pool: array<Bp>  // bp_list
    const mem: array<Byte>
    var head: int
    var free_: int
    ghost var live: seq<int>
    ghost var free: seq<int>

    ghost predicate Valid()
      reads this, pool
    {
      Pool(pool[..], live, free, head, free_)
    }

    ghost function Points(): (ps: seq<Point>)
      reads this, pool
      requires Within(pool[..], live)
      ensures |ps| == |live|
    {
      PointsOf(pool[..], live)
    }

    // init_bp_list
    constructor (mem: array<Byte>)
      ensures Valid() && live == [] && fresh(pool) && this.mem == mem
      ensures |free| == 32 && forall j :: 0 <= j < 32 ==> free[j] == j
    {
      pool := new Bp[NR_BP](_ => Bp(0, false, false, 0, 0, false, NULL));
      this.mem := mem;
      new;
      var i := 0;
      while i < NR_BP
        invariant 0 <= i <= NR_BP
        invariant forall j :: 0 <= j < i ==> pool[j].no == j && !pool[j].inUse && pool[j].next == j + 1
        modifies pool
      {
        pool[i] := pool[i].(no := i, inUse := false, next := i + 1);
        i := i + 1;
      }
      pool[NR_BP - 1] := pool[NR_BP - 1].(next := NULL);
      head := NULL;
      free_ := 0;
      live, free := [], seq(NR_BP, j => j);
      CoversInitially(free, NR_BP);
      forall j | 0 <= j < NR_BP ensures Step(pool[..], free, j) {}
    }

    // The assert in new_BP and the caller's assignments: take a free record and list it.
    method Take(addr: nat, ori: Byte, watch: bool) returns (ok: bool, no: int)
      requires Valid()
      modifies this, pool
      ensures Valid() && (ok <==> |old(live)| < NR_BP)
      ensures !ok ==> Points() == old(Points())
      ensures ok ==> Points() == [Point(no, addr, ori, watch)] + old(Points())
      ensures ok ==> |old(free)| > 0 && no == old(free)[0] && free == old(free)[1..] && live == [no] + old(live)
    {
      if free_ == NULL {
        assert free == [];
        return false, 0;
      }
      var p := free_;
      ghost var was, b := pool[..], Bp(ori, true, true, p, addr, watch, head);
      TakeFree(was, live, free, head, free_, b);
      free_ := pool[p].next;
      assert !pool[p].inUse;  // the second assert in new_BP
      pool[p] := Bp(ori, true, true, pool[p].no, addr, watch, head);
      assert pool[..] == was[p := b];
      live, free := [p] + live, free[1..];
      head := p;
      return true, pool[p].no;
    }

    method SetBreakpoint(addr: nat) returns (ok: bool, no: int)
      requires Valid() && addr < mem.Length
      modifies this, pool, mem
      ensures Valid() && (ok <==> |old(live)| < NR_BP)
      ensures !ok ==> Points() == old(Points()) && mem[..] == old(mem[..])
      ensures ok ==> Points() == [Point(no, addr, old(mem[addr]), false)] + old(Points())
      ensures ok ==> mem[..] == Poke(old(mem[..]), addr, INT3)
      ensures ok ==> |old(free)| > 0 && no == old(free)[0] && free == old(free)[1..] && live == [no] + old(live)
    {
      ok, no := Take(addr, mem[addr], false);
      if ok {
        mem[addr] := INT3;
      }
    }

    method SetWatchpoint() returns (ok: bool, no: int)
      requires Valid()
      modifies this, pool
      ensures Valid() && (ok <==> |old(live)| < NR_BP)
      ensures ok ==> Points() == [Point(no, 0, 0, true)] + old(Points())
      ensures !ok ==> Points() == old(Points())
      ensures ok ==> |old(free)| > 0 && no == old(free)[0] && free == old(free)[1..] && live == [no] + old(live)
    {
      ok, no := Take(0, 0, true);
    }

    // free_BP: restore the byte and put the record on the free list.
    method FreeBP(p: int)
      requires 0 <= p < pool.Length && pool[p].inUse
      modifies this`free_, pool, mem
      ensures pool[..] == old(pool[..])[p := old(pool[p]).(inUse := false, next := old(free_))]
      ensures free_ == p && mem[..] == Undo(PointOf(old(pool[p])), old(mem[..]))
    {
      if pool[p].watch {
      } else if pool[p].addr < mem.Length {
        mem[pool[p].addr] := pool[p].ori;
      }
      pool[p] := pool[p].(inUse := false);
      pool[p] := pool[p].(next := free_);
      free_ := p;
    }

    // Lines 88-95: the place of number no in the list, and the record before it.
    method Locate(no: int) returns (p: int, prev: int, ghost k: int)
      requires Valid()
      ensures p == NULL ==> NoNumber(Points(), no)
      ensures p != NULL ==> 0 <= k < |live| && p == live[k] && Points()[k].no == no && prev == At(live, k - 1)
    {
      ghost var ps := Points();
      p, prev, k := head, NULL, 0;
      while p != NULL
        invariant 0 <= k <= |live| && p == At(live, k) && prev == At(live, k - 1)
        invariant forall i :: 0 <= i < k ==> ps[i].no != no
        decreases |live| - k
      {
        assert Step(pool[..], live, k) && ps[k].no == pool[p].no;
        if pool[p].no == no {
          return;
        }
        prev := p;
        p := pool[p].next;
        k := k + 1;
      }
      ListEnds(pool[..], live, k);
    }

    // Lines 101-110: close the list over record p and free it.
    method Release(p: int, prev: int, ghost k: int)
      requires Valid() && 0 <= k < |live| && p == live[k] && prev == At(live, k - 1)
      modifies this, pool, mem
      ensures Valid() && Points() == Without(old(Points()), k)
      ensures mem[..] == Undo(old(Points())[k], old(mem[..]))
      ensures live == Without(old(live), k) && free == [p] + old(free)
    {
      ghost var was := pool[..];
      GiveBack(was, live, free, head, free_, k);
      assert Step(was, live, k);
      if prev == NULL {
        head := pool[p].next;
      } else {
        pool[prev] := pool[prev].(next := pool[p].next);
      }
      assert pool[..] == Bypassed(was, live, k);
      FreeBP(p);
      live, free := Without(live, k), [p] + free;
    }

    // k is the place the deleted record had.
    method DeleteBreakpoint(no: int) returns (found: bool, ghost k: int)
      requires Valid()
      modifies this, pool, mem
      ensures Valid()
      ensures !found ==> NoNumber(old(Points()), no) && Points() == old(Points()) && mem[..] == old(mem[..])
      ensures found ==> 0 <= k < old(|live|) && old(Points())[k].no == no &&
                        Points() == Without(old(Points()), k) && mem[..] == Undo(old(Points())[k], old(mem[..]))
      ensures found ==> live == Without(old(live), k) && free == [no] + old(free)
    {
      var p, prev;
      p, prev, k := Locate(no);
      if p == NULL {
        return false, k;
      }
      Release(p, prev, k);
      return true, k;
    }

    // Frees the records from p, the k-th, to the end of the list, last first.
    method DeleteAllRecursively(p: int, ghost k: int)
      requires Valid() && 0 <= k <= |live| && p == At(live, k)
      modifies this`free_, this`free, pool, mem
      ensures Draining(pool[..], old(pool[..]), live, k, free, free_)
      ensures mem[..] == UndoAll(old(Points()), k, old(mem[..]))
      ensures free == live[k..] + old(free)
      decreases |live| - k
    {
      ghost var p0, ps := pool[..], Points();
      if p == NULL {
        ListEnds(p0, live, k);
        NothingDrained(p0, live, free, head, free_);
        return;
      }
      assert Step(p0, live, k) && ps[k] == PointOf(p0[p]) && p0[p].inUse;
      if pool[p].next != NULL {
        DeleteAllRecursively(pool[p].next, k + 1);
      } else {
        NothingDrained(p0, live, free, head, free_);
      }
      DrainStep(pool[..], p0, live, k, free, free_);
      FreeBP(p);
      free := [p] + free;
    }

    method DeleteAllBreakpoint()
      requires Valid()
      modifies this, pool, mem
      ensures Valid() && live == []
      ensures mem[..] == UndoAll(old(Points()), 0, old(mem[..]))
      ensures free == old(live) + old(free)
    {
      ghost var p0 := pool[..];
      DeleteAllRecursively(head, 0);
      head := NULL;
      live := [];
    }

    method FindBreakpoint(addr: nat) returns (p: int, ghost k: int)
      requires Valid()
      ensures p == NULL ==> NoneAt(Points(), addr, |live|)
      ensures p != NULL ==> 0 <= k < |live| && p == live[k] && NewestAt(Points(), addr, k)
    {
      ghost var ps := Points();
      p, k := head, 0;
      while p != NULL
        invariant 0 <= k <= |live| && p == At(live, k) && NoneAt(ps, addr, k)
        decreases |live| - k
      {
        assert Step(pool[..], live, k) && ps[k] == PointOf(pool[p]);
        assert pool[p].inUse;
        if !pool[p].watch && pool[p].addr == addr {
          return;
        }
        p := pool[p].next;
        k := k + 1;
      }
      ListEnds(pool[..], live, k);
    }

    method ResumeBreakpoints()
      requires Valid()
      modifies pool, mem
      ensures Valid() && Points() == old(Points())
      ensures mem[..] == Armed(old(Points()), old(|live|), old(mem[..]))
    {
      ghost var ps, k, was := Points(), 0, mem[..];
      var p := head;
      while p != NULL
        invariant 0 <= k <= |live| && p == At(live, k)
        invariant Valid() && Points() == ps
        invariant mem[..] == Armed(ps, k, was)
        decreases |live| - k
      {
        ghost var b := pool[..];
        assert Step(b, live, k) && ps[k] == PointOf(pool[p]);
        assert pool[p].inUse;
        if !pool[p].watch {
          if pool[p].addr < mem.Length {
            mem[pool[p].addr] := INT3;
          }
          EnableFrame(b, live, free, head, free_, p);
          pool[p] := pool[p].(enable := true);
          assert pool[..] == b[p := b[p].(enable := true)];
        }
        p := pool[p].next;
        k := k + 1;
      }
      ListEnds(pool[..], live, k);
    }

    method MaskBreakpoints()
      requires Valid()
      modifies mem
      ensures Points() == old(Points())
      ensures mem[..] == Masked(old(Points()), old(|live|), old(mem[..]))
    {
      ghost var ps, k, was := Points(), 0, mem[..];
      var p := head;
      while p != NULL
        invariant 0 <= k <= |live| && p == At(live, k)
        invariant mem[..] == Masked(ps, k, was)
        decreases |live| - k
      {
        assert Step(pool[..], live, k) && ps[k] == PointOf(pool[p]);
        assert pool[p].inUse;
        if !pool[p].watch {
          if pool[p].addr < mem.Length {
            mem[pool[p].addr] := pool[p].ori;
          }
        }
        p := pool[p].next;
        k := k + 1;
      }
      ListEnds(pool[..], live, k);
    }
  }
}
