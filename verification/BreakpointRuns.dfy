/** What any sequence of breakpoint operations leaves in memory. prog is the program's own code;
    a machine holds the points from newest to oldest and memory as it is now. */
module BreakpointRuns {
  import opened Common
  import opened StaticPool
  import opened Breakpoints

  datatype Machine = Machine(points: seq<Point>, mem: seq<Byte>)

  datatype Action =
    | Set(addr: nat) | Watch | Delete(no: int) | DeleteAll | Resume | Mask
    | Hit(addr: nat)  // exec restores the byte of the breakpoint it stopped at

  // The transitions, as the methods of Manager state them.
  ghost predicate Next(s: Machine, a: Action, t: Machine) {
    match a
    case Set(addr) =>
      addr < |s.mem| &&
      (s == t || (t.mem == Poke(s.mem, addr, INT3) &&
                  exists no :: t.points == [Point(no, addr, s.mem[addr], false)] + s.points))
    case Watch =>
      t.mem == s.mem && (s == t || exists no :: t.points == [Point(no, 0, 0, true)] + s.points)
    case Delete(no) =>
      (s == t && NoNumber(s.points, no)) ||
      exists k :: 0 <= k < |s.points| && s.points[k].no == no &&
                  t.points == Without(s.points, k) && t.mem == Undo(s.points[k], s.mem)
    case DeleteAll => t == Machine([], UndoAll(s.points, 0, s.mem))
    case Resume => t == Machine(s.points, Armed(s.points, |s.points|, s.mem))
    case Mask => t == Machine(s.points, Masked(s.points, |s.points|, s.mem))
    case Hit(addr) =>
      t.points == s.points &&
      ((NoneAt(s.points, addr, |s.points|) && t.mem == s.mem) ||
       exists k :: NewestAt(s.points, addr, k) && t.mem == Undo(s.points[k], s.mem))
  }

  // ----- distinct addresses -----

  predicate IsAt(p: Point, a: nat) { !p.watch && p.addr == a }

  ghost predicate Listed(ps: seq<Point>, a: nat) { exists k :: 0 <= k < |ps| && IsAt(ps[k], a) }

  // The newest breakpoint at addr.
  function Newest(ps: seq<Point>, addr: nat): (k: nat)
    requires Listed(ps, addr)
    ensures NewestAt(ps, addr, k)
  {
    if IsAt(ps[0], addr) then 0
    else
      assert Listed(ps[1..], addr) by {
        var k :| 0 <= k < |ps| && IsAt(ps[k], addr);
        assert ps[1..][k - 1] == ps[k];
      }
      1 + Newest(ps[1..], addr)
  }

  // The oldest one.
  function Oldest(ps: seq<Point>, addr: nat): (k: nat)
    requires Listed(ps, addr)
    ensures k < |ps| && IsAt(ps[k], addr) && forall i :: k < i < |ps| ==> !IsAt(ps[i], addr)
  {
    var last := |ps| - 1;
    if IsAt(ps[last], addr) then last
    else
      assert Listed(ps[..last], addr) by {
        var k :| 0 <= k < |ps| && IsAt(ps[k], addr);
        assert ps[..last][k] == ps[k];
      }
      Oldest(ps[..last], addr)
  }

  // One breakpoint: it remembers the program's byte.
  ghost predicate Remembers(prog: seq<Byte>, p: Point) {
    !p.watch ==> p.addr < |prog| && p.ori == prog[p.addr]
  }

  // One byte of memory: the program's own, or a patch some breakpoint will undo.
  ghost predicate Accounted(prog: seq<Byte>, ps: seq<Point>, m: seq<Byte>, a: nat)
    requires a < |m| == |prog|
  {
    m[a] == prog[a] || (m[a] == INT3 && Listed(ps, a))
  }

  ghost predicate Faithful(prog: seq<Byte>, ps: seq<Point>, m: seq<Byte>) {
    |m| == |prog| && (forall k :: 0 <= k < |ps| ==> Remembers(prog, ps[k])) &&
    forall a :: 0 <= a < |m| ==> Accounted(prog, ps, m, a)
  }

  // Undoing any point of a faithful machine brings its byte back.
  lemma UndoFaithful(prog: seq<Byte>, ps: seq<Point>, m: seq<Byte>, p: Point)
    requires Faithful(prog, ps, m) && Remembers(prog, p)
    ensures Faithful(prog, ps, Undo(p, m)) && (!p.watch ==> Undo(p, m)[p.addr] == prog[p.addr])
    ensures forall a :: 0 <= a < |m| && Undo(p, m)[a] != m[a] ==> IsAt(p, a)
  {
    forall a | 0 <= a < |m| ensures Accounted(prog, ps, Undo(p, m), a) { assert Accounted(prog, ps, m, a); }
  }

  lemma {:induction false} UndoAllRestores(prog: seq<Byte>, ps: seq<Point>, k: nat, m: seq<Byte>)
    requires Faithful(prog, ps, m) && k <= |ps|
    ensures Faithful(prog, ps, UndoAll(ps, k, m))
    ensures forall a, i :: k <= i < |ps| && 0 <= a < |m| && IsAt(ps[i], a) ==> UndoAll(ps, k, m)[a] == prog[a]
    decreases |ps| - k
  {
    if k < |ps| {
      UndoAllRestores(prog, ps, k + 1, m);
      UndoFaithful(prog, ps, UndoAll(ps, k + 1, m), ps[k]);
    }
  }

  lemma {:induction false} MaskedRestores(prog: seq<Byte>, ps: seq<Point>, k: nat, m: seq<Byte>)
    requires Faithful(prog, ps, m) && k <= |ps|
    ensures Faithful(prog, ps, Masked(ps, k, m))
    ensures forall a, i :: 0 <= i < k && 0 <= a < |m| && IsAt(ps[i], a) ==> Masked(ps, k, m)[a] == prog[a]
  {
    if k > 0 {
      MaskedRestores(prog, ps, k - 1, m);
      UndoFaithful(prog, ps, Masked(ps, k - 1, m), ps[k - 1]);
    }
  }

  lemma {:induction false} ArmedFaithful(prog: seq<Byte>, ps: seq<Point>, k: nat, m: seq<Byte>)
    requires Faithful(prog, ps, m) && k <= |ps|
    ensures Faithful(prog, ps, Armed(ps, k, m))
    ensures forall i :: 0 <= i < k && !ps[i].watch ==> Armed(ps, k, m)[ps[i].addr] == INT3
  {
    if k > 0 {
      ArmedFaithful(prog, ps, k - 1, m);
      var w, x := Armed(ps, k - 1, m), Armed(ps, k, m);
      forall a | 0 <= a < |m| ensures Accounted(prog, ps, x, a) {
        assert Accounted(prog, ps, w, a);
        assert IsAt(ps[k - 1], a) || x[a] == w[a];
      }
    }
  }

  // ----- runs -----

  ghost predicate Ok(prog: seq<Byte>, s: Machine) { Faithful(prog, s.points, s.mem) }

  lemma SetFaithfulIff(prog: seq<Byte>, s: Machine, addr: nat, no: int)
    requires Ok(prog, s) && addr < |s.mem|
    ensures Faithful(prog, [Point(no, addr, s.mem[addr], false)] + s.points, Poke(s.mem, addr, INT3)) <==>
            s.mem[addr] == prog[addr]
  {
    var p := Point(no, addr, s.mem[addr], false);
    var ps, m := [p] + s.points, Poke(s.mem, addr, INT3);
    assert ps[0] == p;
    if s.mem[addr] == prog[addr] {
      forall k | 0 <= k < |ps| ensures Remembers(prog, ps[k]) { if k > 0 { assert ps[k] == s.points[k - 1]; } }
      forall a | 0 <= a < |m| ensures Accounted(prog, ps, m, a) {
        assert Accounted(prog, s.points, s.mem, a);
        ListedMore(s.points, p, a);
      }
    } else {
      assert !Remembers(prog, ps[0]);
    }
  }

  lemma ListedMore(ps: seq<Point>, p: Point, a: nat)
    ensures Listed([p] + ps, a) <==> IsAt(p, a) || Listed(ps, a)
  {
    if Listed(ps, a) {
      var k :| 0 <= k < |ps| && IsAt(ps[k], a);
      assert IsAt(([p] + ps)[k + 1], a);
    }
    if IsAt(p, a) { assert IsAt(([p] + ps)[0], a); }
    if Listed([p] + ps, a) && !IsAt(p, a) {
      var k :| 0 <= k < |[p] + ps| && IsAt(([p] + ps)[k], a);
      assert IsAt(ps[k - 1], a);
    }
  }

  lemma ListedLess(ps: seq<Point>, k: int, a: nat)
    requires 0 <= k < |ps| && Listed(ps, a) && !IsAt(ps[k], a)
    ensures Listed(Without(ps, k), a)
  {
    var j :| 0 <= j < |ps| && IsAt(ps[j], a);
    assert IsAt(Without(ps, k)[if j < k then j else j - 1], a);
  }

  lemma DeleteFaithful(prog: seq<Byte>, s: Machine, k: int)
    requires Ok(prog, s) && 0 <= k < |s.points|
    ensures Faithful(prog, Without(s.points, k), Undo(s.points[k], s.mem))
  {
    var p, ps, m := s.points[k], Without(s.points, k), Undo(s.points[k], s.mem);
    assert Remembers(prog, p);
    UndoFaithful(prog, s.points, s.mem, p);
    forall i | 0 <= i < |ps| ensures Remembers(prog, ps[i]) {
      assert Remembers(prog, s.points[if i < k then i else i + 1]);
    }
    forall a | 0 <= a < |m| ensures Accounted(prog, ps, m, a) {
      assert Accounted(prog, s.points, m, a);
      if m[a] != prog[a] {
        assert !IsAt(p, a);
        ListedLess(s.points, k, a);
      }
    }
  }

  // With every point deleted, nothing is left to account for.
  lemma NoPointsNoPatches(prog: seq<Byte>, m: seq<Byte>)
    requires Faithful(prog, [], m)
    ensures m == prog
  {
    forall a | 0 <= a < |m| ensures m[a] == prog[a] { assert Accounted(prog, [], m, a); }
  }

  lemma DeleteAllRestores(prog: seq<Byte>, s: Machine)
    requires Ok(prog, s)
    ensures UndoAll(s.points, 0, s.mem) == prog && Masked(s.points, |s.points|, s.mem) == prog
  {
    var ps := s.points;
    UndoAllRestores(prog, ps, 0, s.mem);
    MaskedRestores(prog, ps, |ps|, s.mem);
    var x, y := UndoAll(ps, 0, s.mem), Masked(ps, |ps|, s.mem);
    forall a | 0 <= a < |prog| ensures x[a] == prog[a] && y[a] == prog[a] {
      assert Accounted(prog, ps, x, a) && Accounted(prog, ps, y, a);
    }
  }

  // What every step keeps, given that breakpoints are set on unpatched bytes only.
  lemma StepKeeps(prog: seq<Byte>, s: Machine, a: Action, t: Machine)
    requires Ok(prog, s) && Next(s, a, t)
    requires a.Set? ==> s.mem[a.addr] == prog[a.addr]
    ensures Ok(prog, t)
  {
    match a
    case Set(addr) =>
      if s != t {
        var no :| t.points == [Point(no, addr, s.mem[addr], false)] + s.points;
        SetFaithfulIff(prog, s, addr, no);
      }
    case Watch =>
      if s != t {
        var no :| t.points == [Point(no, 0, 0, true)] + s.points;
        forall k | 0 <= k < |t.points| ensures Remembers(prog, t.points[k]) {
          if k > 0 { assert t.points[k] == s.points[k - 1]; }
        }
        forall b | 0 <= b < |t.mem| ensures Accounted(prog, t.points, t.mem, b) {
          assert Accounted(prog, s.points, s.mem, b);
          ListedMore(s.points, Point(no, 0, 0, true), b);
        }
      }
    case Delete(no) =>
      if !(s == t && NoNumber(s.points, no)) {
        var k :| 0 <= k < |s.points| && s.points[k].no == no &&
                 t.points == Without(s.points, k) && t.mem == Undo(s.points[k], s.mem);
        DeleteFaithful(prog, s, k);
      }
    case DeleteAll =>
      DeleteAllRestores(prog, s);
    case Resume =>
      ArmedFaithful(prog, s.points, |s.points|, s.mem);
    case Mask =>
      MaskedRestores(prog, s.points, |s.points|, s.mem);
    case Hit(addr) =>
      if !(NoneAt(s.points, addr, |s.points|) && t.mem == s.mem) {
        var k :| NewestAt(s.points, addr, k) && t.mem == Undo(s.points[k], s.mem);
        UndoFaithful(prog, s.points, s.mem, s.points[k]);
      }
  }

  // A run: machines before and after each action; breakpoints go on addresses not in use.
  ghost predicate IsRun(prog: seq<Byte>, ms: seq<Machine>, acts: seq<Action>) {
    |ms| == |acts| + 1 && ms[0] == Machine([], prog) &&
    forall i :: 0 <= i < |acts| ==>
      Next(ms[i], acts[i], ms[i + 1]) && (acts[i].Set? ==> !Listed(ms[i].points, acts[i].addr))
  }

  // In every reachable machine, deleting everything or masking brings back the program, and a
  // machine without points is the program already - whatever order they were deleted in.
  lemma {:induction false} RunRestores(prog: seq<Byte>, ms: seq<Machine>, acts: seq<Action>, n: nat)
    requires IsRun(prog, ms, acts) && n < |ms|
    ensures Ok(prog, ms[n])
    ensures UndoAll(ms[n].points, 0, ms[n].mem) == prog
    ensures Masked(ms[n].points, |ms[n].points|, ms[n].mem) == prog
    ensures ms[n].points == [] ==> ms[n].mem == prog
    ensures forall a :: 0 <= a < |prog| && !Listed(ms[n].points, a) ==> ms[n].mem[a] == prog[a]
  {
    if n > 0 {
      RunRestores(prog, ms, acts, n - 1);
      StepKeeps(prog, ms[n - 1], acts[n - 1], ms[n]);
    }
    DeleteAllRestores(prog, ms[n]);
    if ms[n].points == [] { NoPointsNoPatches(prog, ms[n].mem); }
    forall a | 0 <= a < |prog| && !Listed(ms[n].points, a) ensures ms[n].mem[a] == prog[a] {
      assert Accounted(prog, ms[n].points, ms[n].mem, a);
    }
  }

  ghost function StateOf(bps: Manager): Machine
    reads bps, bps.pool, bps.mem
    requires bps.Valid()
  {
    Machine(bps.Points(), bps.mem[..])
  }

  // Every operation of the manager, on its pool and lists in place, is such a step.
  method Perform(bps: Manager, a: Action)
    requires bps.Valid() && (a.Set? ==> a.addr < bps.mem.Length)
    modifies bps, bps.pool, bps.mem
    ensures bps.Valid() && Next(old(StateOf(bps)), a, StateOf(bps))
  {
    match a
    case Set(addr) => var ok, no := bps.SetBreakpoint(addr);
    case Watch => var ok, no := bps.SetWatchpoint();
    case Delete(no) => var found, k := bps.DeleteBreakpoint(no);
    case DeleteAll => bps.DeleteAllBreakpoint();
    case Resume => bps.ResumeBreakpoints();
    case Mask => bps.MaskBreakpoints();
    case Hit(addr) => RestoreAt(bps, addr);
  }

  // exec, lines 81-87 of cpu.c: the byte of the newest breakpoint at addr comes back.
  method RestoreAt(bps: Manager, addr: nat)
    requires bps.Valid()
    modifies bps.mem
    ensures bps.Valid() && Next(old(StateOf(bps)), Hit(addr), StateOf(bps))
  {
    var p, k := bps.FindBreakpoint(addr);
    if p != NULL && bps.pool[p].addr < bps.mem.Length {
      bps.mem[bps.pool[p].addr] := bps.pool[p].ori;
    }
  }

  // ----- whatever was set, and however often -----

  // The byte at a after everything from place k on is undone: that of i, the newest there, if there is one.
  lemma {:induction false} UndoAllByte(ps: seq<Point>, k: nat, m: seq<Byte>, a: nat, i: nat)
    requires k <= i <= |ps| && a < |m|
    requires (forall j :: k <= j < i ==> !IsAt(ps[j], a)) && (i < |ps| ==> IsAt(ps[i], a))
    ensures UndoAll(ps, k, m)[a] == if i < |ps| then ps[i].ori else m[a]
    decreases |ps| - k
  {
    if k < i { UndoAllByte(ps, k + 1, m, a, i); }
  }

  // After the first k are masked: that of i - 1, the oldest among them.
  lemma {:induction false} MaskedByte(ps: seq<Point>, k: nat, m: seq<Byte>, a: nat, i: nat)
    requires i <= k <= |ps| && a < |m|
    requires (forall j :: i <= j < k ==> !IsAt(ps[j], a)) && (i > 0 ==> IsAt(ps[i - 1], a))
    ensures Masked(ps, k, m)[a] == if i > 0 then ps[i - 1].ori else m[a]
  {
    if k > i { MaskedByte(ps, k - 1, m, a, i); }
  }

  // In any machine at all, deleting everything restores the program exactly if the newest point at each address
  // remembers its byte and every other byte is the program's already ...
  lemma DeleteAllExact(prog: seq<Byte>, s: Machine)
    requires |s.mem| == |prog|
    ensures UndoAll(s.points, 0, s.mem) == prog <==>
            forall a: nat :: a < |prog| ==>
              prog[a] == if Listed(s.points, a) then s.points[Newest(s.points, a)].ori else s.mem[a]
  {
    forall a: nat | a < |prog|
      ensures UndoAll(s.points, 0, s.mem)[a]
              == if Listed(s.points, a) then s.points[Newest(s.points, a)].ori else s.mem[a]
    {
      UndoAllByte(s.points, 0, s.mem, a, if Listed(s.points, a) then Newest(s.points, a) else |s.points|);
    }
  }

  // ... and masking if the oldest one does.
  lemma MaskExact(prog: seq<Byte>, s: Machine)
    requires |s.mem| == |prog|
    ensures Masked(s.points, |s.points|, s.mem) == prog <==>
            forall a: nat :: a < |prog| ==>
              prog[a] == if Listed(s.points, a) then s.points[Oldest(s.points, a)].ori else s.mem[a]
  {
    forall a: nat | a < |prog|
      ensures Masked(s.points, |s.points|, s.mem)[a]
              == if Listed(s.points, a) then s.points[Oldest(s.points, a)].ori else s.mem[a]
    {
      MaskedByte(s.points, |s.points|, s.mem, a, if Listed(s.points, a) then Oldest(s.points, a) + 1 else 0);
    }
  }

  // ----- addresses set more than once -----

  function Count(addrs: seq<nat>, a: nat): nat {
    if addrs == [] then 0 else Count(addrs[..|addrs| - 1], a) + if addrs[|addrs| - 1] == a then 1 else 0
  }

  // Breakpoints set one after the other.
  function SetAll(prog: seq<Byte>, addrs: seq<nat>): (s: Machine)
    requires forall i :: 0 <= i < |addrs| ==> addrs[i] < |prog|
    ensures |s.points| == |addrs| && |s.mem| == |prog|
  {
    if addrs == [] then Machine([], prog)
    else
      var s, a := SetAll(prog, addrs[..|addrs| - 1]), addrs[|addrs| - 1];
      Machine([Point(|addrs|, a, s.mem[a], false)] + s.points, Poke(s.mem, a, INT3))
  }

  // What undoing leaves at a: the byte the newest breakpoint there remembers.
  lemma {:induction false} UndoAllUnfold(p: Point, ps: seq<Point>, k: nat, m: seq<Byte>)
    requires k <= |ps|
    ensures UndoAll([p] + ps, k + 1, m) == UndoAll(ps, k, m)
    decreases |ps| - k
  {
    if k < |ps| { UndoAllUnfold(p, ps, k + 1, m); }
  }

  lemma {:induction false} MaskedUnfold(p: Point, ps: seq<Point>, k: nat, m: seq<Byte>)
    requires k <= |ps|
    ensures Masked([p] + ps, k + 1, m) == Masked(ps, k, Undo(p, m))
  {
    if k > 0 {
      MaskedUnfold(p, ps, k - 1, m);
      assert ([p] + ps)[k] == ps[k - 1];
    }
  }

  lemma {:induction false} UndoAllPoke(ps: seq<Point>, k: nat, m: seq<Byte>, a: nat, b: Byte, c: nat)
    requires k <= |ps| && a < |m| && c < |m| && c != a
    ensures UndoAll(ps, k, Poke(m, a, b))[c] == UndoAll(ps, k, m)[c]
    decreases |ps| - k
  {
    if k < |ps| { UndoAllPoke(ps, k + 1, m, a, b, c); }
  }

  // Deleting all of them leaves the patch byte wherever two or more were set.
  lemma {:induction false} AfterSetAll(prog: seq<Byte>, addrs: seq<nat>, a: nat)
    requires forall i :: 0 <= i < |addrs| ==> addrs[i] < |prog|
    requires a < |prog|
    ensures var s := SetAll(prog, addrs);
            s.mem[a] == (if Count(addrs, a) == 0 then prog[a] else INT3) &&
            UndoAll(s.points, 0, s.mem)[a] == if Count(addrs, a) >= 2 then INT3 else prog[a]
  {
    if addrs != [] {
      var init, c := addrs[..|addrs| - 1], addrs[|addrs| - 1];
      AfterSetAll(prog, init, a);
      var s := SetAll(prog, init);
      var p := Point(|addrs|, c, s.mem[c], false);
      UndoAllUnfold(p, s.points, 0, Poke(s.mem, c, INT3));
      if a != c { UndoAllPoke(s.points, 0, s.mem, c, INT3, a); }
    }
  }

  // delete_all_breakpoint restores the program exactly when no byte other than the patch byte
  // itself was given two breakpoints.
  lemma DeleteAllRestoresIff(prog: seq<Byte>, addrs: seq<nat>)
    requires forall i :: 0 <= i < |addrs| ==> addrs[i] < |prog|
    ensures var s := SetAll(prog, addrs);
            UndoAll(s.points, 0, s.mem) == prog <==>
            forall a :: 0 <= a < |prog| && Count(addrs, a) >= 2 ==> prog[a] == INT3
  {
    var s := SetAll(prog, addrs);
    var u := UndoAll(s.points, 0, s.mem);
    forall a | 0 <= a < |prog| ensures u[a] == if Count(addrs, a) >= 2 then INT3 else prog[a] {
      AfterSetAll(prog, addrs, a);
    }
    if forall a :: 0 <= a < |prog| && Count(addrs, a) >= 2 ==> prog[a] == INT3 {
      assert forall a :: 0 <= a < |prog| ==> u[a] == prog[a];
    }
  }

  // Two at the only byte of a program leave the patch byte there.
  lemma DuplicateStays()
    ensures var s := SetAll([1], [0, 0]); UndoAll(s.points, 0, s.mem) == [INT3]
  {
    var addrs: seq<nat> := [0, 0];
    assert addrs[..1] == [0] && Count([0], 0) == 1 && Count(addrs, 0) == 2;
    AfterSetAll([1], addrs, 0);
  }

  // Masking visits the newest first, so it restores the program whatever the duplicates.
  lemma {:induction false} MaskRestoresAlways(prog: seq<Byte>, addrs: seq<nat>)
    requires forall i :: 0 <= i < |addrs| ==> addrs[i] < |prog|
    ensures var s := SetAll(prog, addrs); Masked(s.points, |s.points|, s.mem) == prog
  {
    if addrs != [] {
      var init, c := addrs[..|addrs| - 1], addrs[|addrs| - 1];
      var s := SetAll(prog, init);
      var p := Point(|addrs|, c, s.mem[c], false);
      MaskedUnfold(p, s.points, |s.points|, Poke(s.mem, c, INT3));
      assert Undo(p, Poke(s.mem, c, INT3)) == s.mem;
      MaskRestoresAlways(prog, init);
    }
  }
}
