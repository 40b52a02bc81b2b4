/** The execution loop's side of breakpoints (nemu/src/cpu/cpu.c:49-140): stopping on a patched byte, stepping
    over it and re-arming.  The processor is abstract: it fetches the bytes of an instruction one after the
    other until they are complete, and then takes its state and eip to the next. */
module Execution {
  import opened Common
  import opened StaticPool
  import opened Breakpoints
  import opened BreakpointRuns

  datatype NemuState = STOP | RUN | READY | BREAK

  const MAX_LENGTH := 15  // no instruction is longer

  // The processor's own state, and where it is.
  datatype Cpu<S> = Cpu(regs: S, eip: nat)

  // complete says when enough bytes have been fetched.
  datatype Isa<!S> = Isa(complete: seq<Byte> -> bool, effect: (Cpu<S>, seq<Byte>) -> Cpu<S>)

  function Fetch(m: seq<Byte>, eip: nat): Byte { if eip < |m| then m[eip] else 0 }

  function Bytes(m: seq<Byte>, eip: nat, n: nat): seq<Byte> {
    if n == 0 then [] else Bytes(m, eip, n - 1) + [Fetch(m, eip + n - 1)]
  }

  // The length of the instruction at eip, n bytes of which are fetched.
  function Length<S>(m: seq<Byte>, isa: Isa<S>, eip: nat, n: nat): (l: nat)
    requires 1 <= n <= MAX_LENGTH
    ensures n <= l <= MAX_LENGTH
    decreases MAX_LENGTH - n
  {
    if n == MAX_LENGTH || isa.complete(Bytes(m, eip, n)) then n else Length(m, isa, eip, n + 1)
  }

  lemma OneByteMore<S>(m: seq<Byte>, isa: Isa<S>, eip: nat, n: nat)
    requires 1 <= n < MAX_LENGTH && !isa.complete(Bytes(m, eip, n))
    ensures Length(m, isa, eip, n) == Length(m, isa, eip, n + 1)
    ensures Bytes(m, eip, n + 1) == Bytes(m, eip, n) + [Fetch(m, eip + n)]
  {
  }

  function Instruction<S>(m: seq<Byte>, isa: Isa<S>, eip: nat): seq<Byte> {
    Bytes(m, eip, Length(m, isa, eip, 1))
  }

  // One instruction of a memory image; the patch byte is an instruction too, one byte long.
  function StepOn<S>(m: seq<Byte>, isa: Isa<S>, a: Cpu<S>): Cpu<S> {
    if Fetch(m, a.eip) == INT3 then Cpu(a.regs, a.eip + 1) else isa.effect(a, Instruction(m, isa, a.eip))
  }

  // ----- what exec does, on the breakpoints and on memory -----

  // k instructions were completed; hit says whether a breakpoint stopped the next one.
  datatype Ran<S> = Ran(cpu: Cpu<S>, mem: seq<Byte>, state: NemuState, k: nat, hit: bool)

  // fires(n) says whether a watchpoint changes with n instructions still to go.
  ghost function Run<S>(ps: seq<Point>, isa: Isa<S>, fires: nat -> bool, m: seq<Byte>, a: Cpu<S>, n: nat,
                        rerun: bool): Ran<S>
    decreases n
  {
    if n == 0 then Ran(a, m, READY, 0, false)
    else
      var b, m1 := StepOn(m, isa, a), if rerun then Armed(ps, |ps|, m) else m;
      var broke, last := Fetch(m, a.eip) == INT3, n == 1 || fires(n - 1);
      if broke && Listed(ps, a.eip) then
        Ran(a, Undo(ps[Newest(ps, a.eip)], m1), if last then READY else BREAK, 0, true)
      else if broke || last then Ran(b, m1, if last then READY else BREAK, 1, false)
      else
        var r := Run(ps, isa, fires, m1, b, n - 1, false);
        r.(k := r.k + 1)
  }

  // ----- what exec relies on -----

  // Every breakpoint is patched in, except perhaps at one address.
  ghost predicate ArmedExcept(ps: seq<Point>, m: seq<Byte>, eip: nat) {
    forall k :: 0 <= k < |ps| && !ps[k].watch && ps[k].addr != eip ==> Fetch(m, ps[k].addr) == INT3
  }

  ghost predicate ArmedAll(ps: seq<Point>, m: seq<Byte>) {
    forall k :: 0 <= k < |ps| && !ps[k].watch ==> Fetch(m, ps[k].addr) == INT3
  }

  // Only a machine that stopped at a breakpoint has one disarmed, the one it is about to step over.
  ghost predicate Sound(ps: seq<Point>, m: seq<Byte>, eip: nat, rerun: bool) {
    if rerun then ArmedExcept(ps, m, eip) else ArmedAll(ps, m)
  }

  ghost predicate Consistent(state: NemuState, ps: seq<Point>, m: seq<Byte>, eip: nat) {
    Sound(ps, m, eip, state == BREAK)
  }

  // A byte that is not the patch byte is the program's, and so is one without a breakpoint.
  lemma FetchFaithful(prog: seq<Byte>, ps: seq<Point>, m: seq<Byte>, eip: nat)
    requires Faithful(prog, ps, m) && (Fetch(m, eip) != INT3 || !Listed(ps, eip))
    ensures Fetch(m, eip) == Fetch(prog, eip)
  {
    if eip < |m| { assert Accounted(prog, ps, m, eip); }
  }

  lemma ArmedByResume(prog: seq<Byte>, ps: seq<Point>, m: seq<Byte>)
    requires Faithful(prog, ps, m)
    ensures Faithful(prog, ps, Armed(ps, |ps|, m)) && ArmedAll(ps, Armed(ps, |ps|, m))
  {
    ArmedFaithful(prog, ps, |ps|, m);
    forall k | 0 <= k < |ps| && !ps[k].watch ensures Fetch(Armed(ps, |ps|, m), ps[k].addr) == INT3 {
      assert Remembers(prog, ps[k]);
    }
  }

  // Stopping at a breakpoint disarms its address only.
  lemma DisarmedByHit(prog: seq<Byte>, ps: seq<Point>, m: seq<Byte>, k: nat)
    requires Faithful(prog, ps, m) && ArmedAll(ps, m) && k < |ps| && !ps[k].watch
    ensures var u := Undo(ps[k], m);
            Faithful(prog, ps, u) && ArmedExcept(ps, u, ps[k].addr) &&
            (ArmedAll(ps, u) <==> Fetch(prog, ps[k].addr) == INT3)
  {
    assert Remembers(prog, ps[k]);
    UndoFaithful(prog, ps, m, ps[k]);
  }

  // ----- the program as the processor sees it -----

  // Patches everywhere but at the instruction it stands at.
  ghost function Overlay(prog: seq<Byte>, ps: seq<Point>, eip: nat): seq<Byte> {
    seq(|prog|, i requires 0 <= i < |prog| => if i != eip && Listed(ps, i) then INT3 else prog[i])
  }

  ghost function SeenStep<S>(prog: seq<Byte>, ps: seq<Point>, isa: Isa<S>, a: Cpu<S>): Cpu<S> {
    StepOn(Overlay(prog, ps, a.eip), isa, a)
  }

  ghost function SeenPath<S>(prog: seq<Byte>, ps: seq<Point>, isa: Isa<S>, a: Cpu<S>, k: nat): Cpu<S>
    decreases k
  {
    if k == 0 then a else SeenPath(prog, ps, isa, SeenStep(prog, ps, isa, a), k - 1)
  }

  // The unpatched program.
  function Path<S>(prog: seq<Byte>, isa: Isa<S>, a: Cpu<S>, k: nat): Cpu<S>
    decreases k
  {
    if k == 0 then a else Path(prog, isa, StepOn(prog, isa, a), k - 1)
  }

  // Memory at an instruction that is executed.
  lemma ImageIsOverlay(prog: seq<Byte>, ps: seq<Point>, m: seq<Byte>, eip: nat)
    requires Faithful(prog, ps, m) && ArmedExcept(ps, m, eip) && (Fetch(m, eip) != INT3 || !Listed(ps, eip))
    ensures m == Overlay(prog, ps, eip)
  {
    forall i | 0 <= i < |m| ensures m[i] == Overlay(prog, ps, eip)[i] {
      if i == eip || !Listed(ps, i) {
        if i == eip { FetchFaithful(prog, ps, m, i); } else { assert Accounted(prog, ps, m, i); }
      }
    }
  }

  // Instruction j of the path is not at a breakpoint.
  ghost predicate Free<S>(prog: seq<Byte>, ps: seq<Point>, isa: Isa<S>, a: Cpu<S>, j: nat) {
    !Listed(ps, SeenPath(prog, ps, isa, a, j).eip)
  }

  // And nothing after it stops a run of n: no watchpoint, and no patch byte of the program's own.
  ghost predicate Quiet<S>(prog: seq<Byte>, ps: seq<Point>, isa: Isa<S>, fires: nat -> bool, a: Cpu<S>, n: nat, j: nat)
    requires j < n
  {
    !fires(n - 1 - j) && Fetch(prog, SeenPath(prog, ps, isa, a, j).eip) != INT3
  }

  // Exactly how far a run goes, if it can stop at position first or later: k instructions, and then a
  // breakpoint is hit or not.
  ghost predicate GoesFar<S>(prog: seq<Byte>, ps: seq<Point>, isa: Isa<S>, fires: nat -> bool, a: Cpu<S>, n: nat,
                             first: nat, k: nat, hit: bool) {
    k <= n &&
    (forall j :: first <= j < k ==> Free(prog, ps, isa, a, j)) &&
    (forall j :: 0 <= j < k && (hit || j + 1 < k) ==> Quiet(prog, ps, isa, fires, a, n, j)) &&
    if hit then first <= k < n && !Free(prog, ps, isa, a, k)
    else k == n || (k > 0 && !Quiet(prog, ps, isa, fires, a, n, k - 1))
  }

  lemma GoesFarOnce<S>(prog: seq<Byte>, ps: seq<Point>, isa: Isa<S>, fires: nat -> bool, a: Cpu<S>, n: nat,
                       first: nat, k: nat, hit: bool, l: nat, hit': bool)
    requires GoesFar(prog, ps, isa, fires, a, n, first, k, hit) && GoesFar(prog, ps, isa, fires, a, n, first, l, hit')
    ensures k == l && hit == hit'
  {
  }

  lemma GoesFarther<S>(prog: seq<Byte>, ps: seq<Point>, isa: Isa<S>, fires: nat -> bool, a: Cpu<S>, n: nat,
                       first: nat, k: nat, hit: bool)
    requires n > 0 && Quiet(prog, ps, isa, fires, a, n, 0)
    requires first == 0 || (first == 1 && Free(prog, ps, isa, SeenStep(prog, ps, isa, a), 0))
    requires GoesFar(prog, ps, isa, fires, SeenStep(prog, ps, isa, a), n - 1, first, k, hit)
    ensures GoesFar(prog, ps, isa, fires, a, n, 1, k + 1, hit)
  {
    var b := SeenStep(prog, ps, isa, a);
    forall j | 1 <= j < k + 1 ensures Free(prog, ps, isa, a, j) {
      assert Free(prog, ps, isa, b, j - 1);
    }
    forall j | 0 <= j < k + 1 && (hit || j + 1 < k + 1) ensures Quiet(prog, ps, isa, fires, a, n, j) {
      if j > 0 { assert Quiet(prog, ps, isa, fires, b, n - 1, j - 1); }
    }
    assert Free(prog, ps, isa, a, k + 1) <==> Free(prog, ps, isa, b, k);
    if k > 0 { assert Quiet(prog, ps, isa, fires, a, n, k) <==> Quiet(prog, ps, isa, fires, b, n - 1, k - 1); }
  }

  lemma ReadyToGoOn(prog: seq<Byte>, ps: seq<Point>, m: seq<Byte>, eip: nat, rerun: bool)
    requires Faithful(prog, ps, m) && Sound(ps, m, eip, rerun)
    ensures var m1 := if rerun then Armed(ps, |ps|, m) else m; Faithful(prog, ps, m1) && ArmedAll(ps, m1)
  {
    if rerun { ArmedByResume(prog, ps, m); }
  }

  // The first instruction of a sound run, unless a breakpoint is hit.
  lemma StepFollows<S>(prog: seq<Byte>, ps: seq<Point>, isa: Isa<S>, m: seq<Byte>, a: Cpu<S>, rerun: bool)
    requires Faithful(prog, ps, m) && Sound(ps, m, a.eip, rerun)
    ensures var m1 := if rerun then Armed(ps, |ps|, m) else m; Faithful(prog, ps, m1) && ArmedAll(ps, m1)
    ensures !(Fetch(m, a.eip) == INT3 && Listed(ps, a.eip)) ==>
              StepOn(m, isa, a) == SeenStep(prog, ps, isa, a) && Fetch(m, a.eip) == Fetch(prog, a.eip) &&
              (rerun || Free(prog, ps, isa, a, 0))
  {
    ReadyToGoOn(prog, ps, m, a.eip, rerun);
    if !(Fetch(m, a.eip) == INT3 && Listed(ps, a.eip)) {
      ImageIsOverlay(prog, ps, m, a.eip);
      FetchFaithful(prog, ps, m, a.eip);
    }
  }

  // The position from which a breakpoint can stop the run.
  function FirstStop(m: seq<Byte>, eip: nat): nat { if Fetch(m, eip) == INT3 then 0 else 1 }

  // r follows the path of the program as the processor sees it, and stops where and only where something on that
  // path says so.
  ghost predicate Follows<S>(prog: seq<Byte>, ps: seq<Point>, isa: Isa<S>, fires: nat -> bool, a: Cpu<S>, n: nat,
                             first: nat, rerun: bool, r: Ran<S>) {
    r.cpu == SeenPath(prog, ps, isa, a, r.k) && GoesFar(prog, ps, isa, fires, a, n, first, r.k, r.hit) &&
    (r.k > 0 ==> rerun || Free(prog, ps, isa, a, 0))
  }

  lemma FollowsOn<S>(prog: seq<Byte>, ps: seq<Point>, isa: Isa<S>, fires: nat -> bool, a: Cpu<S>, n: nat, first: nat,
                     rerun: bool, r: Ran<S>)
    requires n > 0 && first <= 1 && Quiet(prog, ps, isa, fires, a, n, 0) && (rerun || Free(prog, ps, isa, a, 0))
    requires first == 0 || Free(prog, ps, isa, SeenStep(prog, ps, isa, a), 0)
    requires Follows(prog, ps, isa, fires, SeenStep(prog, ps, isa, a), n - 1, first, false, r)
    ensures Follows(prog, ps, isa, fires, a, n, 1, rerun, r.(k := r.k + 1))
  {
    GoesFarther(prog, ps, isa, fires, a, n, first, r.k, r.hit);
  }

  lemma FollowsOnce<S>(prog: seq<Byte>, ps: seq<Point>, isa: Isa<S>, fires: nat -> bool, a: Cpu<S>, n: nat, first: nat,
                       rerun: bool, r: Ran<S>)
    requires n > 0 && (n == 1 || !Quiet(prog, ps, isa, fires, a, n, 0)) && (rerun || Free(prog, ps, isa, a, 0))
    requires first == 0 ==> Free(prog, ps, isa, a, 0)
    requires r.cpu == SeenStep(prog, ps, isa, a) && r.k == 1 && !r.hit
    ensures Follows(prog, ps, isa, fires, a, n, first, rerun, r)
  {
    assert SeenPath(prog, ps, isa, a, 1) == SeenPath(prog, ps, isa, r.cpu, 0);
    OneInstruction(prog, ps, isa, fires, a, n, first);
  }

  lemma FollowsNot<S>(prog: seq<Byte>, ps: seq<Point>, isa: Isa<S>, fires: nat -> bool, a: Cpu<S>, n: nat,
                      rerun: bool, r: Ran<S>)
    requires n > 0 && Listed(ps, a.eip) && r.cpu == a && r.k == 0 && r.hit
    ensures Follows(prog, ps, isa, fires, a, n, 0, rerun, r)
  {
    assert !Free(prog, ps, isa, a, 0);
  }

  lemma ListedArmed(ps: seq<Point>, m: seq<Byte>, eip: nat)
    requires ArmedAll(ps, m) && Fetch(m, eip) != INT3
    ensures !Listed(ps, eip)
  {
  }

  // From a sound start every run does.
  lemma {:induction false} RunFollows<S>(prog: seq<Byte>, ps: seq<Point>, isa: Isa<S>, fires: nat -> bool, m: seq<Byte>,
                                         a: Cpu<S>, n: nat, rerun: bool)
    requires Faithful(prog, ps, m) && Sound(ps, m, a.eip, rerun)
    ensures Follows(prog, ps, isa, fires, a, n, FirstStop(m, a.eip), rerun, Run(ps, isa, fires, m, a, n, rerun))
    decreases n
  {
    if n > 0 {
      if Fetch(m, a.eip) == INT3 || n == 1 || fires(n - 1) {
        StopFollows(prog, ps, isa, fires, m, a, n, rerun);
      } else {
        ReadyToGoOn(prog, ps, m, a.eip, rerun);
        RunFollows(prog, ps, isa, fires, if rerun then Armed(ps, |ps|, m) else m, StepOn(m, isa, a), n - 1, false);
        StepThenFollows(prog, ps, isa, fires, m, a, n, rerun);
      }
    }
  }

  lemma StepThenFollows<S>(prog: seq<Byte>, ps: seq<Point>, isa: Isa<S>, fires: nat -> bool, m: seq<Byte>, a: Cpu<S>,
                           n: nat, rerun: bool)
    requires Faithful(prog, ps, m) && Sound(ps, m, a.eip, rerun)
    requires n > 1 && Fetch(m, a.eip) != INT3 && !fires(n - 1)
    requires var b, m1 := StepOn(m, isa, a), if rerun then Armed(ps, |ps|, m) else m;
             Follows(prog, ps, isa, fires, b, n - 1, FirstStop(m1, b.eip), false,
                     Run(ps, isa, fires, m1, b, n - 1, false))
    ensures Follows(prog, ps, isa, fires, a, n, FirstStop(m, a.eip), rerun, Run(ps, isa, fires, m, a, n, rerun))
  {
    var b, m1 := StepOn(m, isa, a), if rerun then Armed(ps, |ps|, m) else m;
    StepFollows(prog, ps, isa, m, a, rerun);
    if Fetch(m1, b.eip) != INT3 { ListedArmed(ps, m1, b.eip); }
    FollowsOn(prog, ps, isa, fires, a, n, FirstStop(m1, b.eip), rerun, Run(ps, isa, fires, m1, b, n - 1, false));
    RunGoesOn(ps, isa, fires, m, a, n, rerun);
  }

  lemma StopFollows<S>(prog: seq<Byte>, ps: seq<Point>, isa: Isa<S>, fires: nat -> bool, m: seq<Byte>, a: Cpu<S>,
                       n: nat, rerun: bool)
    requires Faithful(prog, ps, m) && Sound(ps, m, a.eip, rerun)
    requires n > 0 && (Fetch(m, a.eip) == INT3 || n == 1 || fires(n - 1))
    ensures Follows(prog, ps, isa, fires, a, n, FirstStop(m, a.eip), rerun, Run(ps, isa, fires, m, a, n, rerun))
  {
    var r := Run(ps, isa, fires, m, a, n, rerun);
    StepFollows(prog, ps, isa, m, a, rerun);
    if Fetch(m, a.eip) == INT3 && Listed(ps, a.eip) {
      FollowsNot(prog, ps, isa, fires, a, n, rerun, r);
    } else {
      FollowsOnce(prog, ps, isa, fires, a, n, FirstStop(m, a.eip), rerun, r);
    }
  }

  lemma OneInstruction<S>(prog: seq<Byte>, ps: seq<Point>, isa: Isa<S>, fires: nat -> bool, a: Cpu<S>, n: nat,
                          first: nat)
    requires n > 0 && (n == 1 || !Quiet(prog, ps, isa, fires, a, n, 0)) && (first == 0 ==> Free(prog, ps, isa, a, 0))
    ensures GoesFar(prog, ps, isa, fires, a, n, first, 1, false)
  {
  }

  // What a run of n instructions leaves in memory, and how it reports a stop: BREAK if instructions were left and no
  // watchpoint fired, READY if not.
  ghost predicate Leaves<S>(prog: seq<Byte>, ps: seq<Point>, fires: nat -> bool, n: nat, r: Ran<S>) {
    Faithful(prog, ps, r.mem) && (r.state == READY || r.state == BREAK) &&
    if r.hit then
      r.k < n && HitLeaves(prog, ps, r.mem, r.cpu.eip) && (r.state == BREAK <==> r.k + 1 < n && !fires(n - r.k - 1))
    else ArmedAll(ps, r.mem) && 0 < r.k <= n && (r.state == BREAK <==> r.k < n && !fires(n - r.k))
  }

  // The breakpoint at eip is disarmed and no other.
  ghost predicate HitLeaves(prog: seq<Byte>, ps: seq<Point>, m: seq<Byte>, eip: nat) {
    ArmedExcept(ps, m, eip) && (ArmedAll(ps, m) <==> Fetch(prog, eip) == INT3)
  }

  lemma {:induction false} RunLeaves<S>(prog: seq<Byte>, ps: seq<Point>, isa: Isa<S>, fires: nat -> bool, m: seq<Byte>,
                                        a: Cpu<S>, n: nat, rerun: bool)
    requires Faithful(prog, ps, m) && Sound(ps, m, a.eip, rerun) && n > 0
    ensures Leaves(prog, ps, fires, n, Run(ps, isa, fires, m, a, n, rerun))
    decreases n
  {
    ReadyToGoOn(prog, ps, m, a.eip, rerun);
    if Fetch(m, a.eip) == INT3 || n == 1 || fires(n - 1) {
      StopLeaves(prog, ps, isa, fires, m, a, n, rerun);
    } else {
      var b, m1 := StepOn(m, isa, a), if rerun then Armed(ps, |ps|, m) else m;
      RunLeaves(prog, ps, isa, fires, m1, b, n - 1, false);
      LeavesOn(prog, ps, fires, n, Run(ps, isa, fires, m1, b, n - 1, false));
      RunGoesOn(ps, isa, fires, m, a, n, rerun);
    }
  }

  lemma RunGoesOn<S>(ps: seq<Point>, isa: Isa<S>, fires: nat -> bool, m: seq<Byte>, a: Cpu<S>, n: nat, rerun: bool)
    requires n > 1 && Fetch(m, a.eip) != INT3 && !fires(n - 1)
    ensures var m1 := if rerun then Armed(ps, |ps|, m) else m;
            var r := Run(ps, isa, fires, m1, StepOn(m, isa, a), n - 1, false);
            Run(ps, isa, fires, m, a, n, rerun) == r.(k := r.k + 1)
  {
  }

  lemma StopLeaves<S>(prog: seq<Byte>, ps: seq<Point>, isa: Isa<S>, fires: nat -> bool, m: seq<Byte>,
                      a: Cpu<S>, n: nat, rerun: bool)
    requires n > 0 && (Fetch(m, a.eip) == INT3 || n == 1 || fires(n - 1))
    requires var m1 := if rerun then Armed(ps, |ps|, m) else m; Faithful(prog, ps, m1) && ArmedAll(ps, m1)
    ensures Leaves(prog, ps, fires, n, Run(ps, isa, fires, m, a, n, rerun))
  {
    if Fetch(m, a.eip) == INT3 && Listed(ps, a.eip) {
      var m1 := if rerun then Armed(ps, |ps|, m) else m;
      HitIsLeft(prog, ps, fires, n, m1, a.eip, Run(ps, isa, fires, m, a, n, rerun));
    }
  }

  lemma HitIsLeft<S>(prog: seq<Byte>, ps: seq<Point>, fires: nat -> bool, n: nat, m: seq<Byte>, eip: nat, r: Ran<S>)
    requires Faithful(prog, ps, m) && ArmedAll(ps, m) && Listed(ps, eip) && n > 0
    requires r.mem == Undo(ps[Newest(ps, eip)], m) && r.cpu.eip == eip && r.k == 0 && r.hit
    requires r.state == if n == 1 || fires(n - 1) then READY else BREAK
    ensures Leaves(prog, ps, fires, n, r)
  {
    DisarmedByHit(prog, ps, m, Newest(ps, eip));
  }

  lemma LeavesOn<S>(prog: seq<Byte>, ps: seq<Point>, fires: nat -> bool, n: nat, r: Ran<S>)
    requires n > 0 && Leaves(prog, ps, fires, n - 1, r)
    ensures Leaves(prog, ps, fires, n, r.(k := r.k + 1))
  {
  }

  // A breakpoint is hit by the last instruction asked for, or together with a watchpoint, which is reported as
  // READY.
  ghost predicate HitAsReady<S>(prog: seq<Byte>, ps: seq<Point>, isa: Isa<S>, fires: nat -> bool, a: Cpu<S>, n: nat,
                                first: nat, k: nat) {
    k < n && GoesFar(prog, ps, isa, fires, a, n, first, k, true) && (k + 1 == n || fires(n - k - 1)) &&
    Fetch(prog, SeenPath(prog, ps, isa, a, k).eip) != INT3
  }

  // That happens on the way, or no instruction is asked for of a machine at a disarmed breakpoint.
  ghost predicate LosesBreakpoint<S>(prog: seq<Byte>, ps: seq<Point>, isa: Isa<S>, fires: nat -> bool, m: seq<Byte>,
                                     a: Cpu<S>, n: nat) {
    if n == 0 then Listed(ps, a.eip) && Fetch(m, a.eip) != INT3
    else exists k: nat :: HitAsReady(prog, ps, isa, fires, a, n, FirstStop(m, a.eip), k)
  }

  // The next run finds what it relies on if and only if this one does not lose a breakpoint so.
  lemma ConsistentIff<S>(prog: seq<Byte>, ps: seq<Point>, isa: Isa<S>, fires: nat -> bool, m: seq<Byte>,
                         a: Cpu<S>, n: nat, rerun: bool)
    requires Faithful(prog, ps, m) && Sound(ps, m, a.eip, rerun)
    ensures var r := Run(ps, isa, fires, m, a, n, rerun);
            Consistent(r.state, ps, r.mem, r.cpu.eip) <==> !LosesBreakpoint(prog, ps, isa, fires, m, a, n)
  {
    if n == 0 {
      DisarmedHere(ps, m, a.eip);
    } else {
      RunFollows(prog, ps, isa, fires, m, a, n, rerun);
      RunLeaves(prog, ps, isa, fires, m, a, n, rerun);
      HitDecides(prog, ps, isa, fires, a, n, FirstStop(m, a.eip), Run(ps, isa, fires, m, a, n, rerun));
    }
  }

  lemma HitDecides<S>(prog: seq<Byte>, ps: seq<Point>, isa: Isa<S>, fires: nat -> bool, a: Cpu<S>, n: nat,
                      first: nat, r: Ran<S>)
    requires GoesFar(prog, ps, isa, fires, a, n, first, r.k, r.hit) && r.cpu == SeenPath(prog, ps, isa, a, r.k)
    requires Leaves(prog, ps, fires, n, r)
    ensures Consistent(r.state, ps, r.mem, r.cpu.eip) <==>
            !exists k: nat :: HitAsReady(prog, ps, isa, fires, a, n, first, k)
  {
    forall k: nat | HitAsReady(prog, ps, isa, fires, a, n, first, k) ensures k == r.k && r.hit {
      GoesFarOnce(prog, ps, isa, fires, a, n, first, k, true, r.k, r.hit);
    }
    assert r.hit && (r.k + 1 == n || fires(n - r.k - 1)) && Fetch(prog, r.cpu.eip) != INT3 ==>
      HitAsReady(prog, ps, isa, fires, a, n, first, r.k);
  }

  lemma DisarmedHere(ps: seq<Point>, m: seq<Byte>, eip: nat)
    requires ArmedExcept(ps, m, eip)
    ensures ArmedAll(ps, m) <==> !(Listed(ps, eip) && Fetch(m, eip) != INT3)
  {
    if Listed(ps, eip) {
      var k :| 0 <= k < |ps| && IsAt(ps[k], eip);
      assert ArmedAll(ps, m) ==> Fetch(m, ps[k].addr) == INT3;
    }
  }

  // Single-stepping onto a breakpoint loses it ...
  lemma StepOntoBreakpoint<S>(prog: seq<Byte>, ps: seq<Point>, isa: Isa<S>, fires: nat -> bool, m: seq<Byte>, a: Cpu<S>)
    requires Faithful(prog, ps, m) && ArmedAll(ps, m) && Listed(ps, a.eip) && Fetch(prog, a.eip) != INT3
    ensures var r := Run(ps, isa, fires, m, a, 1, false);
            r.hit && r.k == 0 && r.cpu == a && r.state == READY && Fetch(r.mem, a.eip) != INT3 &&
            LosesBreakpoint(prog, ps, isa, fires, m, a, 1)
  {
    DisarmedHere(ps, m, a.eip);
    RunLeaves(prog, ps, isa, fires, m, a, 1, false);
    DisarmedHere(ps, Run(ps, isa, fires, m, a, 1, false).mem, a.eip);
    assert !Free(prog, ps, isa, a, 0);
    assert FirstStop(m, a.eip) == 0;
    assert HitAsReady(prog, ps, isa, fires, a, 1, FirstStop(m, a.eip), 0);
  }

  // ... and the next run passes over it, however far it goes.
  lemma {:induction false} LostIsPassed<S>(ps: seq<Point>, isa: Isa<S>, fires: nat -> bool, m: seq<Byte>, a: Cpu<S>,
                                           n: nat, x: nat)
    requires Fetch(m, x) != INT3
    ensures var r := Run(ps, isa, fires, m, a, n, false); (r.hit ==> r.cpu.eip != x) && Fetch(r.mem, x) != INT3
    decreases n
  {
    if n > 1 && !fires(n - 1) && Fetch(m, a.eip) != INT3 {
      LostIsPassed(ps, isa, fires, m, StepOn(m, isa, a), n - 1, x);
    }
  }

  // A patch byte of the program's own stops it just behind.
  lemma OwnPatchByte<S>(ps: seq<Point>, isa: Isa<S>, fires: nat -> bool, m: seq<Byte>, a: Cpu<S>, n: nat, rerun: bool)
    requires n > 0 && Fetch(m, a.eip) == INT3 && !Listed(ps, a.eip)
    ensures var r := Run(ps, isa, fires, m, a, n, rerun);
            r.cpu == Cpu(a.regs, a.eip + 1) && r.k == 1 && !r.hit && (n > 1 && !fires(n - 1) ==> r.state == BREAK)
  {
  }

  // ----- breakpoints inside instructions -----

  // A breakpoint hides byte i of the instruction at eip.
  ghost predicate Hides(prog: seq<Byte>, ps: seq<Point>, eip: nat, i: nat) {
    eip + i < |prog| && Listed(ps, eip + i) && prog[eip + i] != INT3
  }

  // None hides a byte among the first n but the opcode, where the processor stands.
  ghost predicate Whole(prog: seq<Byte>, ps: seq<Point>, eip: nat, n: nat) {
    forall i :: 1 <= i < n ==> !Hides(prog, ps, eip, i)
  }

  // The instruction at eip is whole.
  ghost predicate WholeInstruction<S>(prog: seq<Byte>, ps: seq<Point>, isa: Isa<S>, eip: nat) {
    Fetch(prog, eip) != INT3 ==> Whole(prog, ps, eip, Length(prog, isa, eip, 1))
  }

  lemma AppendSame(s: seq<Byte>, x: Byte, t: seq<Byte>, y: Byte)
    requires |s| == |t|
    ensures s + [x] == t + [y] <==> s == t && x == y
  {
    if s + [x] == t + [y] {
      assert s == (s + [x])[..|s|] && t == (t + [y])[..|s|];
      assert x == (s + [x])[|s|] && y == (t + [y])[|s|];
    }
  }

  lemma ByteSeen(prog: seq<Byte>, ps: seq<Point>, eip: nat, i: nat)
    ensures Fetch(Overlay(prog, ps, eip), eip + i) == Fetch(prog, eip + i) <==> i == 0 || !Hides(prog, ps, eip, i)
  {
  }

  lemma WholeStep(prog: seq<Byte>, ps: seq<Point>, eip: nat, n: nat)
    ensures Whole(prog, ps, eip, n + 1) <==> Whole(prog, ps, eip, n) && (n == 0 || !Hides(prog, ps, eip, n))
  {
  }

  lemma OneMoreByte(m: seq<Byte>, m': seq<Byte>, eip: nat, n: nat)
    ensures Bytes(m, eip, n + 1) == Bytes(m', eip, n + 1) <==>
            Bytes(m, eip, n) == Bytes(m', eip, n) && Fetch(m, eip + n) == Fetch(m', eip + n)
  {
    BytesLength(m, eip, n);
    BytesLength(m', eip, n);
    AppendSame(Bytes(m, eip, n), Fetch(m, eip + n), Bytes(m', eip, n), Fetch(m', eip + n));
  }

  lemma {:induction false} SameBytes(prog: seq<Byte>, ps: seq<Point>, eip: nat, n: nat)
    ensures Bytes(Overlay(prog, ps, eip), eip, n) == Bytes(prog, eip, n) <==> Whole(prog, ps, eip, n)
  {
    if n > 0 {
      var m := Overlay(prog, ps, eip);
      SameBytes(prog, ps, eip, n - 1);
      ByteSeen(prog, ps, eip, n - 1);
      WholeStep(prog, ps, eip, n - 1);
      OneMoreByte(m, prog, eip, n - 1);
    }
  }

  lemma {:induction false} BytesLength(m: seq<Byte>, eip: nat, n: nat)
    ensures |Bytes(m, eip, n)| == n
  {
    if n > 0 { BytesLength(m, eip, n - 1); }
  }

  lemma {:induction false} SameLength<S>(prog: seq<Byte>, ps: seq<Point>, isa: Isa<S>, eip: nat, n: nat)
    requires 1 <= n <= MAX_LENGTH && Whole(prog, ps, eip, Length(prog, isa, eip, n))
    ensures Length(Overlay(prog, ps, eip), isa, eip, n) == Length(prog, isa, eip, n)
    decreases MAX_LENGTH - n
  {
    SameBytes(prog, ps, eip, n);
    if n < MAX_LENGTH && !isa.complete(Bytes(prog, eip, n)) { SameLength(prog, ps, isa, eip, n + 1); }
  }

  // The processor fetches the instruction of the program if and only if no breakpoint hides a byte inside it.
  lemma InstructionSeenIff<S>(prog: seq<Byte>, ps: seq<Point>, isa: Isa<S>, eip: nat)
    requires Fetch(prog, eip) != INT3
    ensures Instruction(Overlay(prog, ps, eip), isa, eip) == Instruction(prog, isa, eip)
            <==> WholeInstruction(prog, ps, isa, eip)
  {
    var m := Overlay(prog, ps, eip);
    var l := Length(prog, isa, eip, 1);
    SameBytes(prog, ps, eip, l);
    if Whole(prog, ps, eip, l) {
      SameLength(prog, ps, isa, eip, 1);
    } else {
      BytesLength(prog, eip, l);
      BytesLength(m, eip, Length(m, isa, eip, 1));
    }
  }

  lemma StepIsSeen<S>(prog: seq<Byte>, ps: seq<Point>, isa: Isa<S>, a: Cpu<S>)
    requires WholeInstruction(prog, ps, isa, a.eip)
    ensures SeenStep(prog, ps, isa, a) == StepOn(prog, isa, a)
  {
    ByteSeen(prog, ps, a.eip, 0);
    if Fetch(prog, a.eip) != INT3 { InstructionSeenIff(prog, ps, isa, a.eip); }
  }

  // With whole instructions all the way the run is that of the unpatched program.
  lemma {:induction false} PathIsSeen<S>(prog: seq<Byte>, ps: seq<Point>, isa: Isa<S>, a: Cpu<S>, k: nat)
    requires forall j :: 0 <= j < k ==> WholeInstruction(prog, ps, isa, Path(prog, isa, a, j).eip)
    ensures SeenPath(prog, ps, isa, a, k) == Path(prog, isa, a, k)
    decreases k
  {
    if k > 0 {
      var b := StepOn(prog, isa, a);
      assert Path(prog, isa, a, 0) == a;
      StepIsSeen(prog, ps, isa, a);
      forall j | 0 <= j < k - 1 ensures WholeInstruction(prog, ps, isa, Path(prog, isa, b, j).eip) {
        assert Path(prog, isa, b, j) == Path(prog, isa, a, j + 1);
      }
      PathIsSeen(prog, ps, isa, b, k - 1);
    }
  }

  // The debugged run is the program's own, if no breakpoint is inside one of the instructions it executes.
  lemma RunIsTransparent<S>(prog: seq<Byte>, ps: seq<Point>, isa: Isa<S>, fires: nat -> bool, m: seq<Byte>,
                            a: Cpu<S>, n: nat, rerun: bool)
    requires Faithful(prog, ps, m) && Sound(ps, m, a.eip, rerun)
    requires forall j :: 0 <= j < Run(ps, isa, fires, m, a, n, rerun).k ==>
               WholeInstruction(prog, ps, isa, Path(prog, isa, a, j).eip)
    ensures var r := Run(ps, isa, fires, m, a, n, rerun); r.k <= n && r.cpu == Path(prog, isa, a, r.k)
  {
    RunFollows(prog, ps, isa, fires, m, a, n, rerun);
    PathIsSeen(prog, ps, isa, a, Run(ps, isa, fires, m, a, n, rerun).k);
  }

  // A two-byte instruction that loads its second byte.
  function LoadIsa(): Isa<int> {
    Isa((bs: seq<Byte>) => |bs| >= 2,
        (c: Cpu<int>, bs: seq<Byte>) => Cpu(if |bs| >= 2 then bs[1] as int else 0, c.eip + 2))
  }

  lemma TwoBytes(m: seq<Byte>)
    requires |m| == 2
    ensures |Bytes(m, 0, 1)| == 1 && Bytes(m, 0, 2) == m
  {
    BytesLength(m, 0, 1);
    BytesLength(m, 0, 2);
    assert Bytes(m, 0, 1) == [] + [m[0]];
    assert Bytes(m, 0, 2) == [m[0]] + [m[1]];
  }

  // With a breakpoint on that byte it loads the patch.
  lemma InsideBreakpoint()
    ensures var prog, ps, a := [1, 7], [Point(0, 1, 7, false)], Cpu(0, 0);
            StepOn(prog, LoadIsa(), a).regs == 7 && SeenStep(prog, ps, LoadIsa(), a).regs == INT3
  {
    var prog: seq<Byte>, ps := [1, 7], [Point(0, 1, 7, false)];
    assert IsAt(ps[0], 1) && !IsAt(ps[0], 0);
    var m := Overlay(prog, ps, 0);
    assert m == [1, INT3];
    TwoBytes(prog);
    TwoBytes(m);
  }

  // ----- the code -----

  // One instruction: from m and a to m' and b.
  ghost predicate Executed<S>(ps: seq<Point>, isa: Isa<S>, m: seq<Byte>, a: Cpu<S>, rerun: bool,
                              m': seq<Byte>, b: Cpu<S>, state: NemuState, hit: bool) {
    var m1 := if rerun then Armed(ps, |ps|, m) else m;
    hit == (Fetch(m, a.eip) == INT3 && Listed(ps, a.eip)) &&
    state == (if Fetch(m, a.eip) == INT3 then BREAK else RUN) &&
    if hit then b == a && m' == Undo(ps[Newest(ps, a.eip)], m1) else b == StepOn(m, isa, a) && m' == m1
  }

  // The run whole, k instructions into it.
  ghost predicate Rest<S>(whole: Ran<S>, rest: Ran<S>, k: nat) { whole == rest.(k := rest.k + k) }

  // In the loop, with n instructions to go; when it stops the run is over.
  ghost predicate OnTheWay<S>(whole: Ran<S>, ps: seq<Point>, isa: Isa<S>, fires: nat -> bool, m: seq<Byte>, a: Cpu<S>,
                              n: nat, rerun: bool, state: NemuState, k: nat, hit: bool) {
    if state == RUN then !hit && Rest(whole, Run(ps, isa, fires, m, a, n, rerun), k)
    else whole == Ran(a, m, if n == 0 then READY else state, k, hit)
  }

  lemma StepOnTheWay<S>(whole: Ran<S>, ps: seq<Point>, isa: Isa<S>, fires: nat -> bool, m: seq<Byte>, a: Cpu<S>, n: nat,
                        rerun: bool, k: nat, m': seq<Byte>, b: Cpu<S>, state: NemuState, hit: bool)
    requires OnTheWay(whole, ps, isa, fires, m, a, n + 1, rerun, RUN, k, false)
    requires Executed(ps, isa, m, a, rerun, m', b, state, hit)
    ensures OnTheWay(whole, ps, isa, fires, m', b, n, false, if fires(n) then READY else state,
                     if hit then k else k + 1, hit)
  {
  }

  lemma EndOfWay<S>(whole: Ran<S>, ps: seq<Point>, isa: Isa<S>, fires: nat -> bool, m: seq<Byte>, a: Cpu<S>, n: nat,
                    rerun: bool, state: NemuState, k: nat, hit: bool)
    requires OnTheWay(whole, ps, isa, fires, m, a, n, rerun, state, k, hit) && (n == 0 || state != RUN)
    ensures whole == Ran(a, m, if n == 0 then READY else state, k, hit)
  {
  }

  class Debugger<S> {
    const bps: Manager
    const isa: Isa<S>
    var cpu: Cpu<S>
    var state: NemuState

    constructor (bps: Manager, isa: Isa<S>, cpu: Cpu<S>)
      ensures this.bps == bps && this.isa == isa && this.cpu == cpu && state == READY
    {
      this.bps, this.isa, this.cpu := bps, isa, cpu;
      state := READY;
    }

    method FetchByte(eip: nat) returns (b: Byte)
      ensures b == Fetch(bps.mem[..], eip)
    {
      b := if eip < bps.mem.Length then bps.mem[eip] else 0;
    }

    // The decoders: as many bytes as the instruction has.
    method FetchMore(opcode: Byte) returns (bytes: seq<Byte>)
      requires opcode == Fetch(bps.mem[..], cpu.eip)
      ensures bytes == Instruction(bps.mem[..], isa, cpu.eip)
    {
      ghost var m := bps.mem[..];
      var n := 1;
      bytes := [opcode];
      assert Bytes(m, cpu.eip, 0) == [];
      while n < MAX_LENGTH && !isa.complete(bytes)
        invariant 1 <= n <= MAX_LENGTH && bytes == Bytes(m, cpu.eip, n)
        invariant Length(m, isa, cpu.eip, n) == Length(m, isa, cpu.eip, 1)
      {
        OneByteMore(m, isa, cpu.eip, n);
        var b := FetchByte(cpu.eip + n);
        bytes := bytes + [b];
        n := n + 1;
      }
    }

    // exec_inst: the opcode, then as many bytes as the instruction has.
    method ExecInst()
      modifies this
      ensures cpu == StepOn(bps.mem[..], isa, old(cpu))
      ensures state == if Fetch(bps.mem[..], old(cpu.eip)) == INT3 then BREAK else old(state)
    {
      ghost var m := bps.mem[..];
      var opcode := FetchByte(cpu.eip);
      if opcode == INT3 {
        state := BREAK;
        cpu := Cpu(cpu.regs, cpu.eip + 1);
        return;
      }
      var bytes := FetchMore(opcode);
      cpu := isa.effect(cpu, bytes);
    }

    // Lines 77-89: the stop at the breakpoint just before eip, if there is one.
    method StopAt() returns (hit: bool)
      requires bps.Valid() && cpu.eip > 0
      modifies this`cpu, bps.mem
      ensures bps.Valid() && bps.Points() == old(bps.Points())
      ensures hit == Listed(bps.Points(), (old(cpu.eip) - 1) as nat)
      ensures hit ==> cpu == old(cpu).(eip := (old(cpu.eip) - 1) as nat) &&
                      bps.mem[..] == Undo(bps.Points()[Newest(bps.Points(), cpu.eip)], old(bps.mem[..]))
      ensures !hit ==> cpu == old(cpu) && bps.mem[..] == old(bps.mem[..])
    {
      ghost var ps, m := bps.Points(), bps.mem[..];
      var at := cpu.eip - 1;
      var p;
      ghost var k;
      p, k := bps.FindBreakpoint(at);
      hit := p != NULL;
      if hit {
        assert ps[k] == PointOf(bps.pool[p]) && IsAt(ps[k], at);
        OneNewest(ps, at, k);
        if at < bps.mem.Length {
          bps.mem[at] := bps.pool[p].ori;
        }
        cpu := cpu.(eip := at);
      } else {
        assert !Listed(ps, at);
      }
    }

    // Lines 67-89: one instruction, and what follows it.
    method ExecOne(rerun: bool) returns (hit: bool)
      requires bps.Valid() && state == RUN
      modifies this, bps.pool, bps.mem
      ensures bps.Valid() && bps.Points() == old(bps.Points())
      ensures Executed(bps.Points(), isa, old(bps.mem[..]), old(cpu), rerun, bps.mem[..], cpu, state, hit)
    {
      ExecInst();
      if rerun {
        bps.ResumeBreakpoints();
      }
      hit := false;
      if state == BREAK {
        hit := StopAt();
      }
    }

    // One turn of the loop; a watchpoint that fires ends it.
    method Turn(n: nat, rerun: bool, fires: nat -> bool, ghost k: nat, ghost whole: Ran<S>)
      returns (ghost l: nat, ghost hit: bool)
      requires bps.Valid() && state == RUN
      requires OnTheWay(whole, bps.Points(), isa, fires, bps.mem[..], cpu, n + 1, rerun, state, k, false)
      modifies this, bps.pool, bps.mem
      ensures bps.Valid() && bps.Points() == old(bps.Points())
      ensures OnTheWay(whole, bps.Points(), isa, fires, bps.mem[..], cpu, n, false, state, l, hit)
    {
      ghost var ps, m, a := bps.Points(), bps.mem[..], cpu;
      hit := ExecOne(rerun);
      StepOnTheWay(whole, ps, isa, fires, m, a, n, rerun, k, bps.mem[..], cpu, state, hit);
      l := if hit then k else k + 1;
      if fires(n) {
        state := READY;
      }
    }

    // Lines 66-123.
    method Loop(n0: nat, rerun0: bool, fires: nat -> bool, ghost whole: Ran<S>) returns (ghost k: nat, ghost hit: bool)
      requires bps.Valid() && state == RUN
      requires OnTheWay(whole, bps.Points(), isa, fires, bps.mem[..], cpu, n0, rerun0, RUN, 0, false)
      modifies this, bps.pool, bps.mem
      ensures bps.Valid() && bps.Points() == old(bps.Points()) && whole == Ran(cpu, bps.mem[..], state, k, hit)
    {
      ghost var ps := bps.Points();
      var n, rerun := n0, rerun0;
      k, hit := 0, false;
      while n > 0 && state == RUN
        invariant bps.Valid() && bps.Points() == ps
        invariant OnTheWay(whole, ps, isa, fires, bps.mem[..], cpu, n, rerun, state, k, hit)
        decreases n
      {
        n := n - 1;
        k, hit := Turn(n, rerun, fires, k, whole);
        rerun := false;
      }
      EndOfWay(whole, ps, isa, fires, bps.mem[..], cpu, n, rerun, state, k, hit);
      if n == 0 {
        state := READY;
      }
    }

    // exec, for a processor that is not halted.
    method Exec(n0: nat, fires: nat -> bool) returns (ghost k: nat, ghost hit: bool)
      requires bps.Valid()
      modifies this, bps.pool, bps.mem
      ensures bps.Valid() && bps.Points() == old(bps.Points())
      ensures Ran(cpu, bps.mem[..], state, k, hit)
              == Run(old(bps.Points()), isa, fires, old(bps.mem[..]), old(cpu), n0, old(state) == BREAK)
    {
      var rerun := state == BREAK;
      state := RUN;
      k, hit := Loop(n0, rerun, fires, Run(bps.Points(), isa, fires, bps.mem[..], cpu, n0, rerun));
    }
  }

  lemma OneNewest(ps: seq<Point>, addr: nat, k: int)
    requires NewestAt(ps, addr, k)
    ensures Listed(ps, addr) && Newest(ps, addr) == k
  {
    assert IsAt(ps[k], addr);
  }
}
