/** A whole debugging session: commands that set and delete breakpoints (nemu/src/monitor/ui.c:186-284), and runs of
    the program between them. */
module Sessions {
  import opened Common
  import opened StaticPool
  import opened Breakpoints
  import opened BreakpointRuns
  import opened Execution

  datatype Command = Do(action: Action) | Go(n: nat, fires: nat -> bool)

  datatype Session<S> = Session(machine: Machine, cpu: Cpu<S>, state: NemuState)

  // The monitor sets and deletes; bytes are restored and patched again by exec alone.
  predicate FromMonitor(c: Command) {
    c.Do? ==> c.action.Set? || c.action.Watch? || c.action.Delete? || c.action.DeleteAll?
  }

  ghost function RunOf<S>(isa: Isa<S>, s: Session<S>, c: Command): Ran<S>
    requires c.Go?
  {
    Run(s.machine.points, isa, c.fires, s.machine.mem, s.cpu, c.n, s.state == BREAK)
  }

  ghost predicate Moves<S>(isa: Isa<S>, s: Session<S>, c: Command, t: Session<S>) {
    if c.Do? then Next(s.machine, c.action, t.machine) && t.cpu == s.cpu && t.state == s.state
    else var r := RunOf(isa, s, c); t == Session(Machine(s.machine.points, r.mem), r.cpu, r.state)
  }

  ghost predicate IsSession<S>(prog: seq<Byte>, isa: Isa<S>, ss: seq<Session<S>>, cs: seq<Command>) {
    |ss| == |cs| + 1 && ss[0].machine == Machine([], prog) && ss[0].state == READY &&
    forall i :: 0 <= i < |cs| ==> FromMonitor(cs[i]) && Moves(isa, ss[i], cs[i], ss[i + 1])
  }

  // Breakpoints go on addresses not in use.
  ghost predicate NoDoubles<S>(ss: seq<Session<S>>, cs: seq<Command>)
    requires |ss| == |cs| + 1
  {
    forall i :: 0 <= i < |cs| && cs[i].Do? && cs[i].action.Set? ==> !Listed(ss[i].machine.points, cs[i].action.addr)
  }

  ghost predicate Ready<S>(s: Session<S>) { Consistent(s.state, s.machine.points, s.machine.mem, s.cpu.eip) }

  ghost predicate Loses<S>(prog: seq<Byte>, isa: Isa<S>, s: Session<S>, c: Command) {
    c.Go? && LosesBreakpoint(prog, s.machine.points, isa, c.fires, s.machine.mem, s.cpu, c.n)
  }

  predicate Distinct(ps: seq<Point>) {
    forall i, j :: 0 <= i < j < |ps| && !ps[i].watch ==> !IsAt(ps[j], ps[i].addr)
  }

  // ----- what the commands keep -----

  lemma SetKeeps(ps: seq<Point>, m: seq<Byte>, p: Point, eip: nat, rerun: bool)
    requires Distinct(ps) && Sound(ps, m, eip, rerun) && (!p.watch ==> p.addr < |m| && !Listed(ps, p.addr))
    ensures var qs, m' := [p] + ps, if p.watch then m else Poke(m, p.addr, INT3);
            Distinct(qs) && Sound(qs, m', eip, rerun)
  {
    var qs, m' := [p] + ps, if p.watch then m else Poke(m, p.addr, INT3);
    forall i, j | 0 <= i < j < |qs| && !qs[i].watch ensures !IsAt(qs[j], qs[i].addr) {
      assert qs[j] == ps[j - 1] && (i > 0 ==> qs[i] == ps[i - 1]);
    }
    forall k | 0 <= k < |qs| && !qs[k].watch && (rerun ==> qs[k].addr != eip) ensures Fetch(m', qs[k].addr) == INT3 {
      if k > 0 { assert qs[k] == ps[k - 1]; }
    }
  }

  lemma DeleteKeeps(ps: seq<Point>, m: seq<Byte>, k: int, eip: nat, rerun: bool)
    requires Distinct(ps) && Sound(ps, m, eip, rerun) && 0 <= k < |ps|
    ensures Distinct(Without(ps, k)) && Sound(Without(ps, k), Undo(ps[k], m), eip, rerun)
  {
    var qs, m' := Without(ps, k), Undo(ps[k], m);
    forall i, j | 0 <= i < j < |qs| && !qs[i].watch ensures !IsAt(qs[j], qs[i].addr) {
      assert qs[j] == ps[if j < k then j else j + 1] && qs[i] == ps[if i < k then i else i + 1];
    }
    forall i | 0 <= i < |qs| && !qs[i].watch && (rerun ==> qs[i].addr != eip) ensures Fetch(m', qs[i].addr) == INT3 {
      var j := if i < k then i else i + 1;
      assert qs[i] == ps[j] && Fetch(m, ps[j].addr) == INT3;
      assert ps[k].watch || ps[k].addr != ps[j].addr;
    }
  }

  lemma CommandKeeps(prog: seq<Byte>, s: Machine, a: Action, t: Machine, eip: nat, rerun: bool)
    requires Ok(prog, s) && Distinct(s.points) && Sound(s.points, s.mem, eip, rerun)
    requires Next(s, a, t) && FromMonitor(Do(a)) && (a.Set? ==> !Listed(s.points, a.addr))
    ensures Ok(prog, t) && Distinct(t.points) && Sound(t.points, t.mem, eip, rerun)
  {
    if a.Set? { assert Accounted(prog, s.points, s.mem, a.addr); }
    StepKeeps(prog, s, a, t);
    match a
    case Set(addr) =>
      if s != t {
        var no :| t.points == [Point(no, addr, s.mem[addr], false)] + s.points;
        SetKeeps(s.points, s.mem, Point(no, addr, s.mem[addr], false), eip, rerun);
      }
    case Watch =>
      if s != t {
        var no :| t.points == [Point(no, 0, 0, true)] + s.points;
        SetKeeps(s.points, s.mem, Point(no, 0, 0, true), eip, rerun);
      }
    case Delete(no) =>
      if !(s == t && NoNumber(s.points, no)) {
        var k :| 0 <= k < |s.points| && s.points[k].no == no &&
                 t.points == Without(s.points, k) && t.mem == Undo(s.points[k], s.mem);
        DeleteKeeps(s.points, s.mem, k, eip, rerun);
      }
    case DeleteAll =>
  }

  // ----- whole sessions -----

  ghost predicate Keeps<S>(prog: seq<Byte>, s: Session<S>) { Ok(prog, s.machine) && Distinct(s.machine.points) }

  // From a state that is ready a command leads to one, except a run that loses a breakpoint.
  lemma MoveKeeps<S>(prog: seq<Byte>, isa: Isa<S>, s: Session<S>, c: Command, t: Session<S>)
    requires Keeps(prog, s) && Ready(s) && FromMonitor(c) && Moves(isa, s, c, t)
    requires c.Do? && c.action.Set? ==> !Listed(s.machine.points, c.action.addr)
    ensures Keeps(prog, t) && (Ready(t) <==> !Loses(prog, isa, s, c))
  {
    var ps, m, eip, rerun := s.machine.points, s.machine.mem, s.cpu.eip, s.state == BREAK;
    match c
    case Do(a) =>
      CommandKeeps(prog, s.machine, a, t.machine, eip, rerun);
    case Go(n, fires) =>
      ConsistentIff(prog, ps, isa, fires, m, s.cpu, n, rerun);
      if n > 0 { RunLeaves(prog, ps, isa, fires, m, s.cpu, n, rerun); }
  }

  lemma {:induction false} SessionKeeps<S>(prog: seq<Byte>, isa: Isa<S>, ss: seq<Session<S>>, cs: seq<Command>, n: nat)
    requires IsSession(prog, isa, ss, cs) && NoDoubles(ss, cs) && n <= |cs|
    requires forall i :: 0 <= i < n ==> !Loses(prog, isa, ss[i], cs[i])
    ensures Keeps(prog, ss[n]) && Ready(ss[n])
  {
    if n > 0 {
      SessionKeeps(prog, isa, ss, cs, n - 1);
      MoveKeeps(prog, isa, ss[n - 1], cs[n - 1], ss[n]);
    }
  }

  // Throughout a session every run finds what it relies on if and only if none loses a breakpoint.
  lemma SessionIff<S>(prog: seq<Byte>, isa: Isa<S>, ss: seq<Session<S>>, cs: seq<Command>)
    requires IsSession(prog, isa, ss, cs) && NoDoubles(ss, cs)
    ensures (forall i :: 0 <= i < |ss| ==> Ready(ss[i])) <==>
            (forall i :: 0 <= i < |cs| ==> !Loses(prog, isa, ss[i], cs[i]))
  {
    if forall i :: 0 <= i < |cs| ==> !Loses(prog, isa, ss[i], cs[i]) {
      forall i | 0 <= i < |ss| ensures Ready(ss[i]) { SessionKeeps(prog, isa, ss, cs, i); }
    } else if forall i :: 0 <= i < |ss| ==> Ready(ss[i]) {
      FirstLoss(prog, isa, ss, cs, |cs|);
    }
  }

  lemma {:induction false} FirstLoss<S>(prog: seq<Byte>, isa: Isa<S>, ss: seq<Session<S>>, cs: seq<Command>, n: nat)
    requires IsSession(prog, isa, ss, cs) && NoDoubles(ss, cs) && n <= |cs|
    requires forall i :: 0 <= i < |ss| ==> Ready(ss[i])
    ensures Keeps(prog, ss[n]) && forall i :: 0 <= i < n ==> !Loses(prog, isa, ss[i], cs[i])
  {
    if n > 0 {
      FirstLoss(prog, isa, ss, cs, n - 1);
      MoveKeeps(prog, isa, ss[n - 1], cs[n - 1], ss[n]);
    }
  }

  // Then each of its runs stops exactly where it should, and executes the program's own instructions if no
  // breakpoint is inside one of them.
  lemma SessionRuns<S>(prog: seq<Byte>, isa: Isa<S>, ss: seq<Session<S>>, cs: seq<Command>, i: nat)
    requires IsSession(prog, isa, ss, cs) && NoDoubles(ss, cs) && i < |cs| && cs[i].Go?
    requires forall j :: 0 <= j < i ==> !Loses(prog, isa, ss[j], cs[j])
    ensures var s, r := ss[i], RunOf(isa, ss[i], cs[i]);
            Follows(prog, s.machine.points, isa, cs[i].fires, s.cpu, cs[i].n, FirstStop(s.machine.mem, s.cpu.eip),
                    s.state == BREAK, r) &&
            ((forall j :: 0 <= j < r.k ==> WholeInstruction(prog, s.machine.points, isa, Path(prog, isa, s.cpu, j).eip))
             ==> r.cpu == Path(prog, isa, s.cpu, r.k))
  {
    var s, c := ss[i], cs[i];
    SessionKeeps(prog, isa, ss, cs, i);
    RunFollows(prog, s.machine.points, isa, c.fires, s.machine.mem, s.cpu, c.n, s.state == BREAK);
    var r := RunOf(isa, s, c);
    if forall j :: 0 <= j < r.k ==> WholeInstruction(prog, s.machine.points, isa, Path(prog, isa, s.cpu, j).eip) {
      RunIsTransparent(prog, s.machine.points, isa, c.fires, s.machine.mem, s.cpu, c.n, s.state == BREAK);
    }
  }

  // ----- the code -----

  ghost function SessionOf<S>(d: Debugger<S>): Session<S>
    reads d, d.bps, d.bps.pool, d.bps.mem
    requires d.bps.Valid()
  {
    Session(StateOf(d.bps), d.cpu, d.state)
  }

  // One command of the monitor.
  method Obey<S>(d: Debugger<S>, c: Command)
    requires d.bps.Valid() && (c.Do? && c.action.Set? ==> c.action.addr < d.bps.mem.Length)
    modifies d, d.bps, d.bps.pool, d.bps.mem
    ensures d.bps.Valid() && Moves(d.isa, old(SessionOf(d)), c, SessionOf(d))
  {
    match c
    case Do(a) => Perform(d.bps, a);
    case Go(n, fires) => ghost var k, hit := d.Exec(n, fires);
  }

  // Any session, from a machine without breakpoints on.
  method Play<S>(d: Debugger<S>, cs: seq<Command>) returns (ghost ss: seq<Session<S>>)
    requires d.bps.Valid() && d.bps.Points() == [] && d.state == READY
    requires forall i :: 0 <= i < |cs| ==>
               FromMonitor(cs[i]) && (cs[i].Do? && cs[i].action.Set? ==> cs[i].action.addr < d.bps.mem.Length)
    modifies d, d.bps, d.bps.pool, d.bps.mem
    ensures d.bps.Valid() && IsSession(old(d.bps.mem[..]), d.isa, ss, cs)
    ensures ss[0].cpu == old(d.cpu) && ss[|cs|] == SessionOf(d)
  {
    ghost var prog := d.bps.mem[..];
    ss := [SessionOf(d)];
    for i := 0 to |cs|
      invariant d.bps.Valid() && |ss| == i + 1 && ss[i] == SessionOf(d)
      invariant ss[0].machine == Machine([], prog) && ss[0].state == READY && ss[0].cpu == old(d.cpu)
      invariant forall j :: 0 <= j < i ==> Moves(d.isa, ss[j], cs[j], ss[j + 1])
    {
      Obey(d, cs[i]);
      ss := ss + [SessionOf(d)];
    }
  }
}
