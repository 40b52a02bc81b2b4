/** The interrupt controller (nemu/src/device/i8259_pic.c) and the CPU's end of the handshake
    (do_intr, nemu/src/cpu/cpu.c:144-155), first as sequential code and then as the interleaved steps
    of any number of device threads and the CPU thread. */
module Pic {
  import opened Common

  const IRQ_BASE := 32
  const I8259_NO_INTR := 255

  type Irq = i: int | 0 <= i < 256

  // uint8_t arithmetic wraps.
  function Vector(irq: Irq): Irq { (irq + IRQ_BASE) % 256 }

  // What a raise leaves in i8259_intr_no; the comparison is made in int.
  function Absorb(no: Irq, irq: Irq): Irq {
    if no == I8259_NO_INTR || irq > no - IRQ_BASE then Vector(irq) else no
  }

  // The vector pending after a row of raises.
  function Pending(raises: seq<Irq>): Irq {
    if raises == [] then I8259_NO_INTR
    else Absorb(Pending(raises[..|raises| - 1]), raises[|raises| - 1])
  }

  // ----- the code, run without interruption -----

  class Controller {
    var intrNo: Irq
    var intr: bool      // cpu.intr
    ghost var raises: seq<Irq>   // since the last acknowledgement

    ghost predicate Valid()
      reads this
    {
      intrNo == Pending(raises) && (intr <==> raises != [])
    }

    constructor ()
      ensures Valid() && raises == []
    {
      intrNo := I8259_NO_INTR;
      intr := false;
      raises := [];
    }

    method RaiseIntr(irq: Irq)
      requires Valid()
      modifies this
      ensures Valid() && raises == old(raises) + [irq]
    {
      if intrNo == I8259_NO_INTR || (intrNo != I8259_NO_INTR && irq > intrNo - IRQ_BASE) {
        intrNo := (irq + IRQ_BASE) % 256;
      }
      intr := true;
      raises := raises + [irq];
    }

    method AckIntr()
      requires Valid()
      modifies this
      ensures Valid() && raises == []
    {
      intrNo := I8259_NO_INTR;
      intr := false;
      raises := [];
    }

    // Takes the pending vector if interrupts are enabled; the assertion fails if that is the mark for none.
    method DoIntr(IF: bool) returns (outcome: Handled)
      requires Valid()
      modifies this
      ensures Valid()
      ensures outcome == if !IF || old(raises) == [] then Nothing
                         else if Pending(old(raises)) == I8259_NO_INTR then AssertionFails
                         else Took(Pending(old(raises)))
      ensures raises == if outcome.Took? then [] else old(raises)
      ensures outcome.Took? ==> outcome.vector in Vectors(old(raises))
      ensures outcome == AssertionFails ==> NO_INTR_IRQ in old(raises)
    {
      outcome := Nothing;
      if intr && IF {
        PendingRaised(raises);
        var vector := intrNo;
        if vector == I8259_NO_INTR {
          return AssertionFails;
        }
        AckIntr();
        outcome := Took(vector);
      }
    }
  }

  datatype Handled = Nothing | Took(vector: Irq) | AssertionFails

  function Vectors(raises: seq<Irq>): set<Irq> { set i | i in raises :: Vector(i) }

  const NO_INTR_IRQ: Irq := 223

  // What is pending was raised, and reads as "nothing" only when nothing was.
  lemma {:induction false} PendingRaised(raises: seq<Irq>)
    requires raises != []
    ensures Pending(raises) in Vectors(raises)
    ensures NO_INTR_IRQ !in raises ==> Pending(raises) != I8259_NO_INTR
  {
    var front := raises[..|raises| - 1];
    assert raises == front + [raises[|raises| - 1]];
    if front != [] { PendingRaised(front); }
  }

  // The raises after the last one whose vector is the mark or wraps around.
  function Recent(raises: seq<Irq>): seq<Irq> {
    if raises == [] then []
    else if raises[|raises| - 1] >= NO_INTR_IRQ then []
    else Recent(raises[..|raises| - 1]) + [raises[|raises| - 1]]
  }

  // Without any of those it is all of them.
  lemma {:induction false} RecentIsAll(raises: seq<Irq>)
    requires forall i :: i in raises ==> i < NO_INTR_IRQ
    ensures Recent(raises) == raises
  {
    if raises != [] {
      var front := raises[..|raises| - 1];
      assert raises == front + [raises[|raises| - 1]] && raises[|raises| - 1] in raises;
      forall i | i in front ensures i < NO_INTR_IRQ { assert i in raises; }
      RecentIsAll(front);
    }
  }

  predicate IsLargest(no: Irq, irqs: seq<Irq>) {
    no != I8259_NO_INTR && no - IRQ_BASE in irqs && forall i :: i in irqs ==> i <= no - IRQ_BASE
  }

  lemma AbsorbedIsLargest(irqs: seq<Irq>, no: Irq, irq: Irq)
    requires irq < NO_INTR_IRQ && if irqs == [] then no == I8259_NO_INTR || no < IRQ_BASE else IsLargest(no, irqs)
    ensures IsLargest(Absorb(no, irq), irqs + [irq])
  {
    assert irq in irqs + [irq] && forall i :: i in irqs + [irq] ==> i in irqs || i == irq;
  }

  // Of the recent ones the largest irq is pending, however they are ordered; if there is none, the last raise is.
  lemma {:induction false} PendingIsLargest(raises: seq<Irq>)
    requires raises != []
    ensures var last := raises[|raises| - 1];
            if Recent(raises) == [] then Pending(raises) == Vector(last) && last >= NO_INTR_IRQ
            else IsLargest(Pending(raises), Recent(raises))
  {
    var front, irq := raises[..|raises| - 1], raises[|raises| - 1];
    if front != [] { PendingIsLargest(front); }
    if irq < NO_INTR_IRQ {
      AbsorbedIsLargest(Recent(front), Pending(front), irq);
    }
  }

  // irq 1 beats irq 0 in either order.
  lemma TwoRaises()
    ensures Pending([0]) == 32 && Pending([0, 1]) == 33 && Pending([1, 0]) == 33 && Pending([]) == 255
  {
    assert [0, 1][..1] == [0] && [1, 0][..1] == [1] && [0][..0] == [] && [1][..0] == [];
    assert Pending([1]) == 33;
  }

  lemma MarkedIff(raises: seq<Irq>)
    requires raises != []
    ensures Pending(raises) == I8259_NO_INTR <==> raises[|raises| - 1] == NO_INTR_IRQ
  {
    PendingIsLargest(raises);
  }

  // ----- interleavings -----

  datatype DeviceAt = Idle | Locked(irq: Irq) | Written | Signalled
  datatype CpuAt = Executing | Noticed | Queried(vector: Irq) | AckLocked(vector: Irq) | Cleared(vector: Irq)
                 | Acked(vector: Irq) | Taking(vector: Irq) | Failed
  datatype Owner = Nobody | Device(d: nat) | TheCpu

  // A vector handed to the CPU, with every raise its acknowledgement wiped out.
  datatype Taken = Taken(vector: Irq, raises: seq<Irq>)

  datatype State = State(intrNo: Irq, intr: bool, IF: bool, mutex: Owner, cpu: CpuAt, devices: seq<DeviceAt>,
                         since: seq<Irq>, taken: seq<Taken>, history: seq<Irq>, delivered: seq<Irq>)

  datatype Step = Lock(d: nat, irq: Irq) | Write(d: nat) | Signal(d: nat) | Unlock(d: nat)
                | SetIF(IF: bool) | Notice | Query | LockForAck | Clear | Unsignal | UnlockAfterAck | Deliver(IF: bool)

  function Start(devices: nat): State {
    State(I8259_NO_INTR, false, false, Nobody, Executing, seq(devices, _ => Idle), [], [], [], [])
  }

  predicate Enabled(s: State, a: Step) {
    match a
    case Lock(d, irq) => d < |s.devices| && s.devices[d].Idle? && s.mutex.Nobody?
    case Write(d) => d < |s.devices| && s.devices[d].Locked?
    case Signal(d) => d < |s.devices| && s.devices[d].Written?
    case Unlock(d) => d < |s.devices| && s.devices[d].Signalled?
    case SetIF(b) => s.cpu.Executing?
    case Notice => s.cpu.Executing? && s.intr && s.IF
    case Query => s.cpu.Noticed?
    case LockForAck => s.cpu.Queried? && s.mutex.Nobody?
    case Clear => s.cpu.AckLocked?
    case Unsignal => s.cpu.Cleared?
    case UnlockAfterAck => s.cpu.Acked?
    case Deliver(b) => s.cpu.Taking?
  }

  function Act(s: State, a: Step): State
    requires Enabled(s, a)
  {
    match a
    case Lock(d, irq) => s.(mutex := Device(d), devices := s.devices[d := Locked(irq)])
    case Write(d) =>
      var irq := s.devices[d].irq;
      s.(intrNo := Absorb(s.intrNo, irq), devices := s.devices[d := Written],
         since := s.since + [irq], history := s.history + [irq])
    case Signal(d) => s.(intr := true, devices := s.devices[d := Signalled])
    case Unlock(d) => s.(mutex := Nobody, devices := s.devices[d := Idle])
    case SetIF(b) => s.(IF := b)
    case Notice => s.(cpu := Noticed)
    case Query => s.(cpu := if s.intrNo == I8259_NO_INTR then Failed else Queried(s.intrNo))
    case LockForAck => s.(mutex := TheCpu, cpu := AckLocked(s.cpu.vector))
    case Clear =>
      s.(intrNo := I8259_NO_INTR, cpu := Cleared(s.cpu.vector),
         taken := s.taken + [Taken(s.cpu.vector, s.since)], since := [])
    case Unsignal => s.(intr := false, cpu := Acked(s.cpu.vector))
    case UnlockAfterAck => s.(mutex := Nobody, cpu := Taking(s.cpu.vector))
    case Deliver(b) => s.(IF := b, cpu := Executing, delivered := s.delivered + [s.cpu.vector])
  }

  // The state a run ends in, if each of its steps could be taken.
  function After(devices: nat, run: seq<Step>): Option<State> {
    if run == [] then Some(Start(devices))
    else
      var before := After(devices, run[..|run| - 1]);
      if before.Some? && Enabled(before.value, run[|run| - 1])
      then Some(Act(before.value, run[|run| - 1]))
      else None
  }

  predicate Raises(run: seq<Step>, irqs: set<Irq>) {
    forall k :: 0 <= k < |run| && run[k].Lock? ==> run[k].irq in irqs
  }

  // ----- the invariant -----

  predicate Inside(t: DeviceAt) { !t.Idle? }

  predicate CpuInside(t: CpuAt) { t.AckLocked? || t.Cleared? || t.Acked? }

  // Whoever is inside the critical section holds the mutex.
  predicate Exclusive(s: State) {
    (CpuInside(s.cpu) <==> s.mutex == TheCpu) &&
    (s.mutex.Device? ==> s.mutex.d < |s.devices|) &&
    forall d :: 0 <= d < |s.devices| ==> (Inside(s.devices[d]) <==> s.mutex == Device(d))
  }

  // The controller's two variables, read against the raises since the last acknowledgement.
  predicate Tracks(s: State) {
    s.intrNo == Pending(s.since) &&
    (s.intr ==> s.since != [] || s.cpu.Cleared?) &&
    (HolderWrote(s) ==> s.since != []) &&
    (s.since != [] ==> s.intr || HolderWrote(s))
  }

  // A device has stored its vector but not yet set cpu.intr.
  predicate HolderWrote(s: State) {
    s.mutex.Device? && s.mutex.d < |s.devices| && s.devices[s.mutex.d].Written?
  }

  // The vector was the pending one at some moment, that is after the first k of the raises.
  predicate Chosen(vector: Irq, raises: seq<Irq>) {
    exists k :: 1 <= k <= |raises| && Pending(raises[..k]) == vector
  }

  lemma ChosenStays(vector: Irq, raises: seq<Irq>, irq: Irq)
    requires Chosen(vector, raises)
    ensures Chosen(vector, raises + [irq])
  {
    var k :| 1 <= k <= |raises| && Pending(raises[..k]) == vector;
    assert (raises + [irq])[..k] == raises[..k];
  }

  // The CPU has noticed an interrupt that is still there.
  predicate CpuSound(s: State) {
    match s.cpu
    case Noticed => s.since != []
    case Queried(v) => Chosen(v, s.since)
    case AckLocked(v) => Chosen(v, s.since)
    case Cleared(_) => s.since == []
    case Acked(_) => s.since == [] && !s.intr
    case Failed => NO_INTR_IRQ in s.since
    case _ => true
  }

  predicate TakenSound(t: Taken) { Chosen(t.vector, t.raises) }

  function Wiped(taken: seq<Taken>): seq<Irq> {
    if taken == [] then [] else Wiped(taken[..|taken| - 1]) + taken[|taken| - 1].raises
  }

  // Every raise is either still pending or was wiped out by exactly one acknowledgement.
  predicate AllThere(history: seq<Irq>, taken: seq<Taken>, since: seq<Irq>) {
    history == Wiped(taken) + since && forall k :: 0 <= k < |taken| ==> TakenSound(taken[k])
  }

  predicate Accounted(s: State) { AllThere(s.history, s.taken, s.since) }

  function VectorsOf(taken: seq<Taken>): seq<Irq> { seq(|taken|, i requires 0 <= i < |taken| => taken[i].vector) }

  // The CPU holds a vector it has acknowledged and not yet delivered.
  predicate Holds(t: CpuAt) { t.Cleared? || t.Acked? || t.Taking? }

  // What is delivered is what was taken, in order; a vector that is held is the last one taken.
  predicate InOrder(cpu: CpuAt, taken: seq<Taken>, delivered: seq<Irq>) {
    VectorsOf(taken) == if Holds(cpu) then delivered + [cpu.vector] else delivered
  }

  // The CPU handles interrupts only while they are enabled.
  predicate WhileEnabled(s: State) { s.cpu.Executing? || s.IF }

  predicate OnlyFrom(s: State, irqs: set<Irq>) {
    (forall i :: i in s.history ==> i in irqs) &&
    (forall i :: i in s.since ==> i in irqs) &&
    forall d :: 0 <= d < |s.devices| && s.devices[d].Locked? ==> s.devices[d].irq in irqs
  }

  predicate Inv(s: State, irqs: set<Irq>) {
    Exclusive(s) && Tracks(s) && CpuSound(s) && Accounted(s) && OnlyFrom(s, irqs) &&
    InOrder(s.cpu, s.taken, s.delivered) && WhileEnabled(s)
  }

  lemma ExclusiveKept(s: State, a: Step)
    requires Exclusive(s) && Enabled(s, a)
    ensures Exclusive(Act(s, a))
  {
    if a.Lock? || a.Write? || a.Signal? || a.Unlock? {
      assert Inside(Act(s, a).devices[a.d]) <==> !a.Unlock?;
    }
  }

  lemma CpuSoundKept(s: State, a: Step)
    requires Exclusive(s) && Tracks(s) && CpuSound(s) && Enabled(s, a)
    ensures CpuSound(Act(s, a))
  {
    match a
    case Write(d) =>
      if s.cpu.Queried? { ChosenStays(s.cpu.vector, s.since, s.devices[d].irq); }
    case Query =>
      PendingRaised(s.since);
      assert s.since[..|s.since|] == s.since;
    case _ =>
  }

  lemma {:induction false} WipedHolds(taken: seq<Taken>, k: nat, irq: Irq)
    requires k < |taken| && irq in taken[k].raises
    ensures irq in Wiped(taken)
  {
    if k < |taken| - 1 { WipedHolds(taken[..|taken| - 1], k, irq); }
  }

  lemma AccountedKept(s: State, a: Step)
    requires CpuSound(s) && Accounted(s) && Enabled(s, a)
    ensures Accounted(Act(s, a))
  {
    match a
    case Write(d) => WriteAccounted(s.history, s.taken, s.since, s.devices[d].irq);
    case Clear => ClearAccounted(s.history, s.taken, s.since, s.cpu.vector);
    case _ =>
  }

  lemma WriteAccounted(history: seq<Irq>, taken: seq<Taken>, since: seq<Irq>, irq: Irq)
    requires AllThere(history, taken, since)
    ensures AllThere(history + [irq], taken, since + [irq])
  {
    assert Wiped(taken) + (since + [irq]) == (Wiped(taken) + since) + [irq];
  }

  lemma ClearAccounted(history: seq<Irq>, taken: seq<Taken>, since: seq<Irq>, vector: Irq)
    requires AllThere(history, taken, since) && Chosen(vector, since)
    ensures AllThere(history, taken + [Taken(vector, since)], [])
  {
    var all := taken + [Taken(vector, since)];
    assert all[..|all| - 1] == taken;
    assert Wiped(all) + [] == Wiped(taken) + since;
  }

  lemma InOrderKept(s: State, a: Step)
    requires InOrder(s.cpu, s.taken, s.delivered) && Enabled(s, a)
    ensures InOrder(Act(s, a).cpu, Act(s, a).taken, Act(s, a).delivered)
  {
    if a.Clear? {
      var t := Taken(s.cpu.vector, s.since);
      assert VectorsOf(s.taken + [t]) == VectorsOf(s.taken) + [t.vector];
    }
  }

  lemma WhileEnabledKept(s: State, a: Step)
    requires WhileEnabled(s) && Enabled(s, a)
    ensures WhileEnabled(Act(s, a))
  {
  }

  lemma TracksKept(s: State, a: Step)
    requires Exclusive(s) && Tracks(s) && CpuSound(s) && Enabled(s, a)
    ensures Tracks(Act(s, a))
  {
    match a
    case Lock(d, irq) =>
    case Write(d) => WriteTracks(s, d);
    case Signal(d) => SignalTracks(s, d);
    case Unlock(d) => UnlockTracks(s, d);
    case LockForAck => assert !HolderWrote(s) && !HolderWrote(Act(s, a));
    case Clear => assert !HolderWrote(Act(s, a));
    case Unsignal => assert !HolderWrote(Act(s, a));
    case UnlockAfterAck => assert !HolderWrote(s) && !HolderWrote(Act(s, a));
    case _ => assert HolderWrote(Act(s, a)) <==> HolderWrote(s);
  }

  lemma WriteTracks(s: State, d: nat)
    requires Exclusive(s) && Tracks(s) && Enabled(s, Write(d))
    ensures Tracks(Act(s, Write(d)))
  {
    assert s.mutex == Device(d) by { assert Inside(s.devices[d]); }
    var t := Act(s, Write(d));
    assert t.since[..|t.since| - 1] == s.since && HolderWrote(t);
  }

  lemma SignalTracks(s: State, d: nat)
    requires Exclusive(s) && Tracks(s) && Enabled(s, Signal(d))
    ensures Tracks(Act(s, Signal(d)))
  {
    assert s.mutex == Device(d) by { assert Inside(s.devices[d]); }
    assert HolderWrote(s) && !HolderWrote(Act(s, Signal(d)));
  }

  lemma UnlockTracks(s: State, d: nat)
    requires Exclusive(s) && Tracks(s) && Enabled(s, Unlock(d))
    ensures Tracks(Act(s, Unlock(d)))
  {
    assert s.mutex == Device(d) by { assert Inside(s.devices[d]); }
    assert !HolderWrote(s) && !HolderWrote(Act(s, Unlock(d)));
  }

  lemma OnlyFromKept(s: State, a: Step, irqs: set<Irq>)
    requires OnlyFrom(s, irqs) && Enabled(s, a) && (a.Lock? ==> a.irq in irqs)
    ensures OnlyFrom(Act(s, a), irqs)
  {
    match a
    case Lock(d, irq) =>
    case Write(d) => assert s.devices[d].irq in irqs;
    case _ =>
  }

  lemma StepKeeps(s: State, a: Step, irqs: set<Irq>)
    requires Inv(s, irqs) && Enabled(s, a) && (a.Lock? ==> a.irq in irqs)
    ensures Inv(Act(s, a), irqs)
  {
    ExclusiveKept(s, a);
    TracksKept(s, a);
    CpuSoundKept(s, a);
    AccountedKept(s, a);
    OnlyFromKept(s, a, irqs);
    InOrderKept(s, a);
    WhileEnabledKept(s, a);
  }

  lemma {:induction false} RunKeeps(devices: nat, run: seq<Step>, irqs: set<Irq>)
    requires After(devices, run).Some? && Raises(run, irqs)
    ensures Inv(After(devices, run).value, irqs)
  {
    if run != [] {
      var front := run[..|run| - 1];
      RunKeeps(devices, front, irqs);
      StepKeeps(After(devices, front).value, run[|run| - 1], irqs);
    }
  }

  // ----- whole runs -----

  // Some run of the devices, raising only these irqs, ends in s.
  ghost predicate Reachable(devices: nat, irqs: set<Irq>, s: State) {
    exists run :: After(devices, run) == Some(s) && Raises(run, irqs)
  }

  lemma ReachableKeeps(devices: nat, irqs: set<Irq>, s: State)
    requires Reachable(devices, irqs, s)
    ensures Inv(s, irqs)
  {
    var run :| After(devices, run) == Some(s) && Raises(run, irqs);
    RunKeeps(devices, run, irqs);
  }

  lemma OneMore(devices: nat, irqs: set<Irq>, s: State, a: Step)
    requires Reachable(devices, irqs, s) && Enabled(s, a) && (a.Lock? ==> a.irq in irqs)
    ensures Reachable(devices, irqs, Act(s, a))
  {
    var run :| After(devices, run) == Some(s) && Raises(run, irqs);
    assert (run + [a])[..|run|] == run;
    assert After(devices, run + [a]) == Some(Act(s, a));
  }

  lemma StartReachable(devices: nat, irqs: set<Irq>)
    ensures Reachable(devices, irqs, Start(devices))
  {
    assert After(devices, []) == Some(Start(devices));
  }

  // The vector a CPU takes was raised since the previous acknowledgement, and it was the pending one when
  // the CPU asked; every raise is pending or was wiped out by exactly one acknowledgement.
  lemma TakenWereRaised(devices: nat, irqs: set<Irq>, s: State)
    requires Reachable(devices, irqs, s)
    ensures s.history == Wiped(s.taken) + s.since
    ensures forall k :: 0 <= k < |s.taken| ==>
              Chosen(s.taken[k].vector, s.taken[k].raises) && s.taken[k].vector in Vectors(s.taken[k].raises)
  {
    ReachableKeeps(devices, irqs, s);
    forall k | 0 <= k < |s.taken|
      ensures Chosen(s.taken[k].vector, s.taken[k].raises) && s.taken[k].vector in Vectors(s.taken[k].raises)
    {
      assert TakenSound(s.taken[k]);
      ChosenRaised(s.taken[k].vector, s.taken[k].raises);
    }
  }

  // The vectors delivered are those taken, in order and each once; the one the CPU holds between acknowledgement
  // and delivery is the last one taken, so it was raised since the acknowledgement before.
  lemma DeliveredAreTaken(devices: nat, irqs: set<Irq>, s: State)
    requires Reachable(devices, irqs, s)
    ensures |s.delivered| == if Holds(s.cpu) then |s.taken| - 1 else |s.taken|
    ensures forall k :: 0 <= k < |s.delivered| ==> s.delivered[k] == s.taken[k].vector
    ensures Holds(s.cpu) ==>
              var t := s.taken[|s.taken| - 1];
              s.cpu.vector == t.vector && Chosen(t.vector, t.raises) && t.vector in Vectors(t.raises)
  {
    ReachableKeeps(devices, irqs, s);
    TakenWereRaised(devices, irqs, s);
    var vs := VectorsOf(s.taken);
    assert forall k :: 0 <= k < |s.delivered| ==> s.delivered[k] == vs[k];
    if Holds(s.cpu) { assert vs[|s.taken| - 1] == s.cpu.vector; }
  }

  // The CPU looks at, takes and delivers interrupts only with IF set.
  lemma HandledWhileEnabled(devices: nat, irqs: set<Irq>, s: State)
    requires Reachable(devices, irqs, s) && !s.cpu.Executing?
    ensures s.IF
  {
    ReachableKeeps(devices, irqs, s);
  }

  // Short of the assertion nothing ever blocks: whoever holds the mutex can go on, and without a holder the CPU can.
  lemma NeverStuck(devices: nat, irqs: set<Irq>, s: State)
    requires Reachable(devices, irqs, s) && !s.cpu.Failed?
    ensures match s.mutex
            case Device(d) => Enabled(s, Write(d)) || Enabled(s, Signal(d)) || Enabled(s, Unlock(d))
            case TheCpu => Enabled(s, Clear) || Enabled(s, Unsignal) || Enabled(s, UnlockAfterAck)
            case Nobody =>
              Enabled(s, SetIF(true)) || Enabled(s, Query) || Enabled(s, LockForAck) || Enabled(s, Deliver(true))
  {
    ReachableKeeps(devices, irqs, s);
    HolderIsInside(s);
  }

  lemma HolderIsInside(s: State)
    requires Exclusive(s)
    ensures match s.mutex
            case Device(d) => d < |s.devices| && Inside(s.devices[d])
            case TheCpu => CpuInside(s.cpu)
            case Nobody => !CpuInside(s.cpu)
  {
    if s.mutex.Device? { assert s.mutex == Device(s.mutex.d); }
  }

  lemma ChosenRaised(vector: Irq, raises: seq<Irq>)
    requires Chosen(vector, raises)
    ensures vector in Vectors(raises)
  {
    var k :| 1 <= k <= |raises| && Pending(raises[..k]) == vector;
    PendingRaised(raises[..k]);
    var i :| i in raises[..k] && Vector(i) == vector;
    assert i in raises;
  }

  // With the mutex free, an interrupt is pending exactly when something was raised since the last
  // acknowledgement, and it is what PendingIsLargest says of those.
  lemma AtRest(devices: nat, irqs: set<Irq>, s: State)
    requires Reachable(devices, irqs, s) && s.mutex == Nobody
    ensures s.intr <==> s.since != []
    ensures s.intrNo == I8259_NO_INTR <==> s.since == [] || s.since[|s.since| - 1] == NO_INTR_IRQ
    ensures Recent(s.since) != [] ==> IsLargest(s.intrNo, Recent(s.since))
  {
    ReachableKeeps(devices, irqs, s);
    if s.since != [] {
      PendingIsLargest(s.since);
      MarkedIff(s.since);
    }
  }

  // No two threads are ever inside the critical section.
  lemma MutualExclusion(devices: nat, irqs: set<Irq>, s: State)
    requires Reachable(devices, irqs, s)
    ensures forall d, e :: 0 <= d < e < |s.devices| ==> !(Inside(s.devices[d]) && Inside(s.devices[e]))
    ensures CpuInside(s.cpu) ==> forall d :: 0 <= d < |s.devices| ==> !Inside(s.devices[d])
  {
    var run :| After(devices, run) == Some(s) && Raises(run, irqs);
    RunExclusive(devices, run);
  }

  lemma {:induction false} RunExclusive(devices: nat, run: seq<Step>)
    requires After(devices, run).Some?
    ensures Exclusive(After(devices, run).value)
  {
    if run != [] {
      RunExclusive(devices, run[..|run| - 1]);
      ExclusiveKept(After(devices, run[..|run| - 1]).value, run[|run| - 1]);
    }
  }

  // ----- runs that show what the code does not promise -----

  predicate Quiet(s: State) { s.mutex.Nobody? && |s.devices| >= 1 && s.devices[0].Idle? }

  function Raised(s: State, irq: Irq): State {
    s.(intrNo := Absorb(s.intrNo, irq), intr := true, since := s.since + [irq], history := s.history + [irq])
  }

  // Device 0 raises an interrupt without being interrupted itself.
  lemma RaiseRun(devices: nat, irqs: set<Irq>, s: State, irq: Irq)
    requires Reachable(devices, irqs, s) && Quiet(s) && irq in irqs
    ensures Reachable(devices, irqs, Raised(s, irq))
  {
    var s1 := Act(s, Lock(0, irq));
    OneMore(devices, irqs, s, Lock(0, irq));
    var s2 := Act(s1, Write(0));
    OneMore(devices, irqs, s1, Write(0));
    var s3 := Act(s2, Signal(0));
    OneMore(devices, irqs, s2, Signal(0));
    OneMore(devices, irqs, s3, Unlock(0));
    assert Act(s3, Unlock(0)).devices == s.devices;
  }

  function Asked(s: State): State {
    s.(IF := true, cpu := if s.intrNo == I8259_NO_INTR then Failed else Queried(s.intrNo))
  }

  // The CPU enables interrupts, notices one and asks for its number.
  lemma QueryRun(devices: nat, irqs: set<Irq>, s: State)
    requires Reachable(devices, irqs, s) && s.cpu.Executing? && s.intr
    ensures Reachable(devices, irqs, Asked(s))
  {
    var s1 := Act(s, SetIF(true));
    OneMore(devices, irqs, s, SetIF(true));
    OneMore(devices, irqs, s1, Notice);
    OneMore(devices, irqs, Act(s1, Notice), Query);
  }

  ghost predicate Safe(devices: nat, irqs: set<Irq>) {
    forall s :: Reachable(devices, irqs, s) ==> !s.cpu.Failed?
  }

  // The assertion in do_intr holds in every interleaving exactly when no device raises irq 223, whose
  // vector is the mark for "no interrupt".
  lemma NeverFailsIff(devices: nat, irqs: set<Irq>)
    requires devices >= 1
    ensures Safe(devices, irqs) <==> NO_INTR_IRQ !in irqs
  {
    if NO_INTR_IRQ in irqs {
      var s := Start(devices);
      StartReachable(devices, irqs);
      RaiseRun(devices, irqs, s, NO_INTR_IRQ);
      QueryRun(devices, irqs, Raised(s, NO_INTR_IRQ));
      assert Asked(Raised(s, NO_INTR_IRQ)).cpu.Failed?;
    } else {
      forall s | Reachable(devices, irqs, s) ensures !s.cpu.Failed? {
        ReachableKeeps(devices, irqs, s);
      }
    }
  }

  // An acknowledgement that wipes out a raise it does not deliver.
  predicate Loses(t: Taken) { exists i :: i in t.raises && Vector(i) != t.vector }

  predicate LosesNothing(s: State) { forall k :: 0 <= k < |s.taken| ==> !Loses(s.taken[k]) }

  ghost predicate Lossless(devices: nat, irqs: set<Irq>) {
    forall s :: Reachable(devices, irqs, s) ==> LosesNothing(s)
  }

  // Only a was raised, and the CPU has just read its vector.
  function AskedAbout(devices: nat, a: Irq): State {
    State(Vector(a), true, true, Nobody, Queried(Vector(a)), seq(devices, _ => Idle), [a], [], [a], [])
  }

  lemma AskedRun(devices: nat, irqs: set<Irq>, a: Irq)
    requires devices >= 1 && a != NO_INTR_IRQ && a in irqs
    ensures Reachable(devices, irqs, AskedAbout(devices, a))
  {
    var s := Start(devices);
    StartReachable(devices, irqs);
    RaiseRun(devices, irqs, s, a);
    QueryRun(devices, irqs, Raised(s, a));
    assert [] + [a] == [a];
    assert Asked(Raised(s, a)) == AskedAbout(devices, a);
  }

  function Acknowledged(s: State): State
    requires s.cpu.Queried?
  {
    s.(intrNo := I8259_NO_INTR, mutex := TheCpu, cpu := Cleared(s.cpu.vector),
       taken := s.taken + [Taken(s.cpu.vector, s.since)], since := [])
  }

  lemma AckRun(devices: nat, irqs: set<Irq>, s: State)
    requires Reachable(devices, irqs, s) && s.cpu.Queried? && s.mutex.Nobody?
    ensures Reachable(devices, irqs, Acknowledged(s))
  {
    OneMore(devices, irqs, s, LockForAck);
    OneMore(devices, irqs, Act(s, LockForAck), Clear);
  }

  // What handling the pending interrupt leaves, if nothing comes in between.
  function AfterHandling(s: State, IF: bool): State {
    s.(IF := IF, intrNo := I8259_NO_INTR, intr := false, taken := s.taken + [Taken(s.intrNo, s.since)], since := [],
       delivered := s.delivered + [s.intrNo])
  }

  // A pending interrupt can be handled to its end.
  lemma HandlingRun(devices: nat, irqs: set<Irq>, s: State, IF: bool)
    requires Reachable(devices, irqs, s) && s.cpu.Executing? && s.intr && s.mutex.Nobody? && s.intrNo != I8259_NO_INTR
    ensures Reachable(devices, irqs, AfterHandling(s, IF))
  {
    QueryRun(devices, irqs, s);
    AckRun(devices, irqs, Asked(s));
    var s1 := Acknowledged(Asked(s));
    OneMore(devices, irqs, s1, Unsignal);
    var s2 := Act(s1, Unsignal);
    OneMore(devices, irqs, s2, UnlockAfterAck);
    var s3 := Act(s2, UnlockAfterAck);
    OneMore(devices, irqs, s3, Deliver(IF));
    assert Act(s3, Deliver(IF)) == AfterHandling(s, IF);
  }

  // A raise that lands between the query and the acknowledgement disappears.
  lemma LosingRun(devices: nat, irqs: set<Irq>, a: Irq, b: Irq) returns (s: State)
    requires devices >= 1 && a != b && a != NO_INTR_IRQ && a in irqs && b in irqs
    ensures Reachable(devices, irqs, s) && !LosesNothing(s)
    ensures s.history == [a, b] && s.since == [] && s.taken == [Taken(Vector(a), [a, b])]
  {
    var s2 := AskedAbout(devices, a);
    AskedRun(devices, irqs, a);
    RaiseRun(devices, irqs, s2, b);
    var s3 := Raised(s2, b);
    AckRun(devices, irqs, s3);
    s := Acknowledged(s3);
    assert [a] + [b] == [a, b];
    var t := Taken(Vector(a), [a, b]);
    assert [] + [t] == [t];
    assert s.taken == [t];
    LosesSecond(a, b);
    assert Loses(s.taken[0]);
  }

  lemma LosesSecond(a: Irq, b: Irq)
    requires a != b
    ensures Loses(Taken(Vector(a), [a, b]))
  {
    assert b in [a, b] && Vector(b) != Vector(a);
  }

  // Only devices that share a single irq never lose one another's raises.
  lemma LosslessIff(devices: nat, irqs: set<Irq>)
    requires devices >= 1
    ensures Lossless(devices, irqs) <==> forall a, b :: a in irqs && b in irqs ==> a == b
  {
    if a, b :| a in irqs && b in irqs && a != b {
      if a != NO_INTR_IRQ {
        var s := LosingRun(devices, irqs, a, b);
      } else {
        var s := LosingRun(devices, irqs, b, a);
      }
    } else {
      forall s | Reachable(devices, irqs, s) ensures LosesNothing(s) {
        OneIrqLosesNothing(devices, irqs, s);
      }
    }
  }

  lemma OneIrqLosesNothing(devices: nat, irqs: set<Irq>, s: State)
    requires Reachable(devices, irqs, s)
    requires forall a, b :: a in irqs && b in irqs ==> a == b
    ensures LosesNothing(s)
  {
    ReachableKeeps(devices, irqs, s);
    forall k | 0 <= k < |s.taken|
      ensures !Loses(s.taken[k])
    {
      var t := s.taken[k];
      assert TakenSound(t);
      ChosenRaised(t.vector, t.raises);
      forall i | i in t.raises ensures i in irqs { WipedHolds(s.taken, k, i); }
    }
  }
}
