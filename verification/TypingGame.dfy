/** The typing game's letters and main loop (game/src/typing/effect.c, game.c), on top of the
    static-pool list. Coordinates are multiples of one half, so reals model the floats exactly. */
module TypingGame {
  import opened StaticPool

  const SCR_HEIGHT := 200.0
  const SCR_COLUMNS := 40  // SCR_WIDTH / 8
  const POOL_SIZE := 1000
  const BIRTH_PERIOD := 33  // HZ / CHARACTER_PER_SECOND
  const NR_KEYS := 26

  datatype Letter = Letter(x: real, y: int, text: int, v: real)

  function Moved(l: Letter): Letter { l.(x := l.x + l.v) }

  predicate OffScreen(l: Letter) { l.x < 0.0 || l.x + 7.9 > SCR_HEIGHT }

  // What moving a letter adds to the two counters.
  function HitBy(l: Letter): nat { if Moved(l).x < 0.0 then 1 else 0 }

  function MissBy(l: Letter): nat { if OffScreen(Moved(l)) && Moved(l).x >= 0.0 then 1 else 0 }

  predicate Falling(l: Letter) { l.v > 0.0 }

  // ----- one logical tick, on the first n letters from the head -----

  function Kept(ls: seq<Letter>, n: int): seq<Letter>
    requires 0 <= n <= |ls|
  {
    if n == 0 then []
    else Kept(ls, n - 1) + if OffScreen(Moved(ls[n - 1])) then [] else [Moved(ls[n - 1])]
  }

  // The birth ticks of the kept letters.
  function KeptBirths(ls: seq<Letter>, bs: seq<int>, n: int): seq<int>
    requires 0 <= n <= |ls| == |bs|
  {
    if n == 0 then []
    else KeptBirths(ls, bs, n - 1) + if OffScreen(Moved(ls[n - 1])) then [] else [bs[n - 1]]
  }

  function Hits(ls: seq<Letter>, n: int): nat
    requires 0 <= n <= |ls|
  {
    if n == 0 then 0
    else Hits(ls, n - 1) + HitBy(ls[n - 1])
  }

  function Misses(ls: seq<Letter>, n: int): nat
    requires 0 <= n <= |ls|
  {
    if n == 0 then 0
    else Misses(ls, n - 1) + MissBy(ls[n - 1])
  }

  // Every letter is kept, hit or missed.
  lemma {:induction false} TickConserves(ls: seq<Letter>, bs: seq<int>, n: int)
    requires 0 <= n <= |ls| == |bs|
    ensures |Kept(ls, n)| + Hits(ls, n) + Misses(ls, n) == n
    ensures |KeptBirths(ls, bs, n)| == |Kept(ls, n)|
  {
    if n > 0 { TickConserves(ls, bs, n - 1); }
  }

  // ----- the timetable every letter keeps -----

  // A letter that has been moved age times: it falls half a line a tick for at most 384 ticks,
  // or was hit at age k <= 384 and rises three lines a tick from there.
  predicate OnCourse(l: Letter, age: int) {
    age >= 0 && l.x >= 0.0 && 0 <= l.text < NR_KEYS &&
    if l.v == 0.5 then l.x == 0.5 * age as real && age <= 384
    else l.v == -3.0 && l.x <= 192.0 && l.x + 3.0 * age as real <= 1344.0
  }

  // Head to tail the letters get older, one birth period at a time.
  ghost predicate Timetable(ls: seq<Letter>, bs: seq<int>, clock: int) {
    |ls| == |bs| &&
    (forall i :: 0 <= i < |ls| ==> OnCourse(ls[i], clock - bs[i]) && bs[i] % BIRTH_PERIOD == 0) &&
    (forall i, j :: 0 <= i < j < |bs| ==> bs[i] > bs[j])
  }

  lemma {:induction false} TimetableStep(ls: seq<Letter>, bs: seq<int>, clock: int, n: int)
    requires Timetable(ls, bs, clock) && 0 <= n <= |ls|
    ensures Timetable(Kept(ls, n), KeptBirths(ls, bs, n), clock + 1)
    ensures forall b :: b in KeptBirths(ls, bs, n) ==> b in bs[..n]
  {
    if n > 0 {
      TimetableStep(ls, bs, clock, n - 1);
      TickConserves(ls, bs, n - 1);
      var ks := KeptBirths(ls, bs, n - 1);
      forall i | 0 <= i < |ks| ensures ks[i] > bs[n - 1] { assert ks[i] in bs[..n - 1]; }
      assert bs[..n] == bs[..n - 1] + [bs[n - 1]];
    }
  }

  lemma KeptBirthsBefore(ls: seq<Letter>, bs: seq<int>, clock: int)
    requires Timetable(ls, bs, clock) && forall b :: b in bs ==> b < clock + 1
    ensures forall b :: b in KeptBirths(ls, bs, |ls|) ==> b < clock + 1
  {
    TimetableStep(ls, bs, clock, |ls|);
    assert bs[..|ls|] == bs;
  }

  // (r1 % 1000) / 2000 is an integer division, so the speed is always one half.
  function NewLetter(r0: nat, r1: nat, r2: nat): (l: Letter)
    ensures OnCourse(l, 0) && l.x == 0.0 && l.v == 0.5
    ensures l.y == r0 % 38 * 8 + 8 && l.text == r2 % 26
  {
    Letter(0.0, r0 % (SCR_COLUMNS - 2) * 8 + 8, r2 % NR_KEYS, (r1 % 1000 / 2000) as real + 0.5)
  }

  lemma {:induction false} BirthsSpread(bs: seq<int>, n: nat)
    requires n < |bs|
    requires forall i, j :: 0 <= i < j < |bs| ==> bs[i] > bs[j]
    requires forall i :: 0 <= i < |bs| ==> bs[i] % BIRTH_PERIOD == 0
    ensures bs[0] - bs[n] >= BIRTH_PERIOD * n
  {
    if n > 0 {
      BirthsSpread(bs, n - 1);
      assert bs[n - 1] > bs[n];
    }
  }

  // No letter lives beyond 448 ticks, so no more than fourteen are alive together.
  lemma AtMostFourteen(ls: seq<Letter>, bs: seq<int>, clock: int)
    requires Timetable(ls, bs, clock)
    ensures |ls| <= 14
  {
    if |ls| > 0 {
      var n := |ls| - 1;
      assert clock - bs[n] <= 448;
      assert bs[0] <= clock;
      BirthsSpread(bs, n);
    }
  }

  // Letters created by tick now: one at each multiple of the period below it.
  function BirthsBefore(now: int): int { (now + BIRTH_PERIOD - 1) / BIRTH_PERIOD }

  lemma BirthsBeforeStep(now: int)
    requires now >= 0
    ensures BirthsBefore(now + 1) == BirthsBefore(now) + if now % BIRTH_PERIOD == 0 then 1 else 0
  {
  }

  // ----- key presses -----

  ghost predicate Readable(ls: seq<Letter>) {
    forall i :: 0 <= i < |ls| ==> 0 <= ls[i].text < NR_KEYS && ls[i].x >= 0.0
  }

  // A falling letter whose key is pressed.
  predicate Candidate(ls: seq<Letter>, keys: seq<bool>, i: int)
    requires 0 <= i < |ls|
  {
    Falling(ls[i]) && 0 <= ls[i].text < |keys| && keys[ls[i].text]
  }

  // t is the candidate furthest down among the first n letters, the first such.
  ghost predicate BottomMostOf(ls: seq<Letter>, keys: seq<bool>, t: int, n: int) {
    0 <= t < n <= |ls| && Candidate(ls, keys, t) &&
    forall i :: 0 <= i < n && Candidate(ls, keys, i) ==> ls[i].x <= ls[t].x && (i < t ==> ls[i].x < ls[t].x)
  }

  ghost predicate NoneBefore(ls: seq<Letter>, keys: seq<bool>, n: int) {
    n <= |ls| && forall i :: 0 <= i < n ==> !Candidate(ls, keys, i)
  }

  // What the scan knows after n letters.
  ghost predicate Scanned(ls: seq<Letter>, keys: seq<bool>, found: bool, t: int, min: real, n: int) {
    if found then BottomMostOf(ls, keys, t, n) && min == ls[t].x
    else NoneBefore(ls, keys, n) && min == -100.0
  }

  lemma ScanStep(ls: seq<Letter>, keys: seq<bool>, found: bool, t: int, min: real, n: int)
    requires 0 <= n < |ls| && Readable(ls) && |keys| == NR_KEYS && Scanned(ls, keys, found, t, min, n)
    ensures var take := Falling(ls[n]) && ls[n].x > min && keys[ls[n].text];
            Scanned(ls, keys, found || take, if take then n else t, if take then ls[n].x else min, n + 1)
  {
  }

  ghost predicate BottomMost(ls: seq<Letter>, keys: seq<bool>, t: int) { BottomMostOf(ls, keys, t, |ls|) }

  ghost function Reversed(ls: seq<Letter>, t: int): seq<Letter>
    requires 0 <= t < |ls|
  {
    ls[t := ls[t].(v := -3.0)]
  }

  ghost function Fallers(ls: seq<Letter>): set<int> { set i | 0 <= i < |ls| && Falling(ls[i]) }

  // The letter a pressed key strikes: the furthest down among the falling letters with its text.
  ghost predicate Struck(ls: seq<Letter>, t: int)
    requires 0 <= t < |ls|
  {
    Falling(ls[t]) &&
    forall i :: 0 <= i < |ls| && Falling(ls[i]) && ls[i].text == ls[t].text ==>
      ls[i].x <= ls[t].x && (i < t ==> ls[i].x < ls[t].x)
  }

  // Some keys of those pressed have each struck their letter and been released.
  ghost predicate Drained(ls0: seq<Letter>, keys0: seq<bool>, ls: seq<Letter>, keys: seq<bool>) {
    |ls| == |ls0| && |keys| == |keys0| == NR_KEYS && Readable(ls0) &&
    (forall c :: 0 <= c < NR_KEYS ==> KeyDrained(ls0, keys0, keys, c)) &&
    (forall i :: 0 <= i < |ls| ==> LetterDrained(ls0, keys0, ls, keys, i))
  }

  ghost predicate KeyDrained(ls0: seq<Letter>, keys0: seq<bool>, keys: seq<bool>, c: int)
    requires |keys| == |keys0| == NR_KEYS && 0 <= c < NR_KEYS
  {
    (keys[c] ==> keys0[c]) &&
    (keys0[c] && !keys[c] ==> exists i :: 0 <= i < |ls0| && Falling(ls0[i]) && ls0[i].text == c)
  }

  // A letter has turned round exactly if it is the one struck by a key since released.
  ghost predicate LetterDrained(ls0: seq<Letter>, keys0: seq<bool>, ls: seq<Letter>, keys: seq<bool>, i: int)
    requires |ls| == |ls0| && |keys| == |keys0| == NR_KEYS && Readable(ls0) && 0 <= i < |ls|
  {
    var c := ls0[i].text;
    ls[i] == if keys0[c] && !keys[c] && Struck(ls0, i) then ls0[i].(v := -3.0) else ls0[i]
  }

  // The letter update_keypress picks is the one its key strikes in the original list.
  lemma PickedIsStruck(ls0: seq<Letter>, keys0: seq<bool>, ls: seq<Letter>, keys: seq<bool>, t: int)
    requires Drained(ls0, keys0, ls, keys) && BottomMost(ls, keys, t)
    ensures ls[t] == ls0[t] && Struck(ls0, t) && keys0[ls0[t].text]
  {
    assert LetterDrained(ls0, keys0, ls, keys, t) && KeyDrained(ls0, keys0, keys, ls0[t].text);
    forall i | 0 <= i < |ls| && Falling(ls0[i]) && ls0[i].text == ls0[t].text
      ensures ls0[i].x <= ls0[t].x && (i < t ==> ls0[i].x < ls0[t].x)
    {
      assert LetterDrained(ls0, keys0, ls, keys, i);
      assert Candidate(ls, keys, i);
    }
  }

  lemma DrainedStep(ls0: seq<Letter>, keys0: seq<bool>, ls: seq<Letter>, keys: seq<bool>, t: int)
    requires Drained(ls0, keys0, ls, keys) && BottomMost(ls, keys, t)
    ensures 0 <= ls[t].text < NR_KEYS
    ensures Drained(ls0, keys0, Reversed(ls, t), keys[ls[t].text := false])
    ensures Fallers(Reversed(ls, t)) < Fallers(ls)
  {
    PickedIsStruck(ls0, keys0, ls, keys, t);
    var c := ls[t].text;
    var rs, ks := Reversed(ls, t), keys[c := false];
    forall d | 0 <= d < NR_KEYS ensures KeyDrained(ls0, keys0, ks, d) {
      assert KeyDrained(ls0, keys0, keys, d);
    }
    forall i | 0 <= i < |rs| ensures LetterDrained(ls0, keys0, rs, ks, i) {
      assert LetterDrained(ls0, keys0, ls, keys, i);
    }
    assert t in Fallers(ls) && t !in Fallers(rs);
    assert forall i :: i in Fallers(rs) ==> i in Fallers(ls);
  }

  // What draining makes of letters and keys: every pressed key with a falling letter strikes
  // exactly one, and is released; other keys stay as they are.
  ghost predicate DrainResult(ls0: seq<Letter>, keys0: seq<bool>, ls: seq<Letter>, keys: seq<bool>) {
    |ls| == |ls0| && |keys| == |keys0| == NR_KEYS && Readable(ls0) &&
    (forall c :: 0 <= c < NR_KEYS ==>
      (keys[c] <==> keys0[c] && forall i :: 0 <= i < |ls0| ==> !(Falling(ls0[i]) && ls0[i].text == c))) &&
    (forall i :: 0 <= i < |ls| ==>
      ls[i] == if keys0[ls0[i].text] && Struck(ls0, i) then ls0[i].(v := -3.0) else ls0[i])
  }

  lemma DrainComplete(ls0: seq<Letter>, keys0: seq<bool>, ls: seq<Letter>, keys: seq<bool>)
    requires Drained(ls0, keys0, ls, keys) && NoneBefore(ls, keys, |ls|)
    ensures DrainResult(ls0, keys0, ls, keys)
  {
    forall c, i | 0 <= c < NR_KEYS && keys[c] && 0 <= i < |ls0| && ls0[i].text == c
      ensures !Falling(ls0[i])
    {
      assert LetterDrained(ls0, keys0, ls, keys, i) && !Candidate(ls, keys, i);
    }
    forall c | 0 <= c < NR_KEYS
      ensures keys[c] <==> keys0[c] && forall i :: 0 <= i < |ls0| ==> !(Falling(ls0[i]) && ls0[i].text == c)
    {
      assert KeyDrained(ls0, keys0, keys, c);
    }
    forall i | 0 <= i < |ls|
      ensures ls[i] == if keys0[ls0[i].text] && Struck(ls0, i) then ls0[i].(v := -3.0) else ls0[i]
    {
      assert LetterDrained(ls0, keys0, ls, keys, i);
    }
  }

  // ----- what the game does, as a function of time and keys -----

  datatype Play = Play(letters: seq<Letter>, keys: seq<bool>, hit: int, miss: int)

  function AtStart(): Play { Play([], seq(NR_KEYS, _ => false), 0, 0) }

  function Typed(keys: seq<bool>, down: set<int>): (ks: seq<bool>)
    requires |keys| == NR_KEYS
    ensures |ks| == NR_KEYS
  {
    seq(NR_KEYS, c requires 0 <= c < NR_KEYS => c in down || keys[c])
  }

  // Each pressed key with a falling letter strikes one and is released.
  ghost function Drain(s: Play): Play {
    Play(seq(|s.letters|, i requires 0 <= i < |s.letters| => Turned(s.letters, s.keys, i)),
         seq(|s.keys|, c requires 0 <= c < |s.keys| => s.keys[c] && !Falls(s.letters, c)), s.hit, s.miss)
  }

  ghost function Turned(ls: seq<Letter>, keys: seq<bool>, i: int): Letter
    requires 0 <= i < |ls|
  {
    if Pressed(keys, ls[i].text) && Struck(ls, i) then ls[i].(v := -3.0) else ls[i]
  }

  // A letter with the text c is falling.
  ghost predicate Falls(ls: seq<Letter>, c: int) {
    exists i :: 0 <= i < |ls| && Falling(ls[i]) && ls[i].text == c
  }

  predicate Pressed(keys: seq<bool>, c: int) { 0 <= c < |keys| && keys[c] }

  lemma DrainIsResult(s: Play, ls: seq<Letter>, keys: seq<bool>)
    requires DrainResult(s.letters, s.keys, ls, keys)
    ensures ls == Drain(s).letters && keys == Drain(s).keys
  {
  }

  // One tick: a letter is born at multiples of the period, its key released; then all move.
  function Ticked(s: Play, now: int, r: (nat, nat, nat)): (t: Play)
    requires |s.keys| == NR_KEYS
    ensures |t.keys| == NR_KEYS
  {
    AllMoved(Born(s, now, r))
  }

  function Born(s: Play, now: int, r: (nat, nat, nat)): (t: Play)
    requires |s.keys| == NR_KEYS
    ensures |t.keys| == NR_KEYS
  {
    var l := NewLetter(r.0, r.1, r.2);
    if now % BIRTH_PERIOD == 0 then s.(letters := [l] + s.letters, keys := s.keys[l.text := false]) else s
  }

  function AllMoved(s: Play): Play {
    var ls := s.letters;
    Play(Kept(ls, |ls|), s.keys, s.hit + Hits(ls, |ls|), s.miss + Misses(ls, |ls|))
  }

  // The ticks from now to target, more keys going down before each.
  function CaughtUp(s: Play, now: int, target: int, during: int -> set<int>, rand: int -> (nat, nat, nat)): (t: Play)
    requires |s.keys| == NR_KEYS
    ensures |t.keys| == NR_KEYS
    decreases target - now
  {
    if now >= target then s
    else CaughtUp(Ticked(s.(keys := Typed(s.keys, during(now))), now, rand(now)), now + 1, target, during, rand)
  }

  // One wake-up.
  ghost function Rounded(s: Play, now: int, tick: int, presses: set<int>, during: int -> set<int>,
                         rand: int -> (nat, nat, nat)): (t: Play)
    requires |s.keys| == NR_KEYS
    ensures |t.keys| == NR_KEYS
  {
    var p := s.(keys := Typed(s.keys, presses));
    if now == tick then p else CaughtUp(Drain(p), now, tick, during, rand)
  }

  // ----- what becomes of a letter -----

  // On its course a letter that was struck leaves over the top and counts as hit, and one that was not leaves
  // over the bottom and counts as missed.
  lemma CountedByEdge(l: Letter, age: int)
    requires OnCourse(l, age)
    ensures HitBy(l) == (if l.v < 0.0 && l.x + l.v < 0.0 then 1 else 0)
    ensures MissBy(l) == (if l.v > 0.0 && l.x + l.v + 7.9 > 200.0 then 1 else 0)
    ensures OffScreen(Moved(l)) <==> HitBy(l) + MissBy(l) == 1
  {
  }

  // The counters grow by the number of letters that pass each edge.
  lemma {:induction false} CountersCount(ls: seq<Letter>, n: nat)
    requires n <= |ls|
    ensures Hits(ls, n) == |OverTop(ls, n)| && Misses(ls, n) == |OverBottom(ls, n)|
  {
    if n > 0 {
      CountersCount(ls, n - 1);
      OneMoreOver(OverTop(ls, n - 1), OverTop(ls, n), n - 1);
      OneMoreOver(OverBottom(ls, n - 1), OverBottom(ls, n), n - 1);
    }
  }

  lemma OneMoreOver(a: set<int>, b: set<int>, n: int)
    requires n !in a && a <= b <= a + {n}
    ensures |b| == |a| + if n in b then 1 else 0
  {
    if n in b { assert b == a + {n}; } else { assert b == a; }
  }

  function OverTop(ls: seq<Letter>, n: nat): set<int>
    requires n <= |ls|
  {
    set i | 0 <= i < n && ls[i].x + ls[i].v < 0.0
  }

  function OverBottom(ls: seq<Letter>, n: nat): set<int>
    requires n <= |ls|
  {
    set i | 0 <= i < n && ls[i].x + ls[i].v >= 0.0 && ls[i].x + ls[i].v + 7.9 > 200.0
  }

  lemma {:induction false} KeptHas(ls: seq<Letter>, n: nat, i: nat)
    requires i < n <= |ls|
    ensures !OffScreen(Moved(ls[i])) ==> Moved(ls[i]) in Kept(ls, n)
    ensures Hits(ls, n) >= HitBy(ls[i]) && Misses(ls, n) >= MissBy(ls[i])
  {
    if i < n - 1 { KeptHas(ls, n - 1, i); }
  }

  // A wake-up turns the lowest falling letter with a pressed key: a tick later it is three lines up, or hit.
  lemma StruckTurns(s: Play, now: int, presses: set<int>, during: int -> set<int>, rand: int -> (nat, nat, nat), i: nat)
    requires |s.keys| == NR_KEYS && Readable(s.letters) && i < |s.letters| && Struck(s.letters, i)
    requires s.letters[i].text in presses || s.keys[s.letters[i].text]
    ensures var l, t := s.letters[i], Rounded(s, now, now + 1, presses, during, rand);
            if l.x >= 3.0 then OffScreen(l.(x := l.x - 3.0)) || l.(x := l.x - 3.0, v := -3.0) in t.letters
            else t.hit > s.hit
  {
    var p := Drain(s.(keys := Typed(s.keys, presses)));
    assert p.letters[i] == s.letters[i].(v := -3.0);
    AfterOneTick(p, now, during, rand, i);
  }

  // Every other letter goes on as it was.
  lemma OthersGoOn(s: Play, now: int, presses: set<int>, during: int -> set<int>, rand: int -> (nat, nat, nat), i: nat)
    requires |s.keys| == NR_KEYS && Readable(s.letters) && i < |s.letters|
    requires !Struck(s.letters, i) || (s.letters[i].text !in presses && !s.keys[s.letters[i].text])
    ensures var l, t := s.letters[i], Rounded(s, now, now + 1, presses, during, rand);
            var m := l.(x := l.x + l.v);
            if m.x < 0.0 then t.hit > s.hit else if m.x + 7.9 > 200.0 then t.miss > s.miss else m in t.letters
  {
    var p := Drain(s.(keys := Typed(s.keys, presses)));
    assert p.letters[i] == s.letters[i];
    AfterOneTick(p, now, during, rand, i);
  }

  // A key that goes down stays down until it strikes a letter or one with its text is born.
  lemma KeysWait(s: Play, now: int, presses: set<int>, during: int -> set<int>, rand: int -> (nat, nat, nat), c: int)
    requires |s.keys| == NR_KEYS && 0 <= c < NR_KEYS
    ensures var t := Rounded(s, now, now + 1, presses, during, rand);
            t.keys[c] <==> (c in during(now) || ((c in presses || s.keys[c]) && !Falls(s.letters, c))) &&
                           !(now % BIRTH_PERIOD == 0 && rand(now).2 % 26 == c)
  {
    var p := Drain(s.(keys := Typed(s.keys, presses)));
    var q, r := p.(keys := Typed(p.keys, during(now))), rand(now);
    assert CaughtUp(p, now, now + 1, during, rand) == CaughtUp(Ticked(q, now, r), now + 1, now + 1, during, rand);
    assert Ticked(q, now, r).keys == Born(q, now, r).keys;
  }

  lemma AfterOneTick(p: Play, now: int, during: int -> set<int>, rand: int -> (nat, nat, nat), i: nat)
    requires |p.keys| == NR_KEYS && i < |p.letters|
    ensures var t, m := CaughtUp(p, now, now + 1, during, rand), Moved(p.letters[i]);
            if m.x < 0.0 then t.hit > p.hit else if m.x + 7.9 > 200.0 then t.miss > p.miss else m in t.letters
  {
    var q, r := p.(keys := Typed(p.keys, during(now))), rand(now);
    var t := Ticked(q, now, r);
    assert CaughtUp(p, now, now + 1, during, rand) == CaughtUp(t, now + 1, now + 1, during, rand) == t;
    var ls := Born(q, now, r).letters;
    KeptHas(ls, |ls|, if now % BIRTH_PERIOD == 0 then i + 1 else i);
  }

  lemma ReversedOnCourse(ls: seq<Letter>, bs: seq<int>, clock: int, t: int)
    requires Timetable(ls, bs, clock) && 0 <= t < |ls| && Falling(ls[t])
    ensures Timetable(Reversed(ls, t), bs, clock)
  {
    assert OnCourse(ls[t], clock - bs[t]);
  }

  // The data fields of the nodes of a list.
  ghost function Data(p: seq<Node<Letter>>, s: seq<int>): (ls: seq<Letter>)
    requires InPool(p, s)
    ensures |ls| == |s| && forall i :: 0 <= i < |s| ==> ls[i] == p[s[i]].data
  {
    seq(|s|, i requires 0 <= i < |s| => p[s[i]].data)
  }

  lemma PushLinks(p: seq<Node<Letter>>, s: seq<int>, first: int, n: int, free: seq<int>)
    requires DoublyLinked(p, s, first) && 0 <= n < |p| && n !in s
    requires p[n].prev == p[n].next == NULL && Covers([n] + s, free, POOL_SIZE + 1) && InPool(p, free)
    ensures var q := if first == NULL then p else Inserted(p, NULL, first, n);
            DoublyLinked(q, [n] + s, n) && Data(q, [n] + s) == [p[n].data] + Data(p, s)
    ensures n !in free && first !in free && NULL !in free
    ensures first == NULL <==> s == []
  {
    var t := [n] + s;
    NotIn(t, free, 0);
    if s == [] {
      assert Hop(p, t, 0) && HopBack(p, t, 0);
    } else {
      NotIn(t, free, 1);
      InsertedLinks(p, s, first, 0, n);
      WithFront(s, n);
    }
  }

  lemma WithFront(s: seq<int>, n: int)
    ensures With(s, 0, n) == [n] + s
  {
  }

  // Writing the fields of one listed node changes one letter and no link.
  lemma SetDataFrame(p: seq<Node<Letter>>, s: seq<int>, first: int, k: int, l: Letter)
    requires DoublyLinked(p, s, first) && 0 <= k < |s|
    ensures var q := p[s[k] := p[s[k]].(data := l)];
            DoublyLinked(q, s, first) && Data(q, s) == Data(p, s)[k := l]
  {
    DoublyLinkedFrame(p, p[s[k] := p[s[k]].(data := l)], s, first);
    forall i | 0 <= i < |s| ensures s[i] == s[k] <==> i == k { SamePlace(s, i, k); }
  }

  lemma RemoveData(p: seq<Node<Letter>>, s: seq<int>, first: int, k: int)
    requires DoublyLinked(p, s, first) && 0 <= k < |s|
    ensures var q, t := Removed(p, s[k]), Without(s, k);
            InPool(q, t) && Data(q, t) == Without(Data(p, s), k)
  {
  }

  lemma RemoveLinks(p: seq<Node<Letter>>, s: seq<int>, first: int, k: int, free: seq<int>)
    requires DoublyLinked(p, s, first) && 0 <= k < |s| && Covers(s, free, POOL_SIZE + 1) && InPool(p, free)
    ensures var q, t := Removed(p, s[k]), Without(s, k);
            DoublyLinked(q, t, At(t, 0)) && Data(q, t) == Without(Data(p, s), k) &&
            s[k] !in t && Covers(t, [s[k]] + free, POOL_SIZE + 1)
    ensures s[k] !in free && p[s[k]].prev !in free && p[s[k]].next !in free
    ensures NULL <= p[s[k]].prev < |p| && NULL <= p[s[k]].next < |p|
  {
    RemovedUnlinks(p, s, first, k);
    RemoveData(p, s, first, k);
    CoversPush(s, free, k, POOL_SIZE + 1);
    assert Hop(p, s, k) && HopBack(p, s, k);
    NotIn(s, free, k);
    if k > 0 { NotIn(s, free, k - 1); }
    if k + 1 < |s| { NotIn(s, free, k + 1); }
  }

  // Freeing a node that is no longer listed.
  lemma FreedFrame(q: seq<Node<Letter>>, t: seq<int>, first: int, n: int, v: int)
    requires DoublyLinked(q, t, first) && 0 <= n < |q| && n !in t
    ensures var r := q[n := q[n].(next := v)]; DoublyLinked(r, t, first) && Data(r, t) == Data(q, t)
  {
    DoublyLinkedFrame(q, q[n := q[n].(next := v)], t, first);
  }

  lemma HeadAfterDrop(s: seq<int>, k: int)
    requires NoDup(s) && 0 <= k < |s|
    ensures At(Without(s, k), 0) == if s[k] == s[0] then At(s, k + 1) else s[0]
    ensures At(Without(s, k), k) == At(s, k + 1)
  {
    SamePlace(s, 0, k);
  }

  lemma ListEnds(p: seq<Node<Letter>>, s: seq<int>, n: int)
    requires InPool(p, s) && At(s, n) == NULL && n >= 0
    ensures n >= |s|
  {
  }

  // The n-th letter moved, or dropped if that takes it off the screen.
  ghost function Stepped(ls: seq<Letter>, n: int): seq<Letter>
    requires 0 <= n < |ls|
  {
    if OffScreen(Moved(ls[n])) then Without(ls, n) else ls[n := Moved(ls[n])]
  }

  lemma SteppedCases(ls: seq<Letter>, n: int)
    requires 0 <= n < |ls|
    ensures var l := Moved(ls[n]); var w := ls[n := l];
            Stepped(ls, n) == if OffScreen(l) then Without(w, n) else w
  {
  }

  // What the loop of update_letter_pos has made of the list after j letters.
  ghost function Halfway(ls: seq<Letter>, j: int): seq<Letter>
    requires 0 <= j <= |ls|
  {
    var ks := Kept(ls, j);
    seq(|ks| + |ls| - j, i requires 0 <= i < |ks| + |ls| - j => if i < |ks| then ks[i] else ls[i - |ks| + j])
  }

  lemma HalfwayStart(ls: seq<Letter>)
    ensures Halfway(ls, 0) == ls && Kept(ls, 0) == []
  {
  }

  lemma HalfwayEnd(ls: seq<Letter>, j: int)
    requires 0 <= j <= |ls| && |Kept(ls, j)| >= |Halfway(ls, j)|
    ensures j == |ls| && Halfway(ls, j) == Kept(ls, |ls|)
  {
  }

  lemma HalfwayStep(ls: seq<Letter>, j: int)
    requires 0 <= j <= |ls|
    ensures |Halfway(ls, j)| == |Kept(ls, j)| + |ls| - j
    ensures j < |ls| ==> var n := |Kept(ls, j)|;
            Halfway(ls, j)[n] == ls[j] && Stepped(Halfway(ls, j), n) == Halfway(ls, j + 1) &&
            |Kept(ls, j + 1)| == if OffScreen(Moved(ls[j])) then n else n + 1
  {
  }

  class Game {
    const fly: LinkList<Letter>
    const pressed: array<bool>  // letter_pressed
    var head: int
    var hit: int
    var miss: int
    var interrupts: bool
    ghost var live: seq<int>  // the pool indices of the letters, from head to tail
    ghost var births: seq<int>  // their birth ticks
    ghost var created: int

    ghost function Letters(): (s: seq<Letter>)
      reads this, fly, fly.pool
      requires InPool(fly.pool[..], live)
      ensures |s| == |live|
    {
      Data(fly.pool[..], live)
    }

    ghost predicate Linked()
      reads this, fly, fly.pool
    {
      fly.Valid() && fly.size == POOL_SIZE && DoublyLinked(fly.pool[..], live, head) &&
      if fly.freeHead == NULL then live == [] && created == 0 else Covers(live, fly.free, POOL_SIZE + 1)
    }

    ghost predicate Valid(clock: int)
      reads this, fly, fly.pool, pressed
    {
      pressed.Length == NR_KEYS && Linked() && Timetable(Letters(), births, clock) &&
      created == hit + miss + |live| && hit >= 0 && miss >= 0
    }

    constructor ()
      ensures Valid(0) && created == 0 && live == [] && State() == AtStart() && interrupts
      ensures fresh(fly) && fresh(fly.pool) && fresh(pressed)
    {
      fly := new LinkList<Letter>(POOL_SIZE, Letter(0.0, 0, 0, 0.0));
      pressed := new bool[NR_KEYS](_ => false);
      head := NULL;
      hit, miss := 0, 0;
      interrupts := true;
      live, births, created := [], [], 0;
    }

    // fly_new: a node for a letter that is about to be linked in.
    method TakeNode() returns (n: int)
      requires Linked() && |live| < POOL_SIZE
      modifies fly, fly.pool
      ensures fly.Valid() && fly.freeHead != NULL && DoublyLinked(fly.pool[..], live, head)
      ensures 0 <= n < POOL_SIZE && n !in live && Covers([n] + live, fly.free, POOL_SIZE + 1)
      ensures fly.pool[n].prev == fly.pool[n].next == NULL
      ensures Letters() == old(Letters())
    {
      ghost var p0, avail := fly.pool[..], fly.Available();
      if fly.freeHead == NULL { CoversInitially(avail, POOL_SIZE + 1); }
      CoversPop(live, avail, POOL_SIZE + 1);
      var ok;
      ok, n := fly.New();
      assert ok;  // the exhaustion assert never fires
      DoublyLinkedFrame(p0, fly.pool[..], live, head);
    }

    // Lines 34-43, the node already taken: make it the head of the list.
    method LinkFront(n: int)
      requires fly.Valid() && fly.freeHead != NULL && 0 <= n <= fly.size && NULL <= head <= fly.size
      requires n !in fly.free && head !in fly.free && NULL !in fly.free && n != head
      modifies this`head, fly.pool
      ensures fly.Valid() && head == n
      ensures fly.pool[..] == old(if head == NULL then fly.pool[..] else Inserted(fly.pool[..], NULL, head, n))
    {
      if head == NULL {
        head := n;
      } else {
        fly.Insert(NULL, head, n);
        head := n;
      }
    }

    method PushFront()
      requires Linked() && |live| < POOL_SIZE
      modifies this`head, this`live, this`created, fly, fly.pool
      ensures Linked() && fly.freeHead != NULL && created == old(created) + 1
      ensures live == [head] + old(live)
      ensures Letters() == [fly.pool[head].data] + old(Letters())
    {
      var n := TakeNode();
      PushLinks(fly.pool[..], live, head, n, fly.free);
      LinkFront(n);
      live := [n] + live;
      created := created + 1;
    }

    // Assignments to fields of the k-th letter, it.
    method WriteLetter(it: int, l: Letter, ghost k: int)
      requires Linked() && 0 <= k < |live| && it == live[k]
      modifies fly.pool
      ensures Linked() && Letters() == old(Letters())[k := l]
    {
      ghost var p := fly.pool[..];
      SetDataFrame(p, live, head, k, l);
      fly.pool[it] := fly.pool[it].(data := l);
      assert fly.pool[..] == p[it := p[it].(data := l)];
      ChainFrame(p, fly.pool[..], fly.free, fly.freeHead);
    }

    method AddLetter(l: Letter)
      requires Linked() && |live| < POOL_SIZE
      modifies this`head, this`live, this`created, fly, fly.pool
      ensures Linked() && fly.freeHead != NULL && created == old(created) + 1
      ensures |live| == |old(live)| + 1 && Letters() == [l] + old(Letters())
    {
      PushFront();
      WriteLetter(head, l, 0);
    }

    // create_new_letter, with the three values rand() returns.
    method CreateNewLetter(r0: nat, r1: nat, r2: nat, ghost clock: int)
      requires Valid(clock) && clock % BIRTH_PERIOD == 0 && (births == [] || births[0] < clock)
      modifies this`head, this`live, this`births, this`created, fly, fly.pool, pressed
      ensures Valid(clock) && fly.freeHead != NULL && created == old(created) + 1
      ensures births == [clock] + old(births)
      ensures Letters() == [NewLetter(r0, r1, r2)] + old(Letters())
      ensures pressed[..] == old(pressed[..])[NewLetter(r0, r1, r2).text := false]
    {
      AtMostFourteen(Letters(), births, clock);
      var l := NewLetter(r0, r1, r2);
      AddLetter(l);
      births := [clock] + births;
      pressed[l.text] := false;
    }

    // Lines 66-67: unlink the k-th letter, it, and free its node; head is settled afterwards.
    method ReleaseNode(it: int, ghost k: int, ghost t: seq<int>)
      requires Linked() && 0 <= k < |live| && it == live[k] && t == Without(live, k)
      modifies fly, fly.pool
      ensures fly.Valid() && fly.freeHead != NULL && Covers(t, fly.free, POOL_SIZE + 1)
      ensures DoublyLinked(fly.pool[..], t, At(t, 0))
      ensures Data(fly.pool[..], t) == Without(old(Letters()), k)
    {
      RemoveLinks(fly.pool[..], live, head, k, fly.free);
      fly.Remove(it);
      FreedFrame(fly.pool[..], t, At(t, 0), it, fly.freeHead);
      fly.Free(it);
    }

    // Lines 66-69: drop the k-th letter, it, whose successor is next.
    method DropLetter(it: int, next: int, ghost k: int)
      requires Linked() && 0 <= k < |live| && it == live[k] && next == At(live, k + 1)
      modifies this`head, this`live, fly, fly.pool
      ensures Linked() && live == Without(old(live), k) && next == At(live, k)
      ensures Letters() == Without(old(Letters()), k)
    {
      HeadAfterDrop(live, k);
      ghost var t := Without(live, k);
      ReleaseNode(it, k, t);
      if it == head {
        head := next;
      }
      live := t;
    }

    // One round of the loop at lines 56-72, on the n-th letter l0.
    method StepLetter(it: int, ghost n: int, ghost l0: Letter) returns (next: int)
      requires Linked() && 0 <= n < |live| && it == live[n] && Letters()[n] == l0
      modifies this`head, this`hit, this`miss, this`live, fly, fly.pool
      ensures Linked() && Letters() == Stepped(old(Letters()), n)
      ensures next == At(live, if OffScreen(Moved(l0)) then n else n + 1)
      ensures hit == old(hit) + HitBy(l0) && miss == old(miss) + MissBy(l0)
    {
      assert Hop(fly.pool[..], live, n);
      next := fly.pool[it].next;
      var l := Moved(fly.pool[it].data);
      assert l == Moved(l0);
      SteppedCases(Letters(), n);
      WriteLetter(it, l, n);
      if l.x < 0.0 || l.x + 7.9 > SCR_HEIGHT {
        if l.x < 0.0 {
          hit := hit + 1;
        } else {
          miss := miss + 1;
        }
        DropLetter(it, next, n);
      }
    }

    // The loop of update_letter_pos after j of the letters ls: it points at the next of them.
    ghost predicate Moving(ls: seq<Letter>, j: int, it: int, hit0: int, miss0: int)
      reads this, fly, fly.pool
    {
      0 <= j <= |ls| && Linked() && Letters() == Halfway(ls, j) && it == At(live, |Kept(ls, j)|) &&
      hit == hit0 + Hits(ls, j) && miss == miss0 + Misses(ls, j)
    }

    method MoveOne(it: int, ghost ls: seq<Letter>, ghost j: int, ghost hit0: int, ghost miss0: int) returns (next: int)
      requires Moving(ls, j, it, hit0, miss0) && it != NULL
      modifies this`head, this`hit, this`miss, this`live, fly, fly.pool
      ensures j < |ls| && Moving(ls, j + 1, next, hit0, miss0)
    {
      HalfwayStep(ls, j);
      next := StepLetter(it, |Kept(ls, j)|, ls[j]);
    }

    lemma MovingEnds(ls: seq<Letter>, j: int, hit0: int, miss0: int)
      requires Moving(ls, j, NULL, hit0, miss0)
      ensures Linked() && Letters() == Kept(ls, |ls|)
      ensures hit == hit0 + Hits(ls, |ls|) && miss == miss0 + Misses(ls, |ls|)
    {
      ListEnds(fly.pool[..], live, |Kept(ls, j)|);
      HalfwayEnd(ls, j);
    }

    // The loop of update_letter_pos.
    method MoveLetters()
      requires Linked()
      modifies this`head, this`hit, this`miss, this`live, fly, fly.pool
      ensures Linked() && Letters() == Kept(old(Letters()), old(|live|))
      ensures hit == old(hit) + Hits(old(Letters()), old(|live|))
      ensures miss == old(miss) + Misses(old(Letters()), old(|live|))
    {
      ghost var ls := Letters();
      ghost var j := 0;
      HalfwayStart(ls);
      var it := head;
      while it != NULL
        invariant Moving(ls, j, it, old(hit), old(miss))
        decreases |ls| - j
      {
        it := MoveOne(it, ls, j, old(hit), old(miss));
        j := j + 1;
      }
      MovingEnds(ls, j, old(hit), old(miss));
    }

    // update_letter_pos
    method UpdateLetterPos(ghost clock: int)
      requires Valid(clock)
      modifies this`head, this`hit, this`miss, this`live, this`births, fly, fly.pool
      ensures Valid(clock + 1)
      ensures Letters() == Kept(old(Letters()), old(|live|))
      ensures births == KeptBirths(old(Letters()), old(births), old(|live|))
      ensures hit == old(hit) + Hits(old(Letters()), old(|live|))
      ensures miss == old(miss) + Misses(old(Letters()), old(|live|))
    {
      ghost var ls, bs := Letters(), births;
      MoveLetters();
      assert |live| == |Kept(ls, |ls|)|;
      TickConserves(ls, bs, |ls|);
      TimetableStep(ls, bs, clock, |ls|);
      births := KeptBirths(ls, bs, |ls|);
    }

    // Lines 78-91: scan for the bottom-most candidate.
    method FindTarget() returns (target: int, ghost t: int)
      requires Visits(fly.pool[..], live, head) && Readable(Letters()) && pressed.Length == NR_KEYS
      ensures target != NULL ==> 0 <= t < |live| && target == live[t] && BottomMost(Letters(), pressed[..], t)
      ensures target == NULL ==> NoneBefore(Letters(), pressed[..], |live|)
    {
      ghost var ls, keys, n := Letters(), pressed[..], 0;
      var min := -100.0;
      var it := head;
      target, t := NULL, 0;
      while it != NULL
        invariant 0 <= n <= |live| && it == At(live, n)
        invariant Scanned(ls, keys, target != NULL, t, min, n)
        invariant target != NULL ==> 0 <= t < n && target == live[t]
        decreases |live| - n
      {
        var l := fly.pool[it].data;
        assert l == ls[n];
        ScanStep(ls, keys, target != NULL, t, min, n);
        if l.v > 0.0 && l.x > min && pressed[l.text] {
          min := l.x;
          target := it;
          t := n;
        }
        assert Hop(fly.pool[..], live, n);
        it := fly.pool[it].next;
        n := n + 1;
      }
      ListEnds(fly.pool[..], live, n);
    }

    // update_keypress; t is the position of the letter it reverses.
    method UpdateKeypress() returns (found: bool, ghost t: int)
      requires Linked() && Readable(Letters()) && pressed.Length == NR_KEYS
      modifies this`interrupts, fly.pool, pressed
      ensures Linked() && interrupts == !found
      ensures found ==> BottomMost(old(Letters()), old(pressed[..]), t) &&
                        Letters() == Reversed(old(Letters()), t) &&
                        pressed[..] == old(pressed[..])[old(Letters())[t].text := false]
      ensures !found ==> Letters() == old(Letters()) && pressed[..] == old(pressed[..]) &&
                         NoneBefore(Letters(), pressed[..], |live|)
    {
      interrupts := false;
      var target;
      target, t := FindTarget();
      if target != NULL {
        var l := fly.pool[target].data;
        assert l == Letters()[t];
        pressed[l.text] := false;
        WriteLetter(target, l.(v := -3.0), t);
        return true, t;
      }
      interrupts := true;
      return false, t;
    }

    // The drain loop of main_loop: reverses letters until no pressed key finds one.
    method DrainKeys(ghost clock: int)
      requires Valid(clock)
      modifies this`interrupts, fly.pool, pressed
      ensures Valid(clock) && interrupts
      ensures DrainResult(old(Letters()), old(pressed[..]), Letters(), pressed[..])
    {
      ghost var ls, keys := Letters(), pressed[..];
      var found := true;
      while found
        invariant Valid(clock)
        invariant Drained(ls, keys, Letters(), pressed[..])
        invariant !found ==> interrupts && NoneBefore(Letters(), pressed[..], |live|)
        decreases Fallers(Letters()), found
      {
        ghost var cur, down := Letters(), pressed[..];
        ghost var t;
        found, t := UpdateKeypress();
        if found {
          DrainedStep(ls, keys, cur, down, t);
          ReversedOnCourse(cur, births, clock, t);
        }
      }
      DrainComplete(ls, keys, Letters(), pressed[..]);
    }

    ghost function State(): Play
      reads this, fly, fly.pool, pressed
      requires InPool(fly.pool[..], live)
    {
      Play(Letters(), pressed[..], hit, miss)
    }

    // Between two ticks of game time: now ticks have been processed.
    ghost predicate Playing(now: int)
      reads this, fly, fly.pool, pressed
    {
      now >= 0 && Valid(now) && created == BirthsBefore(now) && forall b :: b in births ==> b < now
    }

    lemma PlayingSound(now: int)
      requires Playing(now)
      ensures created == (now + 32) / 33 == hit + miss + |live| && |live| <= 14
      ensures created > 0 ==> fly.freeHead != NULL && POOL_SIZE !in live
    {
      AtMostFourteen(Letters(), births, now);
      if fly.freeHead != NULL {
        forall i | 0 <= i < |live| ensures live[i] != POOL_SIZE {
          assert Differ(live, i, fly.free, |fly.free| - 1);
        }
      }
    }

    // Lines 65-68.
    method BirthStep(now: int, rand: int -> (nat, nat, nat))
      requires Playing(now)
      modifies this`head, this`live, this`births, this`created, fly, fly.pool, pressed
      ensures Valid(now) && created == BirthsBefore(now + 1) && forall b :: b in births ==> b < now + 1
      ensures State() == Born(old(State()), now, rand(now))
    {
      BirthsBeforeStep(now);
      if now % BIRTH_PERIOD == 0 {
        var r := rand(now);
        assert births != [] ==> births[0] in births;
        CreateNewLetter(r.0, r.1, r.2, now);
      }
    }

    // Lines 69-73.
    method MoveStep(now: int)
      requires now >= 0 && Valid(now) && created == BirthsBefore(now + 1) && forall b :: b in births ==> b < now + 1
      modifies this`head, this`hit, this`miss, this`live, this`births, fly, fly.pool
      ensures Playing(now + 1) && State() == AllMoved(old(State()))
    {
      KeptBirthsBefore(Letters(), births, now);
      if now % 1 == 0 {
        UpdateLetterPos(now);
      }
    }

    // The body of the catch-up loop, lines 65-73; HZ / UPDATE_PER_SECOND is 1.
    method TickStep(now: int, rand: int -> (nat, nat, nat))
      requires Playing(now)
      modifies this`head, this`hit, this`miss, this`live, this`births, this`created, fly, fly.pool, pressed
      ensures Playing(now + 1) && State() == Ticked(old(State()), now, rand(now))
    {
      BirthStep(now, rand);
      MoveStep(now);
    }

    // The keyboard handler, for the keys that went down.
    method Press(keys: set<int>, ghost now: int)
      requires Playing(now)
      modifies pressed
      ensures Playing(now) && State() == old(State()).(keys := Typed(old(pressed[..]), keys))
    {
      forall c | 0 <= c < NR_KEYS && c in keys {
        pressed[c] := true;
      }
    }

    // Lines 62-91.
    method CatchUp(now0: int, target: int, during: int -> set<int>, rand: int -> (nat, nat, nat)) returns (now: int)
      requires Playing(now0) && now0 <= target
      modifies this, fly, fly.pool, pressed
      ensures Playing(now) && now == target
      ensures State() == CaughtUp(old(State()), now0, target, during, rand)
    {
      now := now0;
      while now < target
        invariant now0 <= now <= target && Playing(now)
        invariant CaughtUp(State(), now, target, during, rand) == CaughtUp(old(State()), now0, target, during, rand)
      {
        Press(during(now), now);
        TickStep(now, rand);
        now := now + 1;
      }
    }

    // One round of main_loop: the timer has ticked and keys have been pressed since the last, and more are
    // pressed before the ticks that are caught up with.
    method Round(now0: int, tick: int, presses: set<int>, during: int -> set<int>, rand: int -> (nat, nat, nat))
      returns (now: int)
      requires Playing(now0) && now0 <= tick
      modifies this, fly, fly.pool, pressed
      ensures Playing(now) && now == tick
      ensures State() == Rounded(old(State()), now0, tick, presses, during, rand)
    {
      now := now0;
      Press(presses, now);
      if now == tick {
        return;
      }
      var target := tick;
      ghost var s := State();
      DrainKeys(now);
      DrainIsResult(s, Letters(), pressed[..]);
      now := CatchUp(now, target, during, rand);
    }
  }

  datatype Wakeup = Wakeup(ticks: nat, presses: set<int>, during: int -> set<int>)

  function Elapsed(ws: seq<Wakeup>, n: int): nat
    requires 0 <= n <= |ws|
  {
    if n == 0 then 0 else Elapsed(ws, n - 1) + ws[n - 1].ticks
  }

  // The whole game, after the first n wake-ups.
  ghost function PlayAfter(ws: seq<Wakeup>, n: int, rand: int -> (nat, nat, nat)): (s: Play)
    requires 0 <= n <= |ws|
    ensures |s.keys| == NR_KEYS
  {
    if n == 0 then AtStart()
    else
      var w := ws[n - 1];
      Rounded(PlayAfter(ws, n - 1, rand), Elapsed(ws, n - 1), Elapsed(ws, n), w.presses, w.during, rand)
  }

  // The first letter, typed at the second wake-up, is a hit, and nothing else is.
  lemma FirstLetterTyped(rand: int -> (nat, nat, nat), none: int -> set<int>)
    requires forall t :: none(t) == {}
    ensures var c := NewLetter(rand(0).0, rand(0).1, rand(0).2).text;
            var s := PlayAfter([Wakeup(1, {}, none), Wakeup(1, {c}, none)], 2, rand);
            s.letters == [] && s.hit == 1 && s.miss == 0
  {
    var l := NewLetter(rand(0).0, rand(0).1, rand(0).2);
    var ws := [Wakeup(1, {}, none), Wakeup(1, {l.text}, none)];
    assert Elapsed(ws, 0) == 0 && Elapsed(ws, 1) == 1 && Elapsed(ws, 2) == 2;
    FirstTick(rand, none, l);
    var s := PlayAfter(ws, 1, rand);
    assert ws[0] == Wakeup(1, {}, none) && ws[1] == Wakeup(1, {l.text}, none);
    assert PlayAfter(ws, 0, rand) == AtStart();
    assert s == Rounded(AtStart(), 0, 1, {}, none, rand);
    SecondTick(s, rand, none, l);
  }

  lemma FirstTick(rand: int -> (nat, nat, nat), none: int -> set<int>, l: Letter)
    requires none(0) == {} && l == NewLetter(rand(0).0, rand(0).1, rand(0).2)
    ensures Rounded(AtStart(), 0, 1, {}, none, rand) == Play([Moved(l)], AtStart().keys, 0, 0)
  {
    var p := AtStart();
    assert Typed(p.keys, {}) == p.keys;
    var d := Drain(p);
    assert d.letters == [] && d.keys == p.keys;
    assert d == p;
    assert Born(p, 0, rand(0)).letters == [l] && Born(p, 0, rand(0)).keys == p.keys;
    OneLetter(l);
    assert CaughtUp(p, 0, 1, none, rand) == CaughtUp(Ticked(p, 0, rand(0)), 1, 1, none, rand);
  }

  lemma OneLetter(l: Letter)
    ensures Kept([l], 1) == (if OffScreen(Moved(l)) then [] else [Moved(l)])
    ensures Hits([l], 1) == HitBy(l) && Misses([l], 1) == MissBy(l)
  {
    assert Kept([l], 0) == [];
  }

  lemma SecondTick(s: Play, rand: int -> (nat, nat, nat), none: int -> set<int>, l: Letter)
    requires none(1) == {} && l.x == 0.0 && l.v == 0.5 && 0 <= l.text < NR_KEYS
    requires s == Play([Moved(l)], AtStart().keys, 0, 0)
    ensures var t := Rounded(s, 1, 2, {l.text}, none, rand); t.letters == [] && t.hit == 1 && t.miss == 0
  {
    var p := s.(keys := Typed(s.keys, {l.text}));
    var d := Drain(p);
    assert Struck(p.letters, 0) && d.letters == [Moved(l).(v := -3.0)];
    OneLetter(d.letters[0]);
    var q := d.(keys := Typed(d.keys, none(1)));
    assert CaughtUp(d, 1, 2, none, rand) == CaughtUp(Ticked(q, 1, rand(1)), 2, 2, none, rand);
  }

  method WakeUp(g: Game, ws: seq<Wakeup>, i: nat, now0: int, rand: int -> (nat, nat, nat)) returns (now: int)
    requires i < |ws| && g.Playing(now0) && now0 == Elapsed(ws, i) && g.State() == PlayAfter(ws, i, rand)
    modifies g, g.fly, g.fly.pool, g.pressed
    ensures g.Playing(now) && now == Elapsed(ws, i + 1) && g.State() == PlayAfter(ws, i + 1, rand)
  {
    now := g.Round(now0, now0 + ws[i].ticks, ws[i].presses, ws[i].during, rand);
  }

  // main_loop, for any sequence of wake-ups: however the ticks are batched, the letters created
  // depend on the time alone, never more than fourteen are alive, none is lost, and the node
  // that ends the free list is never in play.
  method MainLoop(ws: seq<Wakeup>, rand: int -> (nat, nat, nat)) returns (g: Game, now: int)
    ensures now == Elapsed(ws, |ws|) && g.Playing(now) && g.State() == PlayAfter(ws, |ws|, rand)
    ensures g.created == (now + 32) / 33 == g.hit + g.miss + |g.live| && |g.live| <= 14
    ensures g.created > 0 ==> g.fly.freeHead != NULL && 1000 !in g.live
  {
    g := new Game();
    now := 0;
    for i := 0 to |ws|
      invariant g.Playing(now) && now == Elapsed(ws, i) && g.State() == PlayAfter(ws, i, rand)
      invariant fresh(g) && fresh(g.fly) && fresh(g.fly.pool) && fresh(g.pressed)
    {
      now := WakeUp(g, ws, i, now, rand);
    }
    g.PlayingSound(now);
  }
}
