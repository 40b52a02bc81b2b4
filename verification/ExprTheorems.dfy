/** Which expressions the evaluator gets right.  A tree is read back by eval as it was printed exactly when
    no operator hidden in the leading parentheses of a left operand binds at most as tightly as the operator
    itself; otherwise the expression is rejected, or the emulator divides by zero. */
module ExprTheorems {
  import opened Common
  import opened Expr

  // Missing is the operand that is not there: what is left of a unary operator and, in the trees the evaluator
  // makes of a text, right of a sign in front of a load.
  datatype Tree = Missing | Atom(k: Token) | Paren(t: Tree) | Bin(l: Tree, op: int, r: Tree)

  function Unary(op: int, t: Tree): Tree { Bin(Missing, op, t) }

  // The tree ends where an operand is missing.
  predicate Dangling(t: Tree) { t.Missing? || (t.Bin? && Dangling(t.r)) }

  // Only the operators that can be unary go without an operand before them, and only NEG without one behind it.
  predicate WellFormed(t: Tree) {
    match t
    case Missing => true
    case Atom(k) => IsOperand(k)
    case Paren(u) => WellFormed(u) && !Dangling(u)
    case Bin(l, op, r) =>
      EQ <= op <= NEG && WellFormed(l) && WellFormed(r) && (Dangling(l) ==> op >= DEREF) && (r.Missing? ==> op == NEG)
  }

  const OPEN := Token(LEFTP, 0)
  const CLOSE := Token(RIGHTP, 0)

  function OpToken(op: int): Token { Token(op, 0) }

  function Print(t: Tree): seq<Token> {
    match t
    case Missing => []
    case Atom(k) => [k]
    case Paren(u) => [OPEN] + Print(u) + [CLOSE]
    case Bin(l, op, r) => Print(l) + [OpToken(op)] + Print(r)
  }

  // The value of the tree; none where it divides by zero.
  function TreeValue(t: Tree, load: Load): Outcome {
    match t
    case Missing => Done(0, true)
    case Atom(k) => Done(k.val, true)
    case Paren(u) => TreeValue(u, load)
    case Bin(l, op, r) => Combine(op, TreeValue(l, load), TreeValue(r, load), load)
  }

  function Combine(op: int, a: Outcome, b: Outcome, load: Load): Outcome {
    if a.Done? && b.Done? then Apply(op, a.val, b.val, load) else Trap
  }

  // What an operator computes: the arithmetic of unsigned words, rounded down, 0 or 1 for a comparison, a load.
  predicate Computes(op: int, x: Word, y: Word, load: Load, v: Word) {
    (op == ADD ==> v == (x + y) % WORD) &&
    (op == SUB || op == NEG ==> v == (x - y) % WORD) &&
    (op == MUL ==> v == (x * y) % WORD) &&
    (op == DIV ==> v * y <= x < (v + 1) * y) &&
    (op == EQ ==> (v == 1 <==> x == y) && (v == 0 <==> x != y)) &&
    (op == DEREF ==> v == load(y))
  }

  lemma ApplyComputes(op: int, x: Word, y: Word, load: Load)
    requires EQ <= op <= NEG
    ensures var r := Apply(op, x, y, load);
            if op == DIV && y == 0 then r == Trap else r.Done? && r.ok && Computes(op, x, y, load, r.val)
  {
    if op == DIV && y != 0 { QuotientComputes(x, y); }
  }

  lemma QuotientComputes(x: Word, y: Word)
    requires y != 0
    ensures Quotient(x, y) * y <= x < (Quotient(x, y) + 1) * y
  {
    var q := x / y;
    assert x == q * y + x % y && 0 <= x % y < y;
    assert (q + 1) * y == q * y + y;
  }

  // So at every node of a tree.
  lemma NodeComputes(l: Tree, op: int, r: Tree, load: Load)
    requires EQ <= op <= NEG && TreeValue(l, load).Done? && TreeValue(r, load).Done?
    ensures var x, y, w := TreeValue(l, load).val, TreeValue(r, load).val, TreeValue(Bin(l, op, r), load);
            if op == DIV && y == 0 then w == Trap else w.Done? && w.ok && Computes(op, x, y, load, w.val)
  {
    ApplyComputes(op, TreeValue(l, load).val, TreeValue(r, load).val, load);
  }

  // ----- what the source's precedence makes of a printed tree -----

  function Min(x: int, y: int): int { if x <= y then x else y }

  // The least token type among the operators outside parentheses.
  function Top(t: Tree): int {
    if t.Bin? then Min(Min(Top(t.l), t.op), Top(t.r)) else NEG + 1
  }

  // The tree groups as the code does: lower token types last, equal ones to the right.
  predicate Canonical(t: Tree) {
    match t
    case Missing => true
    case Atom(_) => true
    case Paren(u) => Canonical(u)
    case Bin(l, op, r) => Canonical(l) && Canonical(r) && Top(l) > op && Top(r) >= op
  }

  // The first operator of the printed tree, and whether parentheses enclose it.
  datatype FirstOp = NoOp | FirstOp(op: int, inner: bool)

  function First(t: Tree): FirstOp {
    match t
    case Missing => NoOp
    case Atom(_) => NoOp
    case Paren(u) => if First(u).NoOp? then NoOp else FirstOp(First(u).op, true)
    case Bin(l, op, _) => if First(l).NoOp? then FirstOp(op, false) else First(l)
  }

  // The scan takes the first operator even if it is inside parentheses.
  predicate Hidden(l: Tree, op: int) { First(l).FirstOp? && First(l).inner && First(l).op <= op }

  predicate Readable(t: Tree) {
    match t
    case Missing => true
    case Atom(_) => true
    case Paren(u) => Readable(u)
    case Bin(l, op, r) => Readable(l) && Readable(r) && !Hidden(l, op)
  }

  // ----- depths -----

  lemma {:induction false} DepthLeft(a: seq<Token>, b: seq<Token>, i: nat)
    requires i <= |a|
    ensures Depth(a + b, i) == Depth(a, i)
  {
    if i > 0 { DepthLeft(a, b, i - 1); }
  }

  lemma {:induction false} DepthRight(a: seq<Token>, b: seq<Token>, i: nat)
    requires i <= |b|
    ensures Depth(a + b, |a| + i) == Depth(a, |a|) + Depth(b, i)
  {
    if i == 0 { DepthLeft(a, b, |a|); } else { DepthRight(a, b, i - 1); }
  }

  // l, an operator, r
  function Joined(l: seq<Token>, k: Token, r: seq<Token>): seq<Token> { l + [k] + r }

  lemma JoinedDepths(l: seq<Token>, k: Token, r: seq<Token>)
    requires Balanced(l) && Balanced(r) && Step(k) == 0
    ensures Balanced(Joined(l, k, r))
    ensures forall i :: 0 <= i <= |l| ==> Depth(Joined(l, k, r), i) == Depth(l, i)
    ensures forall i :: 0 <= i <= |r| ==> Depth(Joined(l, k, r), |l| + 1 + i) == Depth(r, i)
  {
    var ts, front := Joined(l, k, r), l + [k];
    assert Depth(front, |front|) == 0 by { DepthRight(l, [k], 1); assert Depth([k], 0) == 0; }
    forall i | 0 <= i <= |l| ensures Depth(ts, i) == Depth(l, i) {
      DepthLeft(front, r, i);
      DepthLeft(l, [k], i);
    }
    forall i | 0 <= i <= |r| ensures Depth(ts, |l| + 1 + i) == Depth(r, i) {
      DepthRight(front, r, i);
    }
    forall i | 0 <= i <= |ts| ensures Depth(ts, i) >= 0 {
      if i > |l| { assert Depth(ts, |l| + 1 + (i - |l| - 1)) == Depth(r, i - |l| - 1); }
    }
    assert Depth(ts, |l| + 1 + |r|) == Depth(r, |r|);
  }

  function Wrapped(u: seq<Token>): seq<Token> { [OPEN] + u + [CLOSE] }

  lemma WrappedDepths(u: seq<Token>)
    requires Balanced(u)
    ensures Enclosed(Wrapped(u)) && Wrapped(u)[1..|Wrapped(u)| - 1] == u
    ensures forall i :: 0 <= i <= |u| ==> Depth(Wrapped(u), 1 + i) == 1 + Depth(u, i)
  {
    var ts, front := Wrapped(u), [OPEN] + u;
    forall i | 0 <= i <= |u| ensures Depth(ts, 1 + i) == 1 + Depth(u, i) {
      DepthLeft(front, [CLOSE], 1 + i);
      DepthRight([OPEN], u, i);
      assert Depth([OPEN], 0) == 0 && Depth([OPEN], 1) == 1;
    }
    assert Depth(ts, |ts|) == Depth(ts, 1 + |u|) - 1;
    forall i | 0 < i < |ts| ensures Depth(ts, i) >= 1 {
      assert Depth(ts, 1 + (i - 1)) == 1 + Depth(u, i - 1);
    }
    assert Depth(ts, 0) == 0;
  }

  lemma {:induction false} PrintBalanced(t: Tree)
    requires WellFormed(t)
    ensures Balanced(Print(t))
  {
    match t
    case Missing =>
      assert Depth([], 0) == 0;
    case Atom(k) =>
      assert Depth([k], 0) == 0 && Depth([k], 1) == 0;
    case Paren(u) =>
      PrintBalanced(u);
      WrappedDepths(Print(u));
    case Bin(l, op, r) =>
      PrintBalanced(l);
      PrintBalanced(r);
      JoinedDepths(Print(l), OpToken(op), Print(r));
  }

  // ----- the operator the scan ends with -----

  predicate FirstAt(ts: seq<Token>, j: nat)
    requires j < |ts|
  {
    IsOp(ts[j]) && forall i :: 0 <= i < j ==> !IsOp(ts[i])
  }

  // Only the operators outside parentheses and the very first one compete.
  predicate Candidate(ts: seq<Token>, j: nat)
    requires j < |ts|
  {
    IsOp(ts[j]) && (Depth(ts, j) == 0 || FirstAt(ts, j))
  }

  predicate Beats(ts: seq<Token>, op: nat, j: nat)
    requires op < |ts| && j < |ts|
  {
    ts[op].ty <= ts[j].ty && (j < op ==> ts[op].ty < ts[j].ty)
  }

  // Among those the scan takes the leftmost of the least type.
  lemma {:induction false} ScanIsLeftmostLeast(ts: seq<Token>, n: nat)
    requires n <= |ts|
    ensures var op := Scan(ts, n);
            if op == -1 then forall j :: 0 <= j < n ==> !IsOp(ts[j])
            else Candidate(ts, op) && forall j :: 0 <= j < n && Candidate(ts, j) ==> Beats(ts, op, j)
  {
    if n > 0 { ScanIsLeftmostLeast(ts, n - 1); }
  }

  // ----- operators of a printed tree -----

  lemma JoinedTokens(l: seq<Token>, k: Token, r: seq<Token>)
    ensures var ts := Joined(l, k, r);
            |ts| == |l| + 1 + |r| && ts[|l|] == k && ts[..|l|] == l && ts[|l| + 1..] == r &&
            (forall j :: 0 <= j < |l| ==> ts[j] == l[j]) && (forall j :: |l| < j < |ts| ==> ts[j] == r[j - |l| - 1])
  {
  }

  lemma JoinedDepthAt(l: seq<Token>, k: Token, r: seq<Token>, j: nat)
    requires Balanced(l) && Balanced(r) && Step(k) == 0 && j < |Joined(l, k, r)|
    ensures Depth(Joined(l, k, r), j) == if j <= |l| then Depth(l, j) else Depth(r, j - |l| - 1)
  {
    JoinedDepths(l, k, r);
    if j > |l| { assert Depth(Joined(l, k, r), |l| + 1 + (j - |l| - 1)) == Depth(r, j - |l| - 1); }
  }

  // Every operator outside parentheses has at least this type.
  predicate OpsFrom(ts: seq<Token>, least: int) {
    forall j :: 0 <= j < |ts| && IsOp(ts[j]) && Depth(ts, j) == 0 ==> ts[j].ty >= least
  }

  lemma JoinedOps(l: seq<Token>, k: Token, r: seq<Token>, a: int, b: int)
    requires Balanced(l) && Balanced(r) && Step(k) == 0 && OpsFrom(l, a) && OpsFrom(r, b)
    ensures OpsFrom(Joined(l, k, r), Min(Min(a, k.ty), b))
  {
    var ts := Joined(l, k, r);
    JoinedTokens(l, k, r);
    JoinedDepths(l, k, r);
    forall j | 0 <= j < |ts| && IsOp(ts[j]) && Depth(ts, j) == 0 ensures ts[j].ty >= Min(Min(a, k.ty), b) {
      if j < |l| {
        assert Depth(ts, j) == Depth(l, j);
      } else if j > |l| {
        assert Depth(ts, |l| + 1 + (j - |l| - 1)) == Depth(r, j - |l| - 1);
      }
    }
  }

  lemma WrappedOps(u: seq<Token>, least: int)
    requires Balanced(u)
    ensures OpsFrom(Wrapped(u), least)
  {
    WrappedDepths(u);
    var ts := Wrapped(u);
    assert forall j :: 0 <= j < |ts| ==> !(IsOp(ts[j]) && Depth(ts, j) == 0);
  }

  lemma {:induction false} TopIsLeast(t: Tree)
    requires WellFormed(t)
    ensures OpsFrom(Print(t), Top(t))
  {
    match t
    case Missing =>
    case Atom(k) =>
    case Paren(u) =>
      PrintBalanced(u);
      WrappedOps(Print(u), Top(t));
    case Bin(l, op, r) =>
      PrintBalanced(l);
      PrintBalanced(r);
      TopIsLeast(l);
      TopIsLeast(r);
      JoinedOps(Print(l), OpToken(op), Print(r), Top(l), Top(r));
  }

  // f is the first operator of ts, and f.inner says whether it is inside parentheses.
  predicate IsFirst(ts: seq<Token>, f: FirstOp) {
    if f.NoOp? then forall j :: 0 <= j < |ts| ==> !IsOp(ts[j])
    else exists j :: 0 <= j < |ts| && FirstAt(ts, j) && ts[j].ty == f.op && (f.inner <==> Depth(ts, j) > 0)
  }

  lemma JoinedFirst(l: seq<Token>, k: Token, r: seq<Token>, f: FirstOp)
    requires Balanced(l) && Balanced(r) && IsOp(k) && IsFirst(l, f)
    ensures IsFirst(Joined(l, k, r), if f.NoOp? then FirstOp(k.ty, false) else f)
  {
    var ts := Joined(l, k, r);
    JoinedTokens(l, k, r);
    JoinedDepths(l, k, r);
    if f.NoOp? {
      assert Depth(ts, |l|) == Depth(l, |l|);
      assert FirstAt(ts, |l|);
    } else {
      var j :| 0 <= j < |l| && FirstAt(l, j) && l[j].ty == f.op && (f.inner <==> Depth(l, j) > 0);
      assert Depth(ts, j) == Depth(l, j);
      assert FirstAt(ts, j);
    }
  }

  lemma WrappedFirst(u: seq<Token>, f: FirstOp)
    requires Balanced(u) && IsFirst(u, f)
    ensures IsFirst(Wrapped(u), if f.NoOp? then NoOp else FirstOp(f.op, true))
  {
    WrappedDepths(u);
    var ts := Wrapped(u);
    assert forall j :: 0 < j <= |u| ==> ts[j] == u[j - 1];
    if f.FirstOp? {
      var j :| 0 <= j < |u| && FirstAt(u, j) && u[j].ty == f.op;
      assert Depth(ts, 1 + j) == 1 + Depth(u, j);
      assert FirstAt(ts, j + 1);
    }
  }

  lemma {:induction false} FirstIsFirst(t: Tree)
    requires WellFormed(t)
    ensures IsFirst(Print(t), First(t))
  {
    match t
    case Missing =>
    case Atom(k) =>
    case Paren(u) =>
      PrintBalanced(u);
      FirstIsFirst(u);
      WrappedFirst(Print(u), First(u));
    case Bin(l, op, r) =>
      PrintBalanced(l);
      PrintBalanced(r);
      FirstIsFirst(l);
      JoinedFirst(Print(l), OpToken(op), Print(r), First(l));
  }

  // ----- where the scan ends -----

  lemma JoinedSpan(l: seq<Token>, k: Token, r: seq<Token>)
    requires Balanced(l) && Balanced(r) && IsOp(k) && |l| + |r| >= 1
    ensures var ts := Joined(l, k, r); |ts| >= 2 && Balanced(ts) && !Enclosed(ts)
  {
    var ts := Joined(l, k, r);
    JoinedTokens(l, k, r);
    JoinedDepths(l, k, r);
    if |l| == 0 { assert ts[0] == k; } else { assert |r| >= 0 && Depth(ts, |l|) == Depth(l, |l|) == 0; }
  }

  // If the first operator of l is not in the way, the scan ends at the operator between l and r ...
  lemma ScanFindsRoot(l: seq<Token>, k: Token, r: seq<Token>, f: FirstOp, a: int)
    requires Balanced(l) && Balanced(r) && IsOp(k)
    requires OpsFrom(l, a) && a > k.ty && OpsFrom(r, k.ty) && IsFirst(l, f) && !(f.FirstOp? && f.inner && f.op <= k.ty)
    ensures var ts := Joined(l, k, r); Scan(ts, |ts|) == |l|
  {
    var ts := Joined(l, k, r);
    JoinedTokens(l, k, r);
    JoinedDepths(l, k, r);
    ScanIsLeftmostLeast(ts, |ts|);
    var op, n := Scan(ts, |ts|), |l|;
    assert Depth(ts, n) == Depth(l, n) == 0;
    assert Candidate(ts, n) && Beats(ts, op, n);
    JoinedDepthAt(l, k, r, op);
    if op < n && Depth(ts, op) != 0 {
      assert FirstAt(ts, op);
      HiddenFirst(l, f, op);
    }
  }

  // A first operator inside parentheses is the one f describes.
  lemma HiddenFirst(l: seq<Token>, f: FirstOp, j: nat)
    requires IsFirst(l, f) && j < |l| && IsOp(l[j]) && forall i :: 0 <= i < j ==> !IsOp(l[i])
    ensures f == FirstOp(l[j].ty, Depth(l, j) > 0)
  {
  }

  // ... and if it is, the scan stays there.
  lemma ScanStaysInside(l: seq<Token>, k: Token, r: seq<Token>, f: FirstOp, a: int)
    requires Balanced(l) && Balanced(r) && IsOp(k)
    requires OpsFrom(l, a) && a > k.ty && OpsFrom(r, k.ty) && IsFirst(l, f) && f.FirstOp? && f.inner && f.op <= k.ty
    ensures var ts := Joined(l, k, r); 0 <= Scan(ts, |ts|) < |l| && Depth(ts, Scan(ts, |ts|)) > 0
  {
    var ts := Joined(l, k, r);
    JoinedTokens(l, k, r);
    JoinedDepths(l, k, r);
    ScanIsLeftmostLeast(ts, |ts|);
    var op, n := Scan(ts, |ts|), |l|;
    var j :| 0 <= j < n && FirstAt(l, j) && l[j].ty == f.op && Depth(l, j) > 0;
    assert FirstAt(ts, j) && Candidate(ts, j) && Beats(ts, op, j);
    assert Depth(ts, j) == Depth(l, j);
    JoinedDepthAt(l, k, r, op);
    assert FirstAt(ts, op) ==> op == j;
  }

  // ----- evaluation of a printed tree -----

  lemma EvRoot(l: seq<Token>, k: Token, r: seq<Token>, next: Token, load: Load)
    requires Balanced(l) && Balanced(r) && IsOp(k) && |l| + |r| >= 1
    requires var ts := Joined(l, k, r); Scan(ts, |ts|) == |l|
    ensures var v1 := Ev(l, k, true, load);
            Ev(Joined(l, k, r), next, true, load) ==
              if v1.Trap? then Trap
              else var v2 := Ev(r, next, v1.ok, load);
                   if v2.Trap? then Trap else WithOk(Apply(k.ty, v1.val, v2.val, load), v2.ok)
  {
    JoinedSpan(l, k, r);
    JoinedTokens(l, k, r);
  }

  // Once an evaluation has failed it never succeeds.
  lemma {:induction false} FailureStays(ts: seq<Token>, next: Token, load: Load)
    ensures var r := Ev(ts, next, false, load); r.Done? ==> !r.ok
    decreases |ts|
  {
    if |ts| >= 2 && Enclosed(ts) { FailureStays(ts[1..|ts| - 1], ts[|ts| - 1], load); }
  }

  // What follows a token inside parentheses is unbalanced, and evaluating it fails.
  lemma RightFails(ts: seq<Token>, op: nat, next: Token, ok: bool, load: Load)
    requires Balanced(ts) && op + 2 < |ts| && Depth(ts, op) > 0 && Step(ts[op]) == 0
    ensures Ev(ts[op + 1..], next, ok, load) == Done(0, false)
  {
    var right := ts[op + 1..|ts|];
    DepthOfSlice(ts, op + 1, |ts|, |right|);
    assert Depth(ts, op + 1) == Depth(ts, op);
    assert !Balanced(right);
    assert ts[op + 1..] == right;
  }

  // So an operator inside parentheses makes the whole evaluation fail.
  lemma EvInside(l: seq<Token>, k: Token, r: seq<Token>, next: Token, load: Load)
    requires Balanced(l) && Balanced(r) && IsOp(k)
    requires var ts := Joined(l, k, r); 0 <= Scan(ts, |ts|) < |l| && Depth(ts, Scan(ts, |ts|)) > 0
    ensures Fails(Ev(Joined(l, k, r), next, true, load))
  {
    var ts := Joined(l, k, r);
    var op := Scan(ts, |ts|);
    JoinedSpan(l, k, r);
    JoinedTokens(l, k, r);
    JoinedDepths(l, k, r);
    assert Depth(ts, op + 1) == Depth(ts, op) && Depth(ts, |l|) == Depth(l, |l|) == 0;
    EvInsideSpan(ts, op, next, load);
  }

  lemma EvInsideSpan(ts: seq<Token>, op: nat, next: Token, load: Load)
    requires Balanced(ts) && !Enclosed(ts) && op + 2 < |ts| && op == Scan(ts, |ts|) && Depth(ts, op) > 0
    ensures Fails(Ev(ts, next, true, load))
  {
    var v1 := Ev(ts[..op], ts[op], true, load);
    if v1.Done? { RightFails(ts, op, next, v1.ok, load); }
  }

  predicate Fails(v: Outcome) { v.Done? ==> !v.ok }

  predicate Agrees(readable: bool, want: Outcome, v: Outcome) { if readable then v == want else Fails(v) }

  lemma {:induction false} TreeValueOk(t: Tree, load: Load)
    ensures TreeValue(t, load).Done? ==> TreeValue(t, load).ok
  {
    if t.Paren? { TreeValueOk(t.t, load); }
  }

  // l and r, each read back, around an operator the scan finds.
  lemma JoinedAgrees(l: seq<Token>, op: int, r: seq<Token>, rl: bool, wl: Outcome, rr: bool, wr: Outcome,
                     next: Token, load: Load)
    requires Balanced(l) && Balanced(r) && op > RIGHTP && |l| + |r| >= 1
    requires var ts := Joined(l, OpToken(op), r); Scan(ts, |ts|) == |l|
    requires Agrees(rl, wl, Ev(l, OpToken(op), true, load)) && Agrees(rr, wr, Ev(r, next, true, load))
    requires (wl.Done? ==> wl.ok) && (wr.Done? ==> wr.ok)
    ensures Agrees(rl && rr, Combine(op, wl, wr, load), Ev(Joined(l, OpToken(op), r), next, true, load))
  {
    EvRoot(l, OpToken(op), r, next, load);
    var v1 := Ev(l, OpToken(op), true, load);
    if v1.Done? { FailureStays(r, next, load); }
  }

  // The evaluator returns the tree's value on the readable trees and fails on all others.
  predicate Reads(t: Tree, next: Token, load: Load) {
    Agrees(Readable(t), TreeValue(t, load), Ev(Print(t), next, true, load))
  }

  // An operand may be missing only in front of an operator that can be unary.
  predicate MayFollow(t: Tree, next: Token) { Dangling(t) ==> next.ty == NEG || next.ty == DEREF }

  lemma {:induction false} ReadsTree(t: Tree, next: Token, load: Load)
    requires WellFormed(t) && Canonical(t) && MayFollow(t, next)
    ensures Reads(t, next, load)
  {
    match t
    case Missing =>
    case Atom(k) =>
    case Paren(u) =>
      PrintBalanced(u);
      WrappedDepths(Print(u));
      ReadsTree(u, CLOSE, load);
    case Bin(l, op, r) =>
      ReadsTree(l, OpToken(op), load);
      ReadsTree(r, next, load);
      if l.Missing? && r.Missing? { ReadsSign(next, load); }
      else if Hidden(l, op) { RejectsHidden(l, op, r, next, load); }
      else { ReadsBin(l, op, r, next, load); }
  }

  // A sign on its own is worth 0.
  lemma ReadsSign(next: Token, load: Load)
    ensures Reads(Bin(Missing, NEG, Missing), next, load)
  {
    assert Print(Bin(Missing, NEG, Missing)) == [OpToken(NEG)];
  }

  lemma {:induction false} Printed(t: Tree)
    ensures |Print(t)| == 0 <==> t.Missing?
  {
  }

  lemma ReadsBin(l: Tree, op: int, r: Tree, next: Token, load: Load)
    requires WellFormed(Bin(l, op, r)) && Canonical(Bin(l, op, r)) && !Hidden(l, op) && !(l.Missing? && r.Missing?)
    requires Reads(l, OpToken(op), load) && Reads(r, next, load)
    ensures Reads(Bin(l, op, r), next, load)
  {
    Printed(l);
    Printed(r);
    PrintBalanced(l);
    PrintBalanced(r);
    TopIsLeast(l);
    TopIsLeast(r);
    FirstIsFirst(l);
    TreeValueOk(l, load);
    TreeValueOk(r, load);
    ScanFindsRoot(Print(l), OpToken(op), Print(r), First(l), Top(l));
    JoinedAgrees(Print(l), op, Print(r), Readable(l), TreeValue(l, load), Readable(r), TreeValue(r, load), next, load);
  }

  lemma RejectsHidden(l: Tree, op: int, r: Tree, next: Token, load: Load)
    requires WellFormed(Bin(l, op, r)) && Canonical(Bin(l, op, r)) && Hidden(l, op)
    ensures Reads(Bin(l, op, r), next, load)
  {
    PrintBalanced(l);
    PrintBalanced(r);
    TopIsLeast(l);
    TopIsLeast(r);
    FirstIsFirst(l);
    ScanStaysInside(Print(l), OpToken(op), Print(r), First(l), Top(l));
    EvInside(Print(l), OpToken(op), Print(r), next, load);
  }
}
