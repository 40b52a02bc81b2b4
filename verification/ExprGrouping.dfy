/** How the evaluator groups what it is given.  Every tree is printed without regard to precedence, and read back
    as another one with the same tokens: lower token types end up further out and equal ones to the right. */
module ExprGrouping {
  import opened Expr
  import opened ExprTheorems

  // An operator between: the least token type ends up at the root, the leftmost if there are several.
  function Join(l: Tree, op: int, r: Tree): Tree
    decreases l, r
  {
    if l.Bin? && l.op <= op && (r.Bin? ==> l.op <= r.op) then Bin(l.l, l.op, Join(l.r, op, r))
    else if r.Bin? && r.op < op then Bin(Join(l, op, r.l), r.op, r.r)
    else Bin(l, op, r)
  }

  function Grouping(t: Tree): Tree {
    match t
    case Missing => t
    case Atom(_) => t
    case Paren(u) => Paren(Grouping(u))
    case Bin(l, op, r) => Join(Grouping(l), op, Grouping(r))
  }

  // A tree the evaluator can have built.
  predicate Grouped(t: Tree) { WellFormed(t) && Canonical(t) }

  // In it the root has the least type.
  lemma RootIsTop(t: Tree)
    requires Canonical(t)
    ensures Top(t) == if t.Bin? then t.op else NEG + 1
  {
  }

  lemma {:induction false} JoinPrints(l: Tree, op: int, r: Tree)
    ensures Print(Join(l, op, r)) == Print(l) + [OpToken(op)] + Print(r)
    decreases l, r
  {
    if l.Bin? && l.op <= op && (r.Bin? ==> l.op <= r.op) {
      JoinPrints(l.r, op, r);
      Regroup(Print(l.l), [OpToken(l.op)], Print(l.r), [OpToken(op)], Print(r));
    } else if r.Bin? && r.op < op {
      JoinPrints(l, op, r.l);
      Regroup(Print(l), [OpToken(op)], Print(r.l), [OpToken(r.op)], Print(r.r));
    }
  }

  lemma Regroup(a: seq<Token>, x: seq<Token>, b: seq<Token>, y: seq<Token>, c: seq<Token>)
    ensures a + x + (b + y + c) == (a + x + b) + y + c
  {
  }

  lemma {:induction false} JoinEnds(l: Tree, op: int, r: Tree)
    ensures Join(l, op, r).Bin? && (Dangling(Join(l, op, r)) <==> Dangling(r))
    decreases l, r
  {
    if l.Bin? && l.op <= op && (r.Bin? ==> l.op <= r.op) { JoinEnds(l.r, op, r); }
  }

  lemma {:induction false} JoinCanonical(l: Tree, op: int, r: Tree)
    requires Canonical(l) && Canonical(r) && op <= NEG
    ensures Canonical(Join(l, op, r)) && Top(Join(l, op, r)) == Min(Min(Top(l), op), Top(r))
    decreases l, r
  {
    RootIsTop(l);
    RootIsTop(r);
    if l.Bin? && l.op <= op && (r.Bin? ==> l.op <= r.op) {
      JoinCanonical(l.r, op, r);
    } else if r.Bin? && r.op < op {
      JoinCanonical(l, op, r.l);
    }
  }

  lemma {:induction false} JoinWellFormed(l: Tree, op: int, r: Tree)
    requires WellFormed(l) && WellFormed(r) && EQ <= op <= NEG
    requires (Dangling(l) ==> op >= DEREF) && (r.Missing? ==> op == NEG)
    ensures WellFormed(Join(l, op, r))
    decreases l, r
  {
    if l.Bin? && l.op <= op && (r.Bin? ==> l.op <= r.op) {
      JoinWellFormed(l.r, op, r);
      JoinEnds(l.r, op, r);
    } else if r.Bin? && r.op < op {
      JoinWellFormed(l, op, r.l);
      JoinEnds(l, op, r.l);
    }
  }

  // Whatever tree is printed, its grouping has the same tokens, and is one the evaluator can read.
  lemma {:induction false} GroupingGroups(t: Tree)
    requires WellFormed(t)
    ensures Grouped(Grouping(t)) && Print(Grouping(t)) == Print(t)
    ensures (Grouping(t).Missing? <==> t.Missing?) && (Dangling(Grouping(t)) <==> Dangling(t))
  {
    match t
    case Missing =>
    case Atom(_) =>
    case Paren(u) => GroupingGroups(u);
    case Bin(l, op, r) =>
      GroupingGroups(l);
      GroupingGroups(r);
      JoinPrints(Grouping(l), op, Grouping(r));
      JoinEnds(Grouping(l), op, Grouping(r));
      JoinCanonical(Grouping(l), op, Grouping(r));
      JoinWellFormed(Grouping(l), op, Grouping(r));
  }

  // For every tree: evaluating its printed form gives the value of its grouping if that is readable, and fails if
  // it is not.
  lemma EvaluatesGrouping(t: Tree, next: Token, load: Load)
    requires WellFormed(t) && MayFollow(t, next)
    ensures Agrees(Readable(Grouping(t)), TreeValue(Grouping(t), load), Ev(Print(t), next, true, load))
  {
    GroupingGroups(t);
    ReadsTree(Grouping(t), next, load);
  }

  // A tree is its own grouping exactly if each operator has at most the type of those outside parentheses in its
  // right operand and less than that of those in its left one.
  lemma {:induction false} GroupingKeepsIff(t: Tree)
    requires WellFormed(t)
    ensures Grouping(t) == t <==> Canonical(t)
  {
    GroupingGroups(t);
    if Canonical(t) { CanonicalStays(t); }
  }

  lemma {:induction false} CanonicalStays(t: Tree)
    requires Canonical(t)
    ensures Grouping(t) == t
  {
    match t
    case Missing =>
    case Atom(_) =>
    case Paren(u) => CanonicalStays(u);
    case Bin(l, op, r) =>
      CanonicalStays(l);
      CanonicalStays(r);
      RootIsTop(l);
      RootIsTop(r);
  }

  // ----- the grouping is determined by the tokens -----

  // The operator at place p is the leftmost of the least type outside parentheses.
  predicate RootAt(ts: seq<Token>, p: nat)
    requires p < |ts|
  {
    IsOp(ts[p]) && Depth(ts, p) == 0 &&
    forall j :: 0 <= j < |ts| && IsOp(ts[j]) && Depth(ts, j) == 0 ==> Beats(ts, p, j)
  }

  lemma OneRoot(ts: seq<Token>, p: nat, q: nat)
    requires p < |ts| && q < |ts| && RootAt(ts, p) && RootAt(ts, q)
    ensures p == q
  {
    assert Beats(ts, p, q) && Beats(ts, q, p);
  }

  lemma JoinedRoot(l: seq<Token>, k: Token, r: seq<Token>, a: int)
    requires Balanced(l) && Balanced(r) && IsOp(k) && OpsFrom(l, a) && a > k.ty && OpsFrom(r, k.ty)
    ensures |l| < |Joined(l, k, r)| && RootAt(Joined(l, k, r), |l|)
  {
    var ts := Joined(l, k, r);
    JoinedTokens(l, k, r);
    JoinedDepthAt(l, k, r, |l|);
    forall j | 0 <= j < |ts| && IsOp(ts[j]) && Depth(ts, j) == 0 ensures Beats(ts, |l|, j) {
      JoinedDepthAt(l, k, r, j);
    }
  }

  lemma BinRoot(t: Tree)
    requires Grouped(t) && t.Bin?
    ensures var p := |Print(t.l)|;
            p < |Print(t)| && RootAt(Print(t), p) && Print(t)[p] == OpToken(t.op) &&
            Print(t)[..p] == Print(t.l) && Print(t)[p + 1..] == Print(t.r)
  {
    PrintBalanced(t.l);
    PrintBalanced(t.r);
    TopIsLeast(t.l);
    TopIsLeast(t.r);
    JoinedTokens(Print(t.l), OpToken(t.op), Print(t.r));
    JoinedRoot(Print(t.l), OpToken(t.op), Print(t.r), Top(t.l));
  }

  // Operands have no operator outside parentheses.
  lemma OperandHasNoRoot(t: Tree, p: nat)
    requires WellFormed(t) && !t.Bin? && p < |Print(t)|
    ensures !RootAt(Print(t), p)
  {
    if t.Paren? {
      PrintBalanced(t.t);
      WrappedDepths(Print(t.t));
    }
  }

  lemma {:induction false} OneGrouping(s: Tree, t: Tree)
    requires Grouped(s) && Grouped(t) && Print(s) == Print(t)
    ensures s == t
    decreases s
  {
    if s.Bin? {
      BinRoot(s);
      if !t.Bin? { OperandHasNoRoot(t, |Print(s.l)|); }
      BinRoot(t);
      OneRoot(Print(s), |Print(s.l)|, |Print(t.l)|);
      OneGrouping(s.l, t.l);
      OneGrouping(s.r, t.r);
    } else if t.Bin? {
      BinRoot(t);
      OperandHasNoRoot(s, |Print(t.l)|);
    } else {
      SameOperand(s, t);
      if s.Paren? { OneGrouping(s.t, t.t); }
    }
  }

  lemma SameOperand(s: Tree, t: Tree)
    requires Grouped(s) && Grouped(t) && Print(s) == Print(t) && !s.Bin? && !t.Bin?
    ensures (s.Paren? && t.Paren? && Print(s.t) == Print(t.t)) || (!s.Paren? && s == t)
  {
    if s.Atom? { assert Print(s)[0] == s.k; }
    if t.Atom? { assert Print(t)[0] == t.k; }
    if s.Paren? { assert Print(s)[0] == OPEN && Print(s)[1..|Print(s)| - 1] == Print(s.t); }
    if t.Paren? { assert Print(t)[0] == OPEN && Print(t)[1..|Print(t)| - 1] == Print(t.t); }
  }

  // So any two trees with the same tokens are grouped alike.
  lemma GroupedAlike(s: Tree, t: Tree)
    requires WellFormed(s) && WellFormed(t) && Print(s) == Print(t)
    ensures Grouping(s) == Grouping(t)
  {
    GroupingGroups(s);
    GroupingGroups(t);
    OneGrouping(Grouping(s), Grouping(t));
  }

  // ----- what that does to expressions -----

  predicate IsOperandTree(t: Tree) { WellFormed(t) && (t.Atom? || t.Paren?) }

  // a - b - c, meant as (a - b) - c, is taken for a - (b - c), whatever the operator.
  lemma GroupsToTheRight(a: Tree, b: Tree, c: Tree, op: int)
    requires IsOperandTree(a) && IsOperandTree(b) && IsOperandTree(c)
    ensures Grouping(Bin(Bin(a, op, b), op, c)) == Bin(Grouping(a), op, Bin(Grouping(b), op, Grouping(c)))
  {
    var x, y, z := Grouping(a), Grouping(b), Grouping(c);
    assert !x.Bin? && !y.Bin? && !z.Bin?;
    assert Join(x, op, y) == Bin(x, op, y);
    assert Join(y, op, z) == Bin(y, op, z);
    assert Join(Bin(x, op, y), op, z) == Bin(x, op, Join(y, op, z));
  }

  function Signed(n: nat, t: Tree): Tree { if n == 0 then t else Unary(NEG, Signed(n - 1, t)) }

  // And any number of signs in front of a load are dropped: they end up left of it, on their own.
  lemma {:induction false} SignsAreMoot(n: nat, x: Tree, load: Load)
    requires IsOperandTree(x)
    ensures Grouping(Signed(n, Unary(DEREF, x))) == Bin(Signed(n, Missing), DEREF, Grouping(x))
    ensures Readable(Signed(n, Missing)) && TreeValue(Signed(n, Missing), load) == Done(0, true)
    ensures !Hidden(Signed(n, Missing), DEREF)
  {
    if n > 0 {
      SignsAreMoot(n - 1, x, load);
      var signs := Signed(n - 1, Missing);
      assert n == 1 || (signs.Bin? && signs.op == NEG);
      assert Join(Missing, NEG, signs) == Bin(Missing, NEG, signs);
    }
  }
}
