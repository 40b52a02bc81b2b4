/** From the tokens of the text to the value.  A '-' or '*' is marked as a unary operator wherever no operand comes
    before it, and also behind a closing parenthesis; what the evaluator then makes of the text is the grouping of
    the tree with those operators in it. */
module ExprMarking {
  import opened Common
  import opened Expr
  import opened ExprTheorems
  import opened ExprGrouping

  // A tree as a text means it: unary operators are NEG and DEREF, binary ones are not.
  predicate Textual(t: Tree) {
    match t
    case Missing => false
    case Atom(_) => true
    case Paren(u) => Textual(u)
    case Bin(l, op, r) => Textual(r) && if l.Missing? then op >= DEREF else Textual(l) && op <= MUL
  }

  lemma {:induction false} TextualEnds(t: Tree)
    requires Textual(t)
    ensures !Dangling(t)
  {
    if t.Bin? { TextualEnds(t.r); }
  }

  // As the tokens come from the text: a unary operator looks like the binary one.
  function RawOp(op: int): int { if op == NEG then SUB else if op == DEREF then MUL else op }

  function Raw(t: Tree): seq<Token> {
    match t
    case Missing => []
    case Atom(k) => [k]
    case Paren(u) => [OPEN] + Raw(u) + [CLOSE]
    case Bin(l, op, r) => Raw(l) + [OpToken(RawOp(op))] + Raw(r)
  }

  // The marking of a part that follows the token prev.
  function MarkedIn(prev: Token, ts: seq<Token>): seq<Token> {
    seq(|ts|, i requires 0 <= i < |ts| => MarkAfter(if i == 0 then prev else ts[i - 1], ts[i]))
  }

  function MarkAfter(prev: Token, k: Token): Token {
    if prev.ty <= HEX then k else if k.ty == MUL then k.(ty := DEREF) else if k.ty == SUB then k.(ty := NEG) else k
  }

  lemma MarkedStart(ts: seq<Token>)
    ensures Marked(ts) == MarkedIn(OPEN, ts)
  {
  }

  // The tree ends with a closing parenthesis.
  predicate Closed(t: Tree) { t.Paren? || (t.Bin? && Closed(t.r)) }

  // What the marking makes of an operator behind l.
  function RemarkedOp(l: Tree, op: int): int {
    if Closed(l) && op == SUB then NEG else if Closed(l) && op == MUL then DEREF else op
  }

  function Remarked(t: Tree): Tree {
    match t
    case Missing => t
    case Atom(_) => t
    case Paren(u) => Paren(Remarked(u))
    case Bin(l, op, r) => Bin(Remarked(l), RemarkedOp(l, op), Remarked(r))
  }

  lemma {:induction false} RemarkedWellFormed(t: Tree)
    requires WellFormed(t)
    ensures WellFormed(Remarked(t)) && (Remarked(t).Missing? <==> t.Missing?)
    ensures Dangling(Remarked(t)) <==> Dangling(t)
    ensures |Print(Remarked(t))| == |Print(t)|
  {
    match t
    case Missing =>
    case Atom(_) =>
    case Paren(u) => RemarkedWellFormed(u);
    case Bin(l, _, r) =>
      RemarkedWellFormed(l);
      RemarkedWellFormed(r);
  }

  // ----- the marking is that of the remarked tree -----

  lemma MarkedSplit(prev: Token, a: seq<Token>, b: seq<Token>)
    requires |a| >= 1
    ensures MarkedIn(prev, a + b) == MarkedIn(prev, a) + MarkedIn(a[|a| - 1], b)
  {
  }

  lemma MarkedJoin(prev: Token, a: seq<Token>, k: Token, b: seq<Token>)
    ensures MarkedIn(prev, a + [k] + b)
            == MarkedIn(prev, a) + [MarkAfter(if a == [] then prev else Last(a), k)] + MarkedIn(k, b)
  {
    var front := a + [k];
    MarkedSplit(prev, front, b);
    assert front[|front| - 1] == k;
    if a == [] {
      assert front == [k];
    } else {
      MarkedSplit(prev, a, [k]);
    }
  }

  function Last(ts: seq<Token>): Token
    requires |ts| >= 1
  {
    ts[|ts| - 1]
  }

  lemma {:induction false} RawEnds(t: Tree)
    requires WellFormed(t) && Textual(t)
    ensures |Raw(t)| >= 1
    ensures if Closed(t) then Last(Raw(t)) == CLOSE else IsOperand(Last(Raw(t)))
  {
    if t.Bin? { RawEnds(t.r); }
  }

  lemma {:induction false} MarkedIsRemarked(prev: Token, t: Tree)
    requires WellFormed(t) && Textual(t) && prev.ty > HEX
    ensures MarkedIn(prev, Raw(t)) == Print(Remarked(t))
    decreases t
  {
    match t
    case Atom(k) =>
      assert MarkedIn(prev, [k]) == [k];
    case Paren(u) =>
      MarkedIsRemarked(OPEN, u);
      MarkedParen(prev, Raw(u));
    case Bin(l, op, r) =>
      var k := OpToken(RawOp(op));
      MarkedJoin(prev, Raw(l), k, Raw(r));
      MarkedIsRemarked(k, r);
      if l.Missing? {
        assert MarkedIn(prev, []) == [];
      } else {
        MarkedIsRemarked(prev, l);
        RawEnds(l);
      }
  }

  lemma MarkedParen(prev: Token, a: seq<Token>)
    requires prev.ty > HEX
    ensures MarkedIn(prev, [OPEN] + a + [CLOSE]) == [OPEN] + MarkedIn(OPEN, a) + [CLOSE]
  {
    var front := [OPEN] + a;
    MarkedSplit(prev, front, [CLOSE]);
    MarkedSplit(prev, [OPEN], a);
    assert MarkedIn(prev, [OPEN]) == [OPEN];
    assert MarkedIn(front[|front| - 1], [CLOSE]) == [CLOSE];
  }

  // What expr returns for any text: the value of the grouping of the remarked tree if that is readable, and a
  // failure if it is not.
  lemma ExprEvaluates(t: Tree, next: Token, load: Load)
    requires WellFormed(t) && Textual(t)
    ensures var g := Grouping(Remarked(t));
            Agrees(Readable(g), TreeValue(g, load), Ev(Marked(Raw(t)), next, true, load))
  {
    MarkedStart(Raw(t));
    MarkedIsRemarked(OPEN, t);
    RemarkedWellFormed(t);
    TextualEnds(t);
    EvaluatesGrouping(Remarked(t), next, load);
  }

  // ----- when the unary operators are told apart -----

  // No '-' or '*' follows a closing parenthesis.
  predicate Markable(t: Tree) {
    match t
    case Missing => true
    case Atom(_) => true
    case Paren(u) => Markable(u)
    case Bin(l, op, r) => Markable(l) && Markable(r) && RemarkedOp(l, op) == op
  }

  lemma SameParts(a: seq<Token>, b: seq<Token>, a': seq<Token>, b': seq<Token>)
    requires |a| == |a'|
    ensures a + b == a' + b' <==> a == a' && b == b'
  {
    if a + b == a' + b' {
      assert a == (a + b)[..|a|] && a' == (a' + b')[..|a|];
      assert b == (a + b)[|a|..] && b' == (a' + b')[|a|..];
    }
  }

  lemma SameJoins(a: seq<Token>, x: Token, b: seq<Token>, a': seq<Token>, y: Token, b': seq<Token>)
    requires |a| == |a'|
    ensures a + [x] + b == a' + [y] + b' <==> a == a' && x == y && b == b'
  {
    SameParts(a + [x], b, a' + [y], b');
    SameParts(a, [x], a', [y]);
    assert [x] == [y] <==> x == y by { assert [x][0] == x && [y][0] == y; }
  }

  lemma {:induction false} SamePrint(t: Tree)
    requires WellFormed(t)
    ensures Print(Remarked(t)) == Print(t) <==> Markable(t)
  {
    match t
    case Missing =>
    case Atom(_) =>
    case Paren(u) =>
      SamePrint(u);
      RemarkedWellFormed(u);
      SameJoins([], OPEN, Print(Remarked(u)) + [CLOSE], [], OPEN, Print(u) + [CLOSE]);
      SameParts(Print(Remarked(u)), [CLOSE], Print(u), [CLOSE]);
      assert forall a: seq<Token> :: [OPEN] + a + [CLOSE] == [] + [OPEN] + (a + [CLOSE]);
    case Bin(l, op, r) =>
      SamePrint(l);
      SamePrint(r);
      RemarkedWellFormed(l);
      SameJoins(Print(Remarked(l)), OpToken(RemarkedOp(l, op)), Print(Remarked(r)), Print(l), OpToken(op), Print(r));
  }

  // The marking recovers the tree exactly when no '-' or '*' follows a closing parenthesis: there it is
  // taken for a unary operator.
  lemma MarkingRight(prev: Token, t: Tree)
    requires WellFormed(t) && Textual(t) && prev.ty > HEX
    ensures MarkedIn(prev, Raw(t)) == Print(t) <==> Markable(t)
  {
    MarkedIsRemarked(prev, t);
    SamePrint(t);
  }

  // ----- when the text is read as it is meant -----

  // A NEG between two operands computes a difference like SUB.
  function Meant(t: Tree): Tree {
    match t
    case Missing => t
    case Atom(_) => t
    case Paren(u) => Paren(Meant(u))
    case Bin(l, op, r) => Bin(Meant(l), if op == NEG && !l.Missing? then SUB else op, Meant(r))
  }

  lemma {:induction false} MeantValue(t: Tree, load: Load)
    ensures TreeValue(Meant(t), load) == TreeValue(t, load)
  {
    match t
    case Missing =>
    case Atom(_) =>
    case Paren(u) => MeantValue(u, load);
    case Bin(l, _, r) =>
      MeantValue(l, load);
      MeantValue(r, load);
  }

  // No '*' follows a closing parenthesis.
  predicate StarsClear(t: Tree) {
    match t
    case Missing => true
    case Atom(_) => true
    case Paren(u) => StarsClear(u)
    case Bin(l, op, r) => StarsClear(l) && StarsClear(r) && !(Closed(l) && op == MUL)
  }

  lemma {:induction false} RemarkedMeant(t: Tree)
    requires Textual(t)
    ensures Meant(Remarked(t)) == t <==> StarsClear(t)
  {
    match t
    case Atom(_) =>
    case Paren(u) => RemarkedMeant(u);
    case Bin(l, op, r) =>
      if !l.Missing? { RemarkedMeant(l); }
      RemarkedMeant(r);
  }

  lemma {:induction false} MeantLength(t: Tree)
    ensures |Print(Meant(t))| == |Print(t)|
  {
    match t
    case Missing =>
    case Atom(_) =>
    case Paren(u) => MeantLength(u);
    case Bin(l, _, r) =>
      MeantLength(l);
      MeantLength(r);
  }

  // A tree with the tokens of the remarked one and the shape of t is the remarked one.
  lemma {:induction false} SameShape(g: Tree, t: Tree)
    requires WellFormed(t) && Meant(g) == t && Print(g) == Print(Remarked(t))
    ensures g == Remarked(t)
    decreases t
  {
    match t
    case Missing =>
    case Atom(_) =>
    case Paren(u) =>
      assert Print(g)[1..|Print(g)| - 1] == Print(g.t) && Print(Remarked(t))[1..|Print(g)| - 1] == Print(Remarked(u));
      SameShape(g.t, u);
    case Bin(l, op, r) =>
      MeantLength(g.l);
      RemarkedWellFormed(l);
      SameJoins(Print(g.l), OpToken(g.op), Print(g.r),
                Print(Remarked(l)), OpToken(RemarkedOp(l, op)), Print(Remarked(r)));
      SameShape(g.l, l);
      SameShape(g.r, r);
  }

  // The evaluator groups a text as it is meant if and only if the remarked tree has lower token types further out
  // and equal ones to the right, and no '*' follows a closing parenthesis.
  lemma MeantIff(t: Tree)
    requires WellFormed(t) && Textual(t)
    ensures Meant(Grouping(Remarked(t))) == t <==> Canonical(Remarked(t)) && StarsClear(t)
  {
    var u := Remarked(t);
    RemarkedWellFormed(t);
    RemarkedMeant(t);
    GroupingGroups(u);
    GroupingKeepsIff(u);
    if Meant(Grouping(u)) == t { SameShape(Grouping(u), t); }
  }

  // Then expr returns the value of the tree, or fails.
  lemma ExprRight(t: Tree, next: Token, load: Load)
    requires WellFormed(t) && Textual(t) && Canonical(Remarked(t)) && StarsClear(t)
    ensures Agrees(Readable(Remarked(t)), TreeValue(t, load), Ev(Marked(Raw(t)), next, true, load))
  {
    ExprEvaluates(t, next, load);
    RemarkedWellFormed(t);
    GroupingKeepsIff(Remarked(t));
    RemarkedMeant(t);
    MeantValue(Remarked(t), load);
  }

  function Num(v: Word): Tree { Atom(Token(NUM, v)) }

  // The text of one operation is worth what its operator computes.
  lemma OperationComputes(a: Word, op: int, b: Word, next: Token, load: Load)
    requires EQ <= op <= MUL
    ensures var r := Ev(Marked([Token(NUM, a), OpToken(op), Token(NUM, b)]), next, true, load);
            if op == DIV && b == 0 then r == Trap else r.Done? && r.ok && Computes(op, a, b, load, r.val)
  {
    var t := Bin(Num(a), op, Num(b));
    assert Raw(t) == [Token(NUM, a), OpToken(op), Token(NUM, b)];
    LeftAtomicRight(t, next, load);
    NodeComputes(Num(a), op, Num(b), load);
  }

  // And so is a unary operator in front of an operand.
  lemma UnaryComputes(op: int, b: Word, next: Token, load: Load)
    requires op == NEG || op == DEREF
    ensures var r := Ev(Marked([OpToken(RawOp(op)), Token(NUM, b)]), next, true, load);
            r == Done(if op == NEG then (0 - b) % WORD else load(b), true)
  {
    var t := Unary(op, Num(b));
    assert Raw(t) == [OpToken(RawOp(op)), Token(NUM, b)];
    NumIsSimple(b);
    UnarySimple(op, Num(b));
    ExprRight(t, next, load);
    NodeComputes(Missing, op, Num(b), load);
  }

  // Left operands that are single operands: a op (rest).
  predicate LeftAtomic(t: Tree) {
    match t
    case Atom(k) => IsOperand(k)
    case Bin(l, op, r) => l.Atom? && LeftAtomic(l) && EQ <= op <= MUL && LeftAtomic(if r.Paren? then r.t else r) &&
                          (r.Paren? || r.Atom?)
    case _ => false
  }

  lemma {:induction false} LeftAtomicRight(t: Tree, next: Token, load: Load)
    requires LeftAtomic(t)
    ensures Ev(Marked(Raw(t)), next, true, load) == TreeValue(t, load)
  {
    LeftAtomicGood(t);
    ExprRight(t, next, load);
  }

  lemma {:induction false} LeftAtomicGood(t: Tree)
    requires LeftAtomic(t)
    ensures WellFormed(t) && Textual(t) && Remarked(t) == t && Canonical(t) && StarsClear(t) && Readable(t)
    ensures !Dangling(t)
  {
    match t
    case Atom(_) =>
    case Bin(l, op, r) =>
      LeftAtomicGood(l);
      LeftAtomicGood(if r.Paren? then r.t else r);
  }

  // ----- what goes wrong elsewhere -----

  // A '-' after a closing parenthesis is read as the unary operator, which binds tighter than '*': what was
  // written as (a)-b*c is read as ((a)-b)*c.
  lemma MinusAfterParenthesis(a: Tree, b: Word, c: Tree)
    requires WellFormed(a) && Textual(a) && IsOperandTree(c) && Textual(c)
    ensures Grouping(Remarked(Bin(Paren(a), SUB, Bin(Num(b), MUL, c))))
            == Bin(Bin(Paren(Grouping(Remarked(a))), NEG, Num(b)), MUL, Grouping(Remarked(c)))
  {
    var x, y, z := Paren(Grouping(Remarked(a))), Num(b), Grouping(Remarked(c));
    assert !z.Bin?;
    assert Join(y, MUL, z) == Bin(y, MUL, z);
    assert Join(x, NEG, y) == Bin(x, NEG, y);
    assert Join(x, NEG, Bin(y, MUL, z)) == Bin(Join(x, NEG, y), MUL, z);
    assert Remarked(Bin(Num(b), MUL, c)) == Bin(y, MUL, Remarked(c)) && Grouping(y) == y;
  }

  // And a '*' there is read as a load: (a)*b is the word at b, whatever a is.
  lemma StarAfterParenthesis(a: Tree, b: Tree)
    requires WellFormed(a) && Textual(a) && IsOperandTree(b) && Textual(b)
    ensures Grouping(Remarked(Bin(Paren(a), MUL, b))) == Bin(Paren(Grouping(Remarked(a))), DEREF, Grouping(Remarked(b)))
  {
    assert !Grouping(Remarked(b)).Bin?;
  }

  // (1)-2*3 is -3, not -5.
  lemma DifferenceTimes(next: Token, load: Load)
    ensures var t := Bin(Paren(Num(1)), SUB, Bin(Num(2), MUL, Num(3)));
            Ev(Marked(Raw(t)), next, true, load) == Done(WORD - 3, true) && TreeValue(t, load) == Done(WORD - 5, true)
  {
    var t := Bin(Paren(Num(1)), SUB, Bin(Num(2), MUL, Num(3)));
    MinusAfterParenthesis(Num(1), 2, Num(3));
    TimesDifference(load);
    ExprEvaluates(t, next, load);
    assert TreeValue(t.r, load) == Done(6, true);
  }

  lemma TimesDifference(load: Load)
    ensures var g := Bin(Bin(Paren(Num(1)), NEG, Num(2)), MUL, Num(3));
            Readable(g) && TreeValue(g, load) == Done(WORD - 3, true)
  {
    var d := Bin(Paren(Num(1)), NEG, Num(2));
    assert Readable(d) && TreeValue(d, load) == Done(WORD - 1, true);
    assert Low32((WORD - 1) * 3) == WORD - 3;
  }

  // (2)*3 is the word at 3, not 6.
  lemma LoadForProduct(next: Token, load: Load)
    ensures var t := Bin(Paren(Num(2)), MUL, Num(3));
            Ev(Marked(Raw(t)), next, true, load) == Done(load(3), true) && TreeValue(t, load) == Done(6, true)
  {
    var t := Bin(Paren(Num(2)), MUL, Num(3));
    StarAfterParenthesis(Num(2), Num(3));
    ExprEvaluates(t, next, load);
    assert Readable(Grouping(Remarked(t)));
  }

  // 2*3+1 is 7.
  lemma TimesThenPlus(next: Token, load: Load)
    ensures Ev(Marked(Raw(Bin(Bin(Num(2), MUL, Num(3)), ADD, Num(1)))), next, true, load) == Done(7, true)
  {
    TwoOperations(2, MUL, 3, ADD, 1, next, load);
  }

  // 1+2==3 is 1.
  lemma SumThenEquals(next: Token, load: Load)
    ensures Ev(Marked(Raw(Bin(Bin(Num(1), ADD, Num(2)), EQ, Num(3)))), next, true, load) == Done(1, true)
  {
    TwoOperations(1, ADD, 2, EQ, 3, next, load);
  }

  // 7-2+1 is 6.
  lemma DifferenceThenPlus(next: Token, load: Load)
    ensures Ev(Marked(Raw(Bin(Bin(Num(7), SUB, Num(2)), ADD, Num(1)))), next, true, load) == Done(6, true)
  {
    TwoOperations(7, SUB, 2, ADD, 1, next, load);
  }

  // 8/2*3 is 1, not 12: '*' has the higher token type.
  lemma QuotientTimes(next: Token, load: Load)
    ensures var t := Bin(Bin(Num(8), DIV, Num(2)), MUL, Num(3));
            Ev(Marked(Raw(t)), next, true, load) == Done(1, true) && TreeValue(t, load) == Done(12, true)
  {
    TwoOperations(8, DIV, 2, MUL, 3, next, load);
    assert Apply(DIV, 8, 6, load) == Done(1, true) && Apply(DIV, 8, 2, load) == Done(4, true);
  }

  // a op b op' c is a op (b op' c) exactly if op does not have the higher type.
  lemma TwoOperations(a: Word, op: int, b: Word, op': int, c: Word, next: Token, load: Load)
    requires EQ <= op <= MUL && EQ <= op' <= MUL
    ensures Ev(Marked(Raw(Bin(Bin(Num(a), op, Num(b)), op', Num(c)))), next, true, load)
            == if op <= op' then TreeValue(Bin(Num(a), op, Bin(Num(b), op', Num(c))), load)
               else TreeValue(Bin(Bin(Num(a), op, Num(b)), op', Num(c)), load)
  {
    NumIsSimple(a);
    NumIsSimple(b);
    NumIsSimple(c);
    TwoSimple(Num(a), op, Num(b), op', Num(c));
    ExprEvaluates(Bin(Bin(Num(a), op, Num(b)), op', Num(c)), next, load);
  }

  // An operand on its own.
  predicate Simple(t: Tree) {
    !t.Bin? && WellFormed(t) && Textual(t) && Remarked(t) == t && Grouping(t) == t && !Closed(t) && !Dangling(t) &&
    Readable(t) && First(t) == NoOp && Canonical(t) && StarsClear(t)
  }

  lemma UnarySimple(op: int, x: Tree)
    requires Simple(x) && (op == NEG || op == DEREF)
    ensures var t := Unary(op, x);
            WellFormed(t) && Textual(t) && Remarked(t) == t && Canonical(t) && StarsClear(t) && Readable(t)
  {
    assert Top(x) == NEG + 1 && Top(Missing) == NEG + 1;
    assert First(Missing) == NoOp && Readable(Missing) && Canonical(Missing) && Remarked(Missing) == Missing;
  }

  lemma NumIsSimple(a: Word)
    ensures Simple(Num(a))
  {
  }

  lemma OneSimple(x: Tree, op: int, y: Tree)
    requires Simple(x) && Simple(y) && EQ <= op <= MUL
    ensures var t := Bin(x, op, y);
            WellFormed(t) && Textual(t) && Remarked(t) == t && Grouping(t) == t && !Closed(t) && !Dangling(t) &&
            Readable(t) && First(t) == FirstOp(op, false)
  {
  }

  lemma TwoSimple(x: Tree, op: int, y: Tree, op': int, z: Tree)
    requires Simple(x) && Simple(y) && Simple(z) && EQ <= op <= MUL && EQ <= op' <= MUL
    ensures var t := Bin(Bin(x, op, y), op', z);
            var g := if op <= op' then Bin(x, op, Bin(y, op', z)) else t;
            WellFormed(t) && Textual(t) && Remarked(t) == t && Grouping(t) == g && Readable(g)
  {
    OneSimple(x, op, y);
    OneSimple(y, op', z);
    var u := Bin(x, op, y);
    assert Join(y, op', z) == Bin(y, op', z);
    assert Join(u, op', z) == if op <= op' then Bin(x, op, Join(y, op', z)) else Bin(u, op', z);
  }

  // (a)-b is a - b all the same.
  lemma MinusAlone(a: Word, b: Word, next: Token, load: Load)
    ensures var t := Bin(Paren(Num(a)), SUB, Num(b));
            !Markable(t) && Ev(Marked(Raw(t)), next, true, load) == Done(Low32(a - b), true)
  {
    var t := Bin(Paren(Num(a)), SUB, Num(b));
    MinusIsReadable(a, b);
    MinusValue(a, b, load);
    ExprRight(t, next, load);
  }

  lemma MinusValue(a: Word, b: Word, load: Load)
    ensures var t := Bin(Paren(Num(a)), SUB, Num(b));
            !Markable(t) && TreeValue(t, load) == Done(Low32(a - b), true)
  {
    assert TreeValue(Paren(Num(a)), load) == TreeValue(Num(a), load) == Done(a, true);
  }

  lemma MinusIsReadable(a: Word, b: Word)
    ensures var t := Bin(Paren(Num(a)), SUB, Num(b));
            WellFormed(t) && Textual(t) && Canonical(Remarked(t)) && StarsClear(t) && Readable(Remarked(t))
  {
    var x, t := Paren(Num(a)), Bin(Paren(Num(a)), SUB, Num(b));
    assert Remarked(x) == x && Remarked(t) == Bin(x, NEG, Num(b));
    assert First(Num(a)) == NoOp;
    assert Canonical(x) && Readable(x) && First(x) == NoOp;
  }

  // (1+2)/3 is rejected.
  lemma SumInFront(next: Token, load: Load)
    ensures Fails(Ev(Marked(Raw(Bin(Paren(Bin(Num(1), ADD, Num(2))), DIV, Num(3)))), next, true, load))
  {
    var t := Bin(Paren(Bin(Num(1), ADD, Num(2))), DIV, Num(3));
    assert First(t.l) == FirstOp(ADD, true);
    ExprRight(t, next, load);
  }

  // 8-4-2 is 6, not 2.
  lemma RightAssociative(next: Token, load: Load)
    ensures var t := Bin(Bin(Num(8), SUB, Num(4)), SUB, Num(2));
            Ev(Marked(Raw(t)), next, true, load) == Done(6, true) && TreeValue(t, load) == Done(2, true)
  {
    var t := Bin(Bin(Num(8), SUB, Num(4)), SUB, Num(2));
    GroupsToTheRight(Num(8), Num(4), Num(2), SUB);
    ExprEvaluates(t, next, load);
    assert Readable(Grouping(Remarked(t)));
  }

  // -*x is *x: the unary '*' has the lower token type, and the sign in front of it counts for nothing.
  lemma NegatedLoad(x: Word, next: Token, load: Load)
    ensures Ev(Marked([OpToken(SUB), OpToken(MUL), Token(NUM, x)]), next, true, load) == Done(load(x), true)
  {
    var u := Unary(DEREF, Num(x));
    var t := Signed(1, u);
    assert t == Unary(NEG, u) by { assert Signed(0, u) == u; }
    assert Remarked(u) == u && Raw(u) == [OpToken(MUL), Token(NUM, x)];
    SignsAreMoot(1, Num(x), load);
    ExprEvaluates(t, next, load);
    assert Remarked(t) == t && Readable(Grouping(t)) && TreeValue(Grouping(t), load) == Done(load(x), true);
    assert Raw(t) == [OpToken(SUB), OpToken(MUL), Token(NUM, x)];
  }

  // (a/b)*c divides by zero: the '/' inside is taken for the operator, and what follows it fails with 0.
  lemma HiddenDivision(a: Word, b: Word, c: Word, next: Token, load: Load)
    ensures Ev(Marked([OPEN, Token(NUM, a), OpToken(DIV), Token(NUM, b), CLOSE, OpToken(MUL), Token(NUM, c)]),
               next, true, load) == Trap
  {
    var ts := [OPEN, Token(NUM, a), OpToken(DIV), Token(NUM, b), CLOSE, OpToken(DEREF), Token(NUM, c)];
    assert Marked([OPEN, Token(NUM, a), OpToken(DIV), Token(NUM, b), CLOSE, OpToken(MUL), Token(NUM, c)]) == ts;
    DivisionDepths(a, b, c);
    LeftFails(a, ts[2], load);
    assert ts[..2] == [OPEN, Token(NUM, a)];
    RightFails(ts, 2, next, false, load);
  }

  lemma DivisionDepths(a: Word, b: Word, c: Word)
    ensures var ts := [OPEN, Token(NUM, a), OpToken(DIV), Token(NUM, b), CLOSE, OpToken(DEREF), Token(NUM, c)];
            Balanced(ts) && !Enclosed(ts) && Depth(ts, 2) == 1 && Scan(ts, 7) == 2
  {
    var ts := [OPEN, Token(NUM, a), OpToken(DIV), Token(NUM, b), CLOSE, OpToken(DEREF), Token(NUM, c)];
    assert Depth(ts, 0) == 0 && Depth(ts, 1) == 1 && Depth(ts, 2) == 1 && Depth(ts, 3) == 1;
    assert Depth(ts, 4) == 1 && Depth(ts, 5) == 0 && Depth(ts, 6) == 0 && Depth(ts, 7) == 0;
    assert Scan(ts, 1) == -1;
    assert Scan(ts, 2) == -1;
    assert Scan(ts, 3) == 2;
    assert Scan(ts, 4) == 2;
    assert Scan(ts, 5) == 2;
    assert Scan(ts, 6) == 2;
  }

  lemma LeftFails(a: Word, next: Token, load: Load)
    ensures Ev([OPEN, Token(NUM, a)], next, true, load) == Done(0, false)
  {
    var ts := [OPEN, Token(NUM, a)];
    assert Depth(ts, 0) == 0 && Depth(ts, 1) == 1 && Depth(ts, 2) == 1;
  }
}
