/** The expression evaluator of the monitor (nemu/src/monitor/expr.c), from the list of tokens on. */
module Expr {
  import opened Common

  const NR_TOKENS := 32

  const NOTYPE := 256
  const NUM := 257
  const HEX := 260
  const LEFTP := 261
  const RIGHTP := 262
  const EQ := 263
  const ADD := 264
  const SUB := 265
  const DIV := 266
  const MUL := 267
  const DEREF := 268
  const NEG := 269

  // For an operand (NUM, REG, SYMB, HEX) val is the value its text stands for.
  datatype Token = Token(ty: int, val: Word)

  type Load = Word -> Word  // vaddr_read(a, SREG_CS, 4)

  predicate IsOperand(k: Token) { NUM <= k.ty <= HEX }

  predicate IsOp(k: Token) { k.ty > RIGHTP }

  // ----- parentheses -----

  function Step(k: Token): int { if k.ty == LEFTP then 1 else if k.ty == RIGHTP then -1 else 0 }

  // Opening minus closing parentheses among the first i tokens.
  function Depth(ts: seq<Token>, i: nat): int
    requires i <= |ts|
  {
    if i == 0 then 0 else Depth(ts, i - 1) + Step(ts[i - 1])
  }

  predicate NeverNegative(ts: seq<Token>, n: nat)
    requires n <= |ts|
  {
    forall i :: 0 <= i <= n ==> Depth(ts, i) >= 0
  }

  predicate Balanced(ts: seq<Token>) { NeverNegative(ts, |ts|) && Depth(ts, |ts|) == 0 }

  // The first token is an opening parenthesis that the last one closes.
  predicate Enclosed(ts: seq<Token>) {
    |ts| >= 2 && Balanced(ts) && ts[0].ty == LEFTP && ts[|ts| - 1].ty == RIGHTP &&
    forall i :: 0 < i < |ts| ==> Depth(ts, i) >= 1
  }

  // ----- choosing the operator -----

  // The loop's op after i tokens; -1 if there is none yet.
  function Scan(ts: seq<Token>, i: nat): (op: int)
    requires i <= |ts|
    ensures -1 <= op < i && (op >= 0 ==> IsOp(ts[op]))
  {
    if i == 0 then -1
    else
      var op := Scan(ts, i - 1);
      if !IsOp(ts[i - 1]) then op
      else if op == -1 || (ts[i - 1].ty < ts[op].ty && Depth(ts, i - 1) == 0) then i - 1
      else op
  }

  // ----- evaluation -----

  // Trap: a division by zero, or a span without an operator, where the code reads tokens[-1].
  datatype Outcome = Done(val: Word, ok: bool) | Trap

  function Low32(x: int): Word { x % WORD }

  function Quotient(x: Word, y: Word): Word
    requires y != 0
  {
    QuotientFits(x, y);
    x / y
  }

  lemma ProductNonnegative(x: int, y: int)
    requires 0 <= x && 0 <= y
    ensures 0 <= x * y
  {
  }

  lemma QuotientFits(x: int, y: int)
    requires 0 <= x && 0 < y
    ensures 0 <= x / y <= x
  {
    var q, r := x / y, x % y;
    assert x == y * q + r && 0 <= r < y;
    assert y * (-1 - q) == -y - y * q && (y - 1) * q == y * q - q;
    if q < 0 { ProductNonnegative(y, -1 - q); } else { ProductNonnegative(y - 1, q); }
  }

  function Apply(op: int, v1: Word, v2: Word, load: Load): Outcome {
    if op == ADD then Done(Low32(v1 + v2), true)
    else if op == NEG || op == SUB then Done(Low32(v1 - v2), true)
    else if op == DEREF then Done(load(v2), true)
    else if op == MUL then Done(Low32(v1 * v2), true)
    else if op == DIV then (if v2 == 0 then Trap else Done(Quotient(v1, v2), true))
    else if op == EQ then Done(if v1 == v2 then 1 else 0, true)
    else Done(0, true)
  }

  function WithOk(r: Outcome, ok: bool): Outcome { if r.Done? then Done(r.val, ok) else Trap }

  // What eval does with a span; next is the token after it, which an empty span looks at.
  function Ev(ts: seq<Token>, next: Token, ok: bool, load: Load): Outcome
    decreases |ts|
  {
    if |ts| == 0 then Done(0, ok && (next.ty == NEG || next.ty == DEREF))
    else if |ts| == 1 then Done(if IsOperand(ts[0]) then ts[0].val else 0, ok)
    else if Enclosed(ts) then Ev(ts[1..|ts| - 1], ts[|ts| - 1], ok, load)
    else if !Balanced(ts) || !ok then Done(0, false)
    else
      var op := Scan(ts, |ts|);
      if op == -1 then Trap
      else
        var v1 := Ev(ts[..op], ts[op], ok, load);
        if v1.Trap? then Trap
        else
          var v2 := Ev(ts[op + 1..], next, v1.ok, load);
          if v2.Trap? then Trap else WithOk(Apply(ts[op].ty, v1.val, v2.val, load), v2.ok)
  }

  lemma {:induction false} DepthOfSlice(ts: seq<Token>, p: nat, q: nat, i: nat)
    requires p <= q <= |ts| && i <= q - p
    ensures Depth(ts[p..q], i) == Depth(ts, p + i) - Depth(ts, p)
  {
    if i > 0 { DepthOfSlice(ts, p, q, i - 1); }
  }

  lemma SpanParts(all: seq<Token>, p: nat, q: nat, k: nat)
    requires p + k < q <= |all|
    ensures var ts := all[p..q]; all[p..p + k] == ts[..k] && all[p + k + 1..q] == ts[k + 1..] && all[p + k] == ts[k]
  {
  }

  lemma SpanInner(all: seq<Token>, p: nat, q: nat)
    requires p + 1 < q <= |all|
    ensures var ts := all[p..q]; all[p + 1..q - 1] == ts[1..|ts| - 1] && all[q - 1] == ts[|ts| - 1]
  {
    var ts := all[p..q];
    var a, b := all[p + 1..q - 1], ts[1..|ts| - 1];
    assert |a| == |b|;
    forall i | 0 <= i < |a| ensures a[i] == b[i] {
      assert a[i] == all[p + 1 + i] && b[i] == ts[1 + i];
    }
  }

  // What the two operands' outcomes make of an operator.
  function RootOutcome(op: int, v1: Outcome, v2: Outcome, load: Load): Outcome {
    if v1.Trap? || v2.Trap? then Trap else WithOk(Apply(op, v1.val, v2.val, load), v2.ok)
  }

  // ----- the code -----

  // The stack of check_parentheses: st[j] opened level j + 1 and is still open.
  predicate Opens(ts: seq<Token>, st: int, j: nat, i: nat)
    requires i <= |ts|
  {
    0 <= st < i && ts[st].ty == LEFTP && Depth(ts, st) == j && forall k :: st < k <= i ==> Depth(ts, k) >= j + 1
  }

  // The whole stack after i tokens, of positions counted from -p.
  predicate Stacked(ts: seq<Token>, st: seq<int>, p: int, top: int, i: nat)
    requires i <= |ts|
  {
    -1 <= top < |st| && top < i && Depth(ts, i) == top + 1 && NeverNegative(ts, i) &&
    forall j :: 0 <= j <= top ==> Opens(ts, st[j] - p, j, i)
  }

  lemma Push(ts: seq<Token>, st: seq<int>, st': seq<int>, p: int, top: int, i: nat)
    requires i < |ts| && Stacked(ts, st, p, top, i) && ts[i].ty == LEFTP && top + 1 < |st|
    requires st' == st[top + 1 := i + p]
    ensures Stacked(ts, st', p, top + 1, i + 1)
  {
    forall j | 0 <= j <= top + 1 ensures Opens(ts, st'[j] - p, j, i + 1) {}
  }

  lemma Pop(ts: seq<Token>, st: seq<int>, p: int, top: int, i: nat)
    requires i < |ts| && Stacked(ts, st, p, top, i) && ts[i].ty == RIGHTP && top >= 0
    ensures Stacked(ts, st, p, top - 1, i + 1) && Opens(ts, st[top] - p, top, i)
  {
    forall j | 0 <= j <= top - 1 ensures Opens(ts, st[j] - p, j, i + 1) {}
  }

  lemma Pass(ts: seq<Token>, st: seq<int>, p: int, top: int, i: nat)
    requires i < |ts| && Stacked(ts, st, p, top, i) && Step(ts[i]) == 0
    ensures Stacked(ts, st, p, top, i + 1)
  {
    forall j | 0 <= j <= top ensures Opens(ts, st[j] - p, j, i + 1) {}
  }

  // The loop's state after n tokens.
  predicate Scanned(ts: seq<Token>, st: seq<int>, p: int, top: int, last: int, n: nat)
    requires n <= |ts|
  {
    Stacked(ts, st, p, top, n) &&
    (n > 0 && ts[n - 1].ty == RIGHTP ==> Opens(ts, last - p, top + 1, n - 1))
  }

  lemma Unopened(ts: seq<Token>, st: seq<int>, p: int, i: nat)
    requires i < |ts| && Stacked(ts, st, p, -1, i) && ts[i].ty == RIGHTP
    ensures !Balanced(ts) && !Enclosed(ts)
  {
    assert Depth(ts, i + 1) == -1;
  }

  // The parenthesis that the last token closes is the first token exactly if the span is enclosed.
  lemma LastPartner(ts: seq<Token>, last: int)
    requires |ts| >= 2 && Balanced(ts) && ts[|ts| - 1].ty == RIGHTP && Opens(ts, last, 0, |ts| - 1)
    ensures last == 0 <==> Enclosed(ts)
  {
    if last != 0 && Enclosed(ts) {
      assert false;
    }
  }

  class Monitor {
    const tokens: array<Token>
    var nrToken: nat

    ghost predicate Valid()
      reads this
    {
      tokens.Length == NR_TOKENS && nrToken <= NR_TOKENS
    }

    ghost function Span(p: nat, q: int): seq<Token>
      reads this, tokens
      requires p <= q + 1 <= tokens.Length
    {
      tokens[..][p..q + 1]
    }

    ghost predicate IsSpan(ts: seq<Token>, p: nat, q: nat)
      reads this, tokens
      requires p <= q < tokens.Length
    {
      |ts| == q + 1 - p && forall i :: 0 <= i < |ts| ==> ts[i] == tokens[p + i]
    }

    // Where the C code looks past the array there is no token.
    ghost function After(q: int): Token
      reads this, tokens
      requires -1 <= q < tokens.Length
    {
      if q + 1 < tokens.Length then tokens[q + 1] else Token(NOTYPE, 0)
    }

    method CheckParentheses(p: nat, q: nat, success: bool) returns (r: bool, ok: bool)
      requires Valid() && p < q < NR_TOKENS
      ensures r == Enclosed(Span(p, q))
      ensures ok == (success && Balanced(Span(p, q)))
    {
      ghost var ts := Span(p, q);
      var stk := new int[NR_TOKENS];
      var top, lastOutP := ScanParentheses(p, q, stk, ts);
      if top != -1 { return false, false; }
      r := lastOutP == p && tokens[p].ty == LEFTP && tokens[q].ty == RIGHTP;
      ok := success;
      if tokens[q].ty == RIGHTP { LastPartner(ts, lastOutP - p); }
    }

    // The loop; a closing parenthesis too many ends it with top == -2.
    method ScanParentheses(p: nat, q: nat, stk: array<int>, ghost ts: seq<Token>) returns (top: int, lastOutP: int)
      requires Valid() && p < q < NR_TOKENS && stk.Length == NR_TOKENS && IsSpan(ts, p, q)
      modifies stk
      ensures top == -1 <==> Balanced(ts)
      ensures top == -1 && ts[|ts| - 1].ty == RIGHTP ==> Opens(ts, lastOutP - p, 0, |ts| - 1)
    {
      top, lastOutP := -1, 0;
      ghost var n := 0;
      for i := p to q + 1
        invariant n == i - p && Scanned(ts, stk[..], p, top, lastOutP, n)
      {
        ghost var st := stk[..];
        var k := tokens[i];
        assert k == ts[n];
        if k.ty == LEFTP {
          Push(ts, st, st[top + 1 := i], p, top, n);
          top := top + 1;
          stk[top] := i;
          assert stk[..] == st[top := i];
        } else if k.ty == RIGHTP {
          if top == -1 {
            Unopened(ts, st, p, n);
            return -2, lastOutP;
          }
          Pop(ts, st, p, top, n);
          lastOutP := stk[top];
          top := top - 1;
        } else {
          Pass(ts, st, p, top, n);
        }
        n := n + 1;
      }
      assert n == |ts|;
    }

    // The loop that looks for the operator.
    method FindOperator(p: nat, q: nat, ghost ts: seq<Token>) returns (op: int)
      requires Valid() && p < q < NR_TOKENS && IsSpan(ts, p, q)
      ensures var k := Scan(ts, |ts|); op == if k == -1 then -1 else p + k
    {
      op := -1;
      var inParentheses := 0;
      ghost var n := 0;
      for i := p to q + 1
        invariant n == i - p && inParentheses == Depth(ts, n)
        invariant op == if Scan(ts, n) == -1 then -1 else p + Scan(ts, n)
      {
        assert tokens[i] == ts[n] && (op >= 0 ==> tokens[op] == ts[op - p]);
        if op == -1 && tokens[i].ty > RIGHTP {
          op := i;
        } else {
          if tokens[i].ty == LEFTP {
            inParentheses := inParentheses + 1;
          } else if tokens[i].ty == RIGHTP {
            inParentheses := inParentheses - 1;
          } else if tokens[i].ty > RIGHTP && tokens[i].ty < tokens[op].ty && inParentheses == 0 {
            op := i;
          }
        }
        n := n + 1;
      }
      assert n == |ts|;
    }

    method Eval(p: nat, q: int, success: bool, load: Load) returns (r: Outcome)
      requires Valid() && p <= q + 1 <= NR_TOKENS
      ensures r == Ev(Span(p, q), After(q), success, load)
      decreases q + 1 - p, 2
    {
      ghost var ts := Span(p, q);
      if p > q {
        if p < tokens.Length && (tokens[p].ty == NEG || tokens[p].ty == DEREF) {
          return Done(0, success);
        }
        return Done(0, false);
      } else if p == q {
        return Done(if IsOperand(tokens[p]) then tokens[p].val else 0, success);
      }
      var enclosed, ok := CheckParentheses(p, q, success);
      if enclosed {
        SpanInner(tokens[..], p, q + 1);
        r := Eval(p + 1, q - 1, ok, load);
      } else if !ok {
        r := Done(0, false);
      } else {
        r := EvalOperator(p, q, load, ts);
      }
    }

    method EvalOperator(p: nat, q: nat, load: Load, ghost ts: seq<Token>) returns (r: Outcome)
      requires Valid() && p < q < NR_TOKENS && ts == Span(p, q) && Balanced(ts) && !Enclosed(ts)
      ensures r == Ev(ts, After(q), true, load)
      decreases q + 1 - p, 1
    {
      var op := FindOperator(p, q, ts);
      if op == -1 { return Trap; }
      ghost var all, k := tokens[..], op - p;
      SpanParts(all, p, q + 1, k);
      r := EvalParts(p, op, q, load);
    }

    // Both operands, then the operator.
    method EvalParts(p: nat, op: nat, q: nat, load: Load) returns (r: Outcome)
      requires Valid() && p <= op <= q < NR_TOKENS
      ensures var v1 := Ev(Span(p, op - 1), tokens[op], true, load);
              r == if v1.Trap? then Trap
                   else RootOutcome(tokens[op].ty, v1, Ev(Span(op + 1, q), After(q), v1.ok, load), load)
      decreases q + 1 - p, 0
    {
      var v1 := Eval(p, op - 1, true, load);
      if v1.Trap? { return Trap; }
      var v2 := Eval(op + 1, q, v1.ok, load);
      if v2.Trap? { return Trap; }
      r := WithOk(Apply(tokens[op].ty, v1.val, v2.val, load), v2.ok);
    }

    // The unary operators are told apart by the token before them; then eval runs on the whole list.
    method ExprValue(success: bool, load: Load) returns (r: Outcome)
      requires Valid()
      modifies tokens
      ensures tokens[..nrToken] == Marked(old(tokens[..nrToken]))
      ensures tokens[nrToken..] == old(tokens[nrToken..])
      ensures r == Ev(tokens[..nrToken], After(nrToken - 1), success, load)
    {
      ghost var ts := tokens[..nrToken];
      for i := 0 to nrToken
        invariant forall j :: 0 <= j < i ==> tokens[j] == MarkedAt(ts, j)
        invariant forall j :: i <= j < nrToken ==> tokens[j] == ts[j]
        invariant tokens[nrToken..] == old(tokens[nrToken..])
      {
        if tokens[i].ty == MUL && (i == 0 || tokens[i - 1].ty > HEX) {
          tokens[i] := tokens[i].(ty := DEREF);
        }
        if tokens[i].ty == SUB && (i == 0 || tokens[i - 1].ty > HEX) {
          tokens[i] := tokens[i].(ty := NEG);
        }
      }
      assert tokens[..nrToken] == Marked(ts);
      assert Span(0, nrToken - 1) == tokens[..nrToken];
      r := Eval(0, nrToken - 1, success, load);
    }
  }

  // A '*' or '-' that starts the list or does not follow an operand counts as unary.
  function MarkedAt(ts: seq<Token>, i: nat): Token
    requires i < |ts|
  {
    if i > 0 && ts[i - 1].ty <= HEX then ts[i]
    else if ts[i].ty == MUL then ts[i].(ty := DEREF)
    else if ts[i].ty == SUB then ts[i].(ty := NEG)
    else ts[i]
  }

  function Marked(ts: seq<Token>): seq<Token> {
    seq(|ts|, i requires 0 <= i < |ts| => MarkedAt(ts, i))
  }
}
