/** The operator-precedence expression parser: an operand/operator stack reduced on the fly. */
module ExprParser {
  import opened Wrappers

  datatype BinaryOpKind =
    | Add | Subtract | Multiply | Divide | Rem
    | Less | LessEqual | Greater | GreaterEqual | Equals | NotEquals
    | And | Or | OptionalElse | Pipe

  function Precedence(op: BinaryOpKind): nat {
    match op
    case Pipe => 102
    case Rem => 101
    case Multiply => 100
    case Divide => 100
    case Add => 90
    case Subtract => 90
    case Less => 80
    case LessEqual => 80
    case Greater => 80
    case GreaterEqual => 80
    case Equals => 80
    case NotEquals => 80
    case And => 70
    case Or => 66
    case OptionalElse => 65
  }

  /** How tightly the operators of the language bind, the tightest first; those of one group bind alike. */
  const GROUPS: seq<set<BinaryOpKind>> := [
    {Pipe}, {Rem}, {Multiply, Divide}, {Add, Subtract},
    {Less, LessEqual, Greater, GreaterEqual, Equals, NotEquals}, {And}, {Or}, {OptionalElse}
  ]

  ghost predicate Tighter(a: BinaryOpKind, b: BinaryOpKind) {
    Earlier(GROUPS, a, b)
  }

  ghost predicate SameGroup(a: BinaryOpKind, b: BinaryOpKind) {
    Together(GROUPS, a, b)
  }

  ghost predicate Earlier<T>(groups: seq<set<T>>, a: T, b: T) {
    exists i, j :: 0 <= i < j < |groups| && a in groups[i] && b in groups[j]
  }

  ghost predicate Together<T>(groups: seq<set<T>>, a: T, b: T) {
    exists i :: 0 <= i < |groups| && a in groups[i] && b in groups[i]
  }

  ghost predicate OnlyIn<T>(groups: seq<set<T>>, a: T, i: nat) {
    i < |groups| && a in groups[i] && forall j :: 0 <= j < |groups| && a in groups[j] ==> i == j
  }

  lemma {:induction false} IndicesCompare<T>(groups: seq<set<T>>, a: T, b: T, i: nat, j: nat)
    requires OnlyIn(groups, a, i) && OnlyIn(groups, b, j)
    ensures Earlier(groups, a, b) <==> i < j
    ensures Together(groups, a, b) <==> i == j
  {
  }

  function GroupOf(op: BinaryOpKind): (i: nat)
    ensures OnlyIn(GROUPS, op, i)
  {
    match op
    case Pipe => 0
    case Rem => 1
    case Multiply => 2
    case Divide => 2
    case Add => 3
    case Subtract => 3
    case And => 5
    case Or => 6
    case OptionalElse => 7
    case _ => 4
  }

  /** The numbers order the operators as the groups do. */
  lemma {:induction false} PrecedencesOrderGroups(a: BinaryOpKind, b: BinaryOpKind)
    ensures Precedence(a) > Precedence(b) <==> Tighter(a, b)
    ensures Precedence(a) == Precedence(b) <==> SameGroup(a, b)
  {
    GroupsCompare(a, b);
    PrecedenceFallsByGroup(a, b);
  }

  lemma {:induction false} GroupsCompare(a: BinaryOpKind, b: BinaryOpKind)
    ensures Tighter(a, b) <==> GroupOf(a) < GroupOf(b)
    ensures SameGroup(a, b) <==> GroupOf(a) == GroupOf(b)
  {
    IndicesCompare(GROUPS, a, b, GroupOf(a), GroupOf(b));
  }

  lemma {:induction false} PrecedenceFallsByGroup(a: BinaryOpKind, b: BinaryOpKind)
    ensures Precedence(a) > Precedence(b) <==> GroupOf(a) < GroupOf(b)
    ensures Precedence(a) == Precedence(b) <==> GroupOf(a) == GroupOf(b)
  {
  }

  datatype Span = Span(fileId: nat, start: nat, len: nat) {
    function End(): nat { start + len }

    /** From this span's start to the other's end; the source asserts the first clause. */
    function Extended(other: Span): Span
      requires other.End() >= End()
    {
      Span(fileId, start, other.End() - start)
    }
  }

  /** Operand stands for everything one call of the operand parser consumes. */
  datatype Tok = Operand(id: nat, span: Span) | Operator(op: BinaryOpKind) | Other

  datatype Expr =
    | Leaf(id: nat, span: Span)
    | Binary(op: BinaryOpKind, lhs: Expr, rhs: Expr, span: Span)

  datatype StackMember = StackOperator(op: BinaryOpKind) | StackExpr(expr: Expr)

  // ---------- what a correct parse is ----------

  /** The tokens of a tree, in order. */
  ghost function Yield(e: Expr): (ts: seq<Tok>)
    ensures ts != []
    decreases e
  {
    match e
    case Leaf(id, span) => [Operand(id, span)]
    case Binary(op, l, r, _) => Yield(l) + [Operator(op)] + Yield(r)
  }

  ghost predicate BindsAtLeast(e: Expr, p: nat) {
    e.Binary? ==> Precedence(e.op) >= p
  }

  /** Tighter operators sit below looser ones, equal ones associate to the left. */
  ghost predicate WellNested(e: Expr)
    decreases e
  {
    e.Binary? ==>
      && WellNested(e.lhs) && WellNested(e.rhs)
      && BindsAtLeast(e.lhs, Precedence(e.op))
      && BindsAtLeast(e.rhs, Precedence(e.op) + 1)
  }

  /** The same by groups: an operator has no looser one below it, and on its right only tighter ones. */
  ghost predicate Grouped(e: Expr)
    decreases e
  {
    e.Binary? ==>
      && Grouped(e.lhs) && Grouped(e.rhs)
      && (e.lhs.Binary? ==> Tighter(e.lhs.op, e.op) || SameGroup(e.lhs.op, e.op))
      && (e.rhs.Binary? ==> Tighter(e.rhs.op, e.op))
  }

  lemma {:induction false} NestedIsGrouped(e: Expr)
    ensures WellNested(e) <==> Grouped(e)
    decreases e
  {
    if e.Binary? {
      NestedIsGrouped(e.lhs);
      NestedIsGrouped(e.rhs);
      if e.lhs.Binary? { PrecedencesOrderGroups(e.lhs.op, e.op); }
      if e.rhs.Binary? { PrecedencesOrderGroups(e.rhs.op, e.op); }
    }
  }

  ghost function FirstSpan(e: Expr): Span
    decreases e
  {
    if e.Leaf? then e.span else FirstSpan(e.lhs)
  }

  ghost function LastSpan(e: Expr): Span
    decreases e
  {
    if e.Leaf? then e.span else LastSpan(e.rhs)
  }

  /** Every built node's span runs from its first to its last operand. */
  ghost predicate SpansCover(e: Expr)
    decreases e
  {
    e.Binary? ==>
      && SpansCover(e.lhs) && SpansCover(e.rhs)
      && e.span.fileId == FirstSpan(e).fileId
      && e.span.start == FirstSpan(e).start
      && e.span.End() == LastSpan(e).End()
  }

  /** Operands end in the order in which they appear. */
  ghost predicate EndsAscend(ts: seq<Tok>) {
    forall i, j :: 0 <= i < j < |ts| && ts[i].Operand? && ts[j].Operand? ==> ts[i].span.End() <= ts[j].span.End()
  }

  // ---------- the stack ----------

  ghost function Yields(stack: seq<StackMember>): seq<Tok> {
    if stack == [] then []
    else
      var top := stack[|stack| - 1];
      Yields(stack[..|stack| - 1]) + if top.StackExpr? then Yield(top.expr) else [Operator(top.op)]
  }

  ghost predicate Correct(e: Expr) {
    WellNested(e) && SpansCover(e)
  }

  /** Operands and operators alternate, precedences strictly increase, and every
      operand is a correct tree that fits between its neighbours. */
  ghost predicate StackOk(s: seq<StackMember>)
    decreases |s|
  {
    && s != []
    && var n := |s|;
    && s[n - 1].StackExpr? && Correct(s[n - 1].expr)
    && (n > 1 ==>
         && s[n - 2].StackOperator?
         && StackOk(s[..n - 2])
         && TopBelow(s[..n - 2], Precedence(s[n - 2].op))
         && BindsAtLeast(s[n - 3].expr, Precedence(s[n - 2].op))
         && BindsAtLeast(s[n - 1].expr, Precedence(s[n - 2].op) + 1))
  }

  ghost predicate TopBelow(s: seq<StackMember>, p: nat)
    requires s != []
  {
    |s| > 1 ==> s[|s| - 2].StackOperator? && Precedence(s[|s| - 2].op) < p
  }

  /** The shape the stack keeps, member by member. */
  lemma {:induction false} StackShape(s: seq<StackMember>)
    requires StackOk(s)
    ensures |s| % 2 == 1
    ensures forall i :: 0 <= i < |s| ==> s[i].StackExpr? == (i % 2 == 0)
    ensures forall i, j :: 0 <= i < j < |s| && s[i].StackOperator? && s[j].StackOperator? ==>
      Precedence(s[i].op) < Precedence(s[j].op)
    decreases |s|
  {
    var n := |s|;
    if n > 1 {
      var below := s[..n - 2];
      StackShape(below);
      forall i | 0 <= i < n ensures s[i].StackExpr? == (i % 2 == 0) {
        if i < n - 2 { assert below[i] == s[i]; }
      }
      forall i, j | 0 <= i < j < n && s[i].StackOperator? && s[j].StackOperator?
        ensures Precedence(s[i].op) < Precedence(s[j].op)
      {
        assert below[i] == s[i];
        if j < n - 2 { assert below[j] == s[j]; }
      }
    }
  }

  class Parser {
    const tokens: seq<Tok>
    var cursor: nat

    constructor (tokens: seq<Tok>)
      ensures this.tokens == tokens && cursor == 0
    {
      this.tokens := tokens;
      cursor := 0;
    }

    function Peek(): Tok
      reads this
    {
      if cursor < |tokens| then tokens[cursor] else Other
    }

    method ParseOperand() returns (r: Option<Expr>)
      modifies `cursor
      ensures old(Peek()).Operand? ==> cursor == old(cursor) + 1 && r == Some(Leaf(old(Peek()).id, old(Peek()).span))
      ensures !old(Peek()).Operand? ==> cursor == old(cursor) && r == None
    {
      var tok := Peek();
      if tok.Operand? {
        cursor := cursor + 1;
        return Some(Leaf(tok.id, tok.span));
      }
      return None;
    }

    /** Parses operand (operator operand)*. Ok(None): no operand here, nothing consumed. Err: an
        operator without a right operand. Otherwise the correct tree of exactly the consumed tokens. */
    method ParseExpression() returns (r: Result<Option<Expr>>)
      requires cursor <= |tokens| && EndsAscend(tokens)
      modifies `cursor
      ensures old(cursor) <= cursor <= |tokens|
      ensures r == Ok(None) <==> !old(Peek()).Operand?
      ensures r == Ok(None) ==> cursor == old(cursor)
      ensures r.Ok? && r.value.Some? ==>
        && Yield(r.value.value) == tokens[old(cursor)..cursor]
        && Correct(r.value.value) && Grouped(r.value.value)
        && !Peek().Operator?
      ensures r.Err? ==> cursor > old(cursor) && tokens[cursor - 1].Operator? && !Peek().Operand?
    {
      ghost var start := cursor;
      var first := ParseOperand();
      if first.None? {
        return Ok(None);
      }
      var expr := first.value;
      assert Yield(expr) == tokens[start..cursor];
      if Peek().Operator? {
        var rest := ParseOperators(expr, start);
        if rest.Err? { return Err; }
        expr := rest.value;
      }
      NestedIsGrouped(expr);
      return Ok(Some(expr));
    }

    /** The expression stack: pushes operator and operand pairs, reducing as precedences demand, then collapses it. */
    method ParseOperators(first: Expr, ghost start: nat) returns (r: Result<Expr>)
      requires start < cursor <= |tokens| && EndsAscend(tokens) && first.Leaf? && Yield(first) == tokens[start..cursor]
      requires Correct(first)
      modifies `cursor
      ensures old(cursor) <= cursor <= |tokens|
      ensures r.Ok? ==> Yield(r.value) == tokens[start..cursor] && Correct(r.value) && !Peek().Operator?
      ensures r.Err? ==> cursor > old(cursor) && tokens[cursor - 1].Operator? && !Peek().Operand?
    {
      var stack: seq<StackMember> := [StackExpr(first)];
      assert Yields(stack) == Yield(first) by { assert stack[..0] == []; }
      var lastPrecedence := 100_000;
      while Peek().Operator?
        invariant start < cursor <= |tokens| && old(cursor) <= cursor
        invariant StackOk(stack) && Yields(stack) == tokens[start..cursor]
        invariant stack[|stack| - 1].expr.Leaf?
        invariant |stack| > 1 ==> lastPrecedence == Precedence(stack[|stack| - 2].op)
        decreases |tokens| - cursor
      {
        var op := Peek().op;
        var precedence := Precedence(op);
        ghost var seen := tokens[start..cursor];
        SliceAscends(tokens, start, cursor);
        cursor := cursor + 1;
        var rhs := ParseOperand();
        if rhs.None? {
          return Err;
        }
        TwoMoreTokens(tokens, start, cursor, op, rhs.value);
        stack := Push(stack, op, rhs.value, lastPrecedence, seen);
        lastPrecedence := precedence;
      }
      SliceAscends(tokens, start, cursor);
      var expr := Collapse(stack, tokens[start..cursor]);
      return Ok(expr);
    }
  }

  lemma SliceAscends(ts: seq<Tok>, i: nat, j: nat)
    requires i <= j <= |ts| && EndsAscend(ts)
    ensures EndsAscend(ts[i..j])
  {
  }

  lemma TwoMoreTokens(ts: seq<Tok>, start: nat, end: nat, op: BinaryOpKind, rhs: Expr)
    requires start + 2 <= end <= |ts| && ts[end - 2] == Operator(op) && rhs.Leaf?
    requires ts[end - 1] == Operand(rhs.id, rhs.span)
    ensures ts[start..end] == ts[start..end - 2] + [Operator(op)] + Yield(rhs)
  {
  }

  /** One round of the outer loop: reduce, then push the operator and its right operand. */
  method Push(stack: seq<StackMember>, op: BinaryOpKind, rhs: Expr, lastPrecedence: nat, ghost ts: seq<Tok>)
    returns (s: seq<StackMember>)
    requires StackOk(stack) && Yields(stack) == ts && EndsAscend(ts) && rhs.Leaf?
    requires stack[|stack| - 1].expr.Leaf?
    requires |stack| > 1 ==> lastPrecedence == Precedence(stack[|stack| - 2].op)
    ensures StackOk(s) && Yields(s) == ts + [Operator(op)] + Yield(rhs)
    ensures |s| > 1 && s[|s| - 2] == StackOperator(op) && s[|s| - 1] == StackExpr(rhs)
  {
    s := Reduce(stack, Precedence(op), lastPrecedence, ts);
    PushPair(s, op, rhs);
    s := s + [StackOperator(op)] + [StackExpr(rhs)];
  }

  /** The inner loop: builds nodes for all stacked operators that bind at least as tightly as the new one. */
  method Reduce(stack: seq<StackMember>, precedence: nat, lastPrecedence: nat, ghost ts: seq<Tok>)
    returns (s: seq<StackMember>)
    requires StackOk(stack) && Yields(stack) == ts && EndsAscend(ts)
    requires stack[|stack| - 1].expr.Leaf?
    requires |stack| > 1 ==> lastPrecedence == Precedence(stack[|stack| - 2].op)
    ensures StackOk(s) && Yields(s) == ts
    ensures TopBelow(s, precedence) && BindsAtLeast(s[|s| - 1].expr, precedence)
  {
    s := stack;
    var last := lastPrecedence;
    while precedence <= last && |s| > 1
      invariant StackOk(s) && Yields(s) == ts
      invariant BindsAtLeast(s[|s| - 1].expr, precedence)
      invariant |s| > 1 ==> last == Precedence(s[|s| - 2].op) || last >= precedence
      decreases |s|
    {
      var rhs := s[|s| - 1].expr;
      var op := s[|s| - 2].op;
      last := Precedence(op);
      if last < precedence {
        break;
      }
      var lhs := s[|s| - 3].expr;
      CombineTop(s, ts);
      s := s[..|s| - 3] + [StackExpr(Binary(op, lhs, rhs, lhs.span.Extended(rhs.span)))];
    }
  }

  method Collapse(stack: seq<StackMember>, ghost ts: seq<Tok>) returns (expr: Expr)
    requires StackOk(stack) && Yields(stack) == ts && EndsAscend(ts)
    ensures Yield(expr) == ts && Correct(expr)
  {
    var s := stack;
    while |s| > 1
      invariant StackOk(s) && Yields(s) == ts
      decreases |s|
    {
      var rhs := s[|s| - 1].expr;
      var op := s[|s| - 2].op;
      var lhs := s[|s| - 3].expr;
      CombineTop(s, ts);
      s := s[..|s| - 3] + [StackExpr(Binary(op, lhs, rhs, lhs.span.Extended(rhs.span)))];
    }
    expr := s[0].expr;
    assert s[..0] == [];
  }

  // ---------- why the stack steps are right ----------

  lemma YieldsPush(s: seq<StackMember>, m: StackMember)
    ensures Yields(s + [m]) == Yields(s) + if m.StackExpr? then Yield(m.expr) else [Operator(m.op)]
  {
    assert (s + [m])[..|s|] == s;
  }

  lemma PushPair(s: seq<StackMember>, op: BinaryOpKind, rhs: Expr)
    requires StackOk(s) && TopBelow(s, Precedence(op)) && BindsAtLeast(s[|s| - 1].expr, Precedence(op)) && rhs.Leaf?
    ensures StackOk(s + [StackOperator(op)] + [StackExpr(rhs)])
    ensures Yields(s + [StackOperator(op)] + [StackExpr(rhs)]) == Yields(s) + [Operator(op)] + Yield(rhs)
  {
    YieldsPush(s, StackOperator(op));
    YieldsPush(s + [StackOperator(op)], StackExpr(rhs));
    var pushed := s + [StackOperator(op)] + [StackExpr(rhs)];
    assert pushed[..|pushed| - 2] == s;
    assert pushed[|pushed| - 3] == s[|s| - 1];
  }

  lemma ReplaceTop(s: seq<StackMember>, e: Expr)
    requires StackOk(s) && Correct(e)
    requires |s| > 1 ==> BindsAtLeast(e, Precedence(s[|s| - 2].op) + 1)
    ensures StackOk(s[..|s| - 1] + [StackExpr(e)])
  {
    var replaced := s[..|s| - 1] + [StackExpr(e)];
    if |s| > 1 {
      assert replaced[..|s| - 2] == s[..|s| - 2];
    }
  }

  lemma {:induction false} LastTokenIsLastOperand(e: Expr)
    requires SpansCover(e)
    ensures var ts := Yield(e); ts[|ts| - 1].Operand? && ts[|ts| - 1].span == LastSpan(e)
    ensures e.span.End() == LastSpan(e).End()
    ensures e.span.start == FirstSpan(e).start && e.span.fileId == FirstSpan(e).fileId
    decreases e
  {
    if e.Binary? { LastTokenIsLastOperand(e.rhs); }
  }

  /** Replacing the top operand, operator, operand by their node keeps the invariant and
      the tokens; the span assertion inside Extended holds. */
  lemma CombineTop(s: seq<StackMember>, ts: seq<Tok>)
    requires StackOk(s) && |s| > 1 && Yields(s) == ts && EndsAscend(ts)
    ensures |s| >= 3
    ensures s[|s| - 3].StackExpr? && s[|s| - 2].StackOperator? && s[|s| - 1].StackExpr?
    ensures var lhs, rhs := s[|s| - 3].expr, s[|s| - 1].expr;
      && rhs.span.End() >= lhs.span.End()
      && var s' := s[..|s| - 3] + [StackExpr(Binary(s[|s| - 2].op, lhs, rhs, lhs.span.Extended(rhs.span)))];
         StackOk(s') && Yields(s') == ts
  {
    var n := |s| - 3;
    var base, lhs, op, rhs := s[..n], s[n].expr, s[n + 1].op, s[n + 2].expr;
    var below := s[..n + 1];
    assert StackOk(below);
    assert below[..n] == base;
    assert s == base + [StackExpr(lhs)] + [StackOperator(op)] + [StackExpr(rhs)];
    ThreeYields(base, lhs, op, rhs);
    LastOperandsAscend(Yields(base), lhs, op, rhs);
    var node := Binary(op, lhs, rhs, lhs.span.Extended(rhs.span));
    NodeYields(base, lhs, op, rhs, node.span);
    NodeIsCorrect(op, lhs, rhs);
    if n > 0 { TopBindsTighter(s); }
    ReplaceTop(below, node);
  }

  lemma TopBindsTighter(s: seq<StackMember>)
    requires StackOk(s) && |s| > 3
    ensures s[|s| - 4].StackOperator? && s[|s| - 2].StackOperator?
    ensures Precedence(s[|s| - 4].op) < Precedence(s[|s| - 2].op)
  {
    assert s[..|s| - 2][|s| - 4] == s[|s| - 4];
  }

  lemma NodeIsCorrect(op: BinaryOpKind, lhs: Expr, rhs: Expr)
    requires Correct(lhs) && Correct(rhs) && rhs.span.End() >= lhs.span.End()
    requires BindsAtLeast(lhs, Precedence(op)) && BindsAtLeast(rhs, Precedence(op) + 1)
    ensures Correct(Binary(op, lhs, rhs, lhs.span.Extended(rhs.span)))
  {
    LastTokenIsLastOperand(lhs);
    LastTokenIsLastOperand(rhs);
  }

  lemma ThreeYields(base: seq<StackMember>, lhs: Expr, op: BinaryOpKind, rhs: Expr)
    ensures Yields(base + [StackExpr(lhs)] + [StackOperator(op)] + [StackExpr(rhs)]) ==
      Yields(base) + Yield(lhs) + [Operator(op)] + Yield(rhs)
  {
    var one := base + [StackExpr(lhs)];
    YieldsPush(base, StackExpr(lhs));
    YieldsPush(one, StackOperator(op));
    YieldsPush(one + [StackOperator(op)], StackExpr(rhs));
  }

  lemma NodeYields(base: seq<StackMember>, lhs: Expr, op: BinaryOpKind, rhs: Expr, span: Span)
    ensures Yields(base + [StackExpr(Binary(op, lhs, rhs, span))]) ==
      Yields(base) + Yield(lhs) + [Operator(op)] + Yield(rhs)
  {
    var node := Binary(op, lhs, rhs, span);
    YieldsPush(base, StackExpr(node));
    assert Yield(node) == Yield(lhs) + [Operator(op)] + Yield(rhs);
    Associate(Yields(base), Yield(lhs), [Operator(op)], Yield(rhs));
  }

  lemma Associate<T>(a: seq<T>, b: seq<T>, c: seq<T>, d: seq<T>)
    ensures a + (b + c + d) == a + b + c + d
  {
  }

  lemma LastOperandsAscend(front: seq<Tok>, lhs: Expr, op: BinaryOpKind, rhs: Expr)
    requires SpansCover(lhs) && SpansCover(rhs)
    requires EndsAscend(front + Yield(lhs) + [Operator(op)] + Yield(rhs))
    ensures rhs.span.End() >= lhs.span.End()
  {
    var ts := front + Yield(lhs) + [Operator(op)] + Yield(rhs);
    LastTokenIsLastOperand(lhs);
    LastTokenIsLastOperand(rhs);
    assert ts[|front| + |Yield(lhs)| - 1] == Yield(lhs)[|Yield(lhs)| - 1];
    assert ts[|ts| - 1] == Yield(rhs)[|Yield(rhs)| - 1];
  }

  // ---------- the tree is unique ----------

  ghost predicate OpsAtLeast(ts: seq<Tok>, p: nat) {
    forall i :: 0 <= i < |ts| && ts[i].Operator? ==> Precedence(ts[i].op) >= p
  }

  lemma {:induction false} RootIsLoosest(e: Expr, p: nat)
    requires WellNested(e) && BindsAtLeast(e, p)
    ensures OpsAtLeast(Yield(e), p)
    decreases e
  {
    if e.Binary? {
      RootIsLoosest(e.lhs, p);
      RootIsLoosest(e.rhs, p);
    }
  }

  /** Main result: the tokens determine the tree, so the parser's result is the only correct one. */
  lemma {:induction false} TreeIsUnique(a: Expr, b: Expr)
    requires Correct(a) && Correct(b)
    requires Yield(a) == Yield(b)
    ensures a == b
    decreases a
  {
    if a.Leaf? || b.Leaf? {
      assert a.Binary? ==> |Yield(a)| > 1;
      assert b.Binary? ==> |Yield(b)| > 1;
    } else {
      SameRoot(a, b);
      TreeIsUnique(a.lhs, b.lhs);
      TreeIsUnique(a.rhs, b.rhs);
      SameSpan(a, b);
    }
  }

  /** Main result on two operators: of `a op1 b op2 c` the last two operands go together if and only if op2 is in a
      tighter group. */
  lemma {:induction false} TwoOperators(e: Expr, a: Tok, b: Tok, c: Tok, op1: BinaryOpKind, op2: BinaryOpKind)
    requires Correct(e) && a.Operand? && b.Operand? && c.Operand?
    requires Yield(e) == [a, Operator(op1), b, Operator(op2), c]
    ensures e.Binary?
    ensures Tighter(op2, op1) <==> e.op == op1 && Yield(e.lhs) == [a] && Yield(e.rhs) == [b, Operator(op2), c]
    ensures !Tighter(op2, op1) <==> e.op == op2 && Yield(e.lhs) == [a, Operator(op1), b] && Yield(e.rhs) == [c]
  {
    assert e.Binary?;
    RootSplits(e);
    PrecedencesOrderGroups(op2, op1);
    var ts, i := Yield(e), |Yield(e.lhs)|;
    assert ts[i] == Operator(e.op) && Yield(e.lhs) == ts[..i] && Yield(e.rhs) == ts[i + 1..];
    assert i == 1 || i == 3;
    if i == 1 { assert ts[i + 1..][1] == Operator(op2); } else { assert ts[..i][1] == Operator(op1); }
  }

  lemma SameRoot(a: Expr, b: Expr)
    requires WellNested(a) && WellNested(b) && a.Binary? && b.Binary? && Yield(a) == Yield(b)
    ensures a.op == b.op && Yield(a.lhs) == Yield(b.lhs) && Yield(a.rhs) == Yield(b.rhs)
  {
    var ts, i, j := Yield(a), |Yield(a.lhs)|, |Yield(b.lhs)|;
    assert ts[i] == Operator(a.op) && ts[j] == Operator(b.op);
    RootSplits(a);
    RootSplits(b);
    SplitsAgree(ts, i, j, a.op, b.op);
    assert Yield(a.lhs) == ts[..i] && Yield(b.lhs) == ts[..j];
    assert Yield(a.rhs) == ts[i + 1..] && Yield(b.rhs) == ts[j + 1..];
  }

  /** The root is the last of the loosest operators. */
  lemma SplitsAgree(ts: seq<Tok>, i: nat, j: nat, p: BinaryOpKind, q: BinaryOpKind)
    requires i < |ts| && j < |ts| && ts[i] == Operator(p) && ts[j] == Operator(q)
    requires OpsAtLeast(ts[..i], Precedence(p)) && OpsAtLeast(ts[i + 1..], Precedence(p) + 1)
    requires OpsAtLeast(ts[..j], Precedence(q)) && OpsAtLeast(ts[j + 1..], Precedence(q) + 1)
    ensures i == j
  {
    if i < j {
      SplitOrder(ts, i, j, p, q);
    } else if j < i {
      SplitOrder(ts, j, i, q, p);
    }
  }

  /** An operator left of another root is at least as tight as that root, which is tighter than it. */
  lemma SplitOrder(ts: seq<Tok>, i: nat, j: nat, p: BinaryOpKind, q: BinaryOpKind)
    requires i < j < |ts| && ts[i] == Operator(p) && ts[j] == Operator(q)
    ensures OpsAtLeast(ts[..j], Precedence(q)) ==> Precedence(p) >= Precedence(q)
    ensures OpsAtLeast(ts[i + 1..], Precedence(p) + 1) ==> Precedence(q) > Precedence(p)
  {
    assert ts[..j][i] == ts[i] && ts[i + 1..][j - i - 1] == ts[j];
  }

  lemma RootSplits(e: Expr)
    requires WellNested(e) && e.Binary?
    ensures var i := |Yield(e.lhs)|;
      OpsAtLeast(Yield(e)[..i], Precedence(e.op)) && OpsAtLeast(Yield(e)[i + 1..], Precedence(e.op) + 1)
  {
    RootIsLoosest(e.lhs, Precedence(e.op));
    RootIsLoosest(e.rhs, Precedence(e.op) + 1);
    assert Yield(e)[..|Yield(e.lhs)|] == Yield(e.lhs);
    assert Yield(e)[|Yield(e.lhs)| + 1..] == Yield(e.rhs);
  }

  lemma SameSpan(a: Expr, b: Expr)
    requires a.Binary? && b.Binary? && a.lhs == b.lhs && a.rhs == b.rhs && SpansCover(a) && SpansCover(b)
    ensures a.span == b.span
  {
  }
}
