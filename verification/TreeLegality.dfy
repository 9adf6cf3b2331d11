/** What the type checker gives types to is what code generation is proved for. */
module TreeLegality {
  import opened Wrappers
  import opened TypedTree
  import opened TreeTyping

  // ---------- operations and branches ----------

  const ORDERINGS: set<BinaryOpKind> := {Less, LessEqual, Greater, GreaterEqual}
  const EQUALITIES: set<BinaryOpKind> := {Equals, NotEquals}

  /** Numbers are compared and calculated with, all values are tested for equality. */
  lemma OperationTyped(kind: BinaryOpKind, t: Ty, result: Ty)
    ensures OpType(kind, t) == Some(result) <==>
      if kind in EQUALITIES then t != NeverTy && result == BoolTy
      else t == IntTy && result == if kind in ORDERINGS then BoolTy else IntTy
  {
  }

  /** A value of the first type can be used where one of the second is expected. */
  predicate FitsIn(t: Ty, u: Ty) {
    t == u || t == NeverTy
  }

  /** Two branches have the least type that both fit in. */
  lemma JoinIsLeast(a: Ty, b: Ty, t: Ty)
    ensures JoinTypes(a, b) == Some(t) <==>
      FitsIn(a, t) && FitsIn(b, t) && forall u :: FitsIn(a, u) && FitsIn(b, u) ==> FitsIn(t, u)
  {
    assert FitsIn(a, a) && FitsIn(b, b) && FitsIn(t, t);
  }

  // ---------- how often a variable is defined ----------

  function Times(e: Expr, x: VariableId): nat {
    match e
    case Literal(_) => 0
    case Variable(_) => 0
    case BinaryOp(_, l, r) => Times(l, x) + Times(r, x)
    case And(l, r) => Times(l, x) + Times(r, x)
    case Or(l, r) => Times(l, x) + Times(r, x)
    case If(c, t, f) => Times(c, x) + Times(t, x) + Times(f, x)
    case Block(ss) => TimesInAll(ss, x)
    case Return(v) => Times(v, x)
  }

  function TimesIn(s: Stmt, x: VariableId): nat {
    match s
    case ExprStmt(e) => Times(e, x)
    case ValDef(y, e) => Times(e, x) + if x == y then 1 else 0
    case Assignment(_, e) => Times(e, x)
    case WhileLoop(c, body) => Times(c, x) + TimesInAll(body, x)
  }

  function TimesInAll(ss: seq<Stmt>, x: VariableId): nat {
    if ss == [] then 0 else TimesIn(ss[0], x) + TimesInAll(ss[1..], x)
  }

  lemma {:induction false} InDefs(e: Expr, x: VariableId)
    ensures x in Defs(e) <==> Times(e, x) > 0
    decreases e
  {
    match e {
      case BinaryOp(_, l, r) => InDefs(l, x); InDefs(r, x);
      case And(l, r) => InDefs(l, x); InDefs(r, x);
      case Or(l, r) => InDefs(l, x); InDefs(r, x);
      case If(c, t, f) => InDefs(c, x); InDefs(t, x); InDefs(f, x);
      case Block(ss) => InDefsOfAll(ss, x);
      case Return(v) => InDefs(v, x);
      case _ =>
    }
  }

  lemma {:induction false} InDefsOf(s: Stmt, x: VariableId)
    ensures x in DefsOf(s) <==> TimesIn(s, x) > 0
    decreases s
  {
    match s {
      case ExprStmt(e) => InDefs(e, x);
      case ValDef(_, e) => InDefs(e, x);
      case Assignment(_, e) => InDefs(e, x);
      case WhileLoop(c, body) => InDefs(c, x); InDefsOfAll(body, x);
    }
  }

  lemma {:induction false} InDefsOfAll(ss: seq<Stmt>, x: VariableId)
    ensures x in DefsOfAll(ss) <==> TimesInAll(ss, x) > 0
    decreases ss
  {
    if ss != [] { InDefsOf(ss[0], x); InDefsOfAll(ss[1..], x); }
  }

  /** No variable is defined twice, and none that is in scope already. */
  ghost predicate DefinesOnce(e: Expr, env: TypeEnv) {
    forall x :: Times(e, x) <= if x in env then 0 else 1
  }

  ghost predicate DefineOnce(ss: seq<Stmt>, env: TypeEnv) {
    forall x :: TimesInAll(ss, x) <= if x in env then 0 else 1
  }

  ghost predicate StmtDefinesOnce(s: Stmt, env: TypeEnv) {
    forall x :: TimesIn(s, x) <= if x in env then 0 else 1
  }

  // ---------- trees that code generation does not refuse ----------

  /** No `if` both of whose branches diverge, and no loop whose body does. */
  predicate NoDeadEnd(e: Expr) {
    match e
    case BinaryOp(_, l, r) => NoDeadEnd(l) && NoDeadEnd(r)
    case And(l, r) => NoDeadEnd(l) && NoDeadEnd(r)
    case Or(l, r) => NoDeadEnd(l) && NoDeadEnd(r)
    case If(c, t, f) => NoDeadEnd(c) && NoDeadEnd(t) && NoDeadEnd(f) && !(Diverges(t) && Diverges(f))
    case Block(ss) => NoDeadEnds(ss)
    case Return(v) => NoDeadEnd(v)
    case _ => true
  }

  predicate NoDeadEndIn(s: Stmt) {
    match s
    case ExprStmt(e) => NoDeadEnd(e)
    case ValDef(_, e) => NoDeadEnd(e)
    case Assignment(_, e) => NoDeadEnd(e)
    case WhileLoop(c, body) => NoDeadEnd(c) && NoDeadEnds(body) && !StatementsDiverge(body)
  }

  predicate NoDeadEnds(ss: seq<Stmt>) {
    ss == [] || (NoDeadEndIn(ss[0]) && NoDeadEnds(ss[1..]))
  }

  /** Variables have values. */
  ghost predicate Inhabited(env: TypeEnv) {
    forall x :: x in env ==> env[x] != NeverTy
  }

  // ---------- typed trees ----------

  /** Main result: an expression with a type is legal, unless it has a dead end, and it diverges exactly if its type is
      never. */
  lemma {:induction false} TypedIsLegal(e: Expr, env: TypeEnv)
    requires TypeOf(e, env).Some? && Inhabited(env) && DefinesOnce(e, env)
    ensures Diverges(e) <==> TypeOf(e, env) == Some(NeverTy)
    ensures NoDeadEnd(e) ==> Legal(e, env.Keys)
    decreases e, 1
  {
    match e {
      case BinaryOp(_, l, r) => OperandsLegal(e, l, r, env);
      case And(l, r) => OperandsLegal(e, l, r, env);
      case Or(l, r) => OperandsLegal(e, l, r, env);
      case If(c, t, f) =>
        PartsDefineOnce(c, t, f, env);
        TypedIsLegal(c, env);
        TypedIsLegal(t, env);
        TypedIsLegal(f, env);
      case Block(ss) => BlockIsLegal(ss, env, UnitTy);
      case Return(v) => TypedIsLegal(v, env);
      case _ =>
    }
  }

  lemma PartsDefineOnce(c: Expr, t: Expr, f: Expr, env: TypeEnv)
    requires DefinesOnce(If(c, t, f), env)
    ensures DefinesOnce(c, env) && DefinesOnce(t, env) && DefinesOnce(f, env) && Defs(c) !! Defs(t) !! Defs(f)
  {
    forall x ensures Times(c, x) + Times(t, x) + Times(f, x) <= if x in env then 0 else 1 {
      assert Times(If(c, t, f), x) == Times(c, x) + Times(t, x) + Times(f, x);
    }
    forall x ensures x in Defs(c) ==> x !in Defs(t) && x !in Defs(f)
      ensures x in Defs(t) ==> x !in Defs(f)
    {
      InDefs(c, x);
      InDefs(t, x);
      InDefs(f, x);
    }
  }

  lemma {:induction false} OperandsLegal(e: Expr, l: Expr, r: Expr, env: TypeEnv)
    requires (e.BinaryOp? || e.And? || e.Or?) && l == e.lhs && r == e.rhs
    requires TypeOf(l, env).Some? && TypeOf(l, env) == TypeOf(r, env) != Some(NeverTy) && Inhabited(env)
    requires DefinesOnce(e, env)
    ensures !Diverges(l) && !Diverges(r)
    ensures NoDeadEnd(l) && NoDeadEnd(r) ==> Legal(l, env.Keys) && Legal(r, env.Keys) && Operands(l, r)
    decreases e, 0
  {
    forall x ensures Times(l, x) + Times(r, x) <= if x in env then 0 else 1 {
      assert Times(e, x) == Times(l, x) + Times(r, x);
    }
    forall x ensures x in Defs(l) ==> x !in Defs(r) { InDefs(l, x); InDefs(r, x); }
    TypedIsLegal(l, env);
    TypedIsLegal(r, env);
  }

  lemma {:induction false} StmtIsLegal(s: Stmt, env: TypeEnv)
    requires StmtType(s, env).Some? && Inhabited(env) && StmtDefinesOnce(s, env)
    ensures StmtDiverges(s) <==> StmtType(s, env) == Some(NeverTy)
    ensures NoDeadEndIn(s) ==> LegalStmt(s, env.Keys)
    ensures Inhabited(EnvAfter(s, env))
    decreases s
  {
    match s {
      case ExprStmt(e) =>
        assert forall x :: TimesIn(s, x) == Times(e, x);
        TypedIsLegal(e, env);
      case ValDef(x, e) =>
        assert forall y :: Times(e, y) <= TimesIn(s, y);
        TypedIsLegal(e, env);
        InDefs(e, x);
        assert TimesIn(s, x) <= 1;
      case Assignment(x, e) =>
        assert forall y :: TimesIn(s, y) == Times(e, y);
        TypedIsLegal(e, env);
      case WhileLoop(c, body) =>
        forall x ensures Times(c, x) + TimesInAll(body, x) <= if x in env then 0 else 1 {
          assert TimesIn(s, x) == Times(c, x) + TimesInAll(body, x);
        }
        forall x ensures x in Defs(c) ==> x !in DefsOfAll(body) { InDefs(c, x); InDefsOfAll(body, x); }
        TypedIsLegal(c, env);
        BlockIsLegal(body, env, UnitTy);
    }
  }

  lemma {:induction false} BlockIsLegal(ss: seq<Stmt>, env: TypeEnv, last: Ty)
    requires BlockType(ss, env, last).Some? && Inhabited(env) && DefineOnce(ss, env)
    ensures StatementsDiverge(ss) <==> ss != [] && BlockType(ss, env, last) == Some(NeverTy)
    ensures NoDeadEnds(ss) ==> LegalAll(ss, env.Keys)
    decreases ss
  {
    if ss != [] {
      RestDefinesOnce(ss, env);
      StmtIsLegal(ss[0], env);
      BlockIsLegal(ss[1..], EnvAfter(ss[0], env), StmtType(ss[0], env).value);
      assert EnvAfter(ss[0], env).Keys == (if ss[0].ValDef? then env.Keys + {ss[0].id} else env.Keys);
    }
  }

  lemma RestDefinesOnce(ss: seq<Stmt>, env: TypeEnv)
    requires ss != [] && DefineOnce(ss, env) && StmtType(ss[0], env).Some?
    ensures StmtDefinesOnce(ss[0], env) && DefineOnce(ss[1..], EnvAfter(ss[0], env))
    ensures DefsOf(ss[0]) !! DefsOfAll(ss[1..])
  {
    forall x ensures TimesIn(ss[0], x) + TimesInAll(ss[1..], x) <= if x in env then 0 else 1 {
      assert TimesInAll(ss, x) == TimesIn(ss[0], x) + TimesInAll(ss[1..], x);
    }
    forall x ensures x in DefsOf(ss[0]) ==> x !in DefsOfAll(ss[1..]) {
      InDefsOf(ss[0], x);
      InDefsOfAll(ss[1..], x);
    }
  }
}
