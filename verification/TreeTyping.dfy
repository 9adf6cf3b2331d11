/** The types that the type checker gives to trees, and that evaluation respects them. */
module TreeTyping {
  import opened Wrappers
  import opened TypedTree

  datatype Ty = UnitTy | IntTy | BoolTy | NeverTy

  type TypeEnv = map<VariableId, Ty>

  function TypeOfValue(v: Value): Ty {
    match v
    case UnitValue => UnitTy
    case IntValue(_) => IntTy
    case BoolValue(_) => BoolTy
  }

  /** The type of an operation on two operands of type t. */
  function OpType(kind: BinaryOpKind, t: Ty): Option<Ty> {
    match kind
    case Equals => if t == NeverTy then None else Some(BoolTy)
    case NotEquals => if t == NeverTy then None else Some(BoolTy)
    case Less => if t == IntTy then Some(BoolTy) else None
    case LessEqual => if t == IntTy then Some(BoolTy) else None
    case Greater => if t == IntTy then Some(BoolTy) else None
    case GreaterEqual => if t == IntTy then Some(BoolTy) else None
    case _ => if t == IntTy then Some(IntTy) else None
  }

  /** A branch that does not come out takes the other branch's type. */
  function JoinTypes(a: Ty, b: Ty): Option<Ty> {
    if a == b || b == NeverTy then Some(a) else if a == NeverTy then Some(b) else None
  }

  function TypeOf(e: Expr, env: TypeEnv): Option<Ty>
    decreases e
  {
    match e
    case Literal(v) => Some(TypeOfValue(v))
    case Variable(x) => if x in env then Some(env[x]) else None
    case BinaryOp(kind, l, r) =>
      var a := TypeOf(l, env);
      if a.Some? && TypeOf(r, env) == a then OpType(kind, a.value) else None
    case And(l, r) => if TypeOf(l, env) == Some(BoolTy) && TypeOf(r, env) == Some(BoolTy) then Some(BoolTy) else None
    case Or(l, r) => if TypeOf(l, env) == Some(BoolTy) && TypeOf(r, env) == Some(BoolTy) then Some(BoolTy) else None
    case If(c, t, f) =>
      var a, b := TypeOf(t, env), TypeOf(f, env);
      if TypeOf(c, env) == Some(BoolTy) && a.Some? && b.Some? then JoinTypes(a.value, b.value) else None
    case Block(ss) => BlockType(ss, env, UnitTy)
    case Return(v) =>
      var a := TypeOf(v, env);
      if a.Some? && a.value != NeverTy then Some(NeverTy) else None
  }

  function StmtType(s: Stmt, env: TypeEnv): Option<Ty>
    decreases s, 0
  {
    match s
    case ExprStmt(e) => TypeOf(e, env)
    case ValDef(x, e) =>
      var a := TypeOf(e, env);
      if x !in env && a.Some? && a.value != NeverTy then Some(UnitTy) else None
    case Assignment(x, e) => if x in env && TypeOf(e, env) == Some(env[x]) then Some(UnitTy) else None
    case WhileLoop(c, body) =>
      if TypeOf(c, env) == Some(BoolTy) && BlockType(body, env, UnitTy).Some? then Some(UnitTy) else None
  }

  /** What is in scope after a statement. */
  function EnvAfter(s: Stmt, env: TypeEnv): TypeEnv
    requires StmtType(s, env).Some?
    decreases s, 1
  {
    if s.ValDef? then env[s.id := TypeOf(s.initializer, env).value] else env
  }

  /** A block has the type of its last statement; `last` is the type so far. Nothing may follow type never. */
  function BlockType(ss: seq<Stmt>, env: TypeEnv, last: Ty): Option<Ty>
    decreases ss
  {
    if ss == [] then Some(last)
    else if last == NeverTy || StmtType(ss[0], env).None? then None
    else BlockType(ss[1..], EnvAfter(ss[0], env), StmtType(ss[0], env).value)
  }

  ghost predicate MemoryOk(env: TypeEnv, mem: Memory) {
    forall x :: x in env ==> x in mem && TypeOfValue(mem[x]) == env[x]
  }

  /** The machine's operations give values of the operation's type. */
  ghost predicate TypedAlu(alu: Alu) {
    forall kind, a, b ::
      TypeOfValue(a) == TypeOfValue(b) && OpType(kind, TypeOfValue(a)).Some? && alu(kind, a, b).Some? ==>
      TypeOfValue(alu(kind, a, b).value) == OpType(kind, TypeOfValue(a)).value
  }

  ghost predicate Respects(r: Outcome, t: Ty, env: TypeEnv) {
    r.Done? ==> TypeOfValue(r.value) == t && MemoryOk(env, r.mem)
  }

  /** With loops leaving unit, as their type says, a value has its expression's type. */
  lemma {:induction false} TypesRespected(alu: Alu, e: Expr, env: TypeEnv, mem: Memory, fuel: nat)
    requires TypedAlu(alu) && MemoryOk(env, mem) && TypeOf(e, env).Some?
    ensures Respects(Eval(alu, Fresh, e, mem, fuel), TypeOf(e, env).value, env)
    decreases fuel, e
  {
    match e {
      case BinaryOp(_, l, r) => OperandsRespected(alu, e, env, mem, fuel);
      case And(l, r) => OperandsRespected(alu, e, env, mem, fuel);
      case Or(l, r) => OperandsRespected(alu, e, env, mem, fuel);
      case If(c, t, f) =>
        TypesRespected(alu, c, env, mem, fuel);
        var first := Eval(alu, Fresh, c, mem, fuel);
        if first.Done? {
          TypesRespected(alu, t, env, first.mem, fuel);
          TypesRespected(alu, f, env, first.mem, fuel);
        }
      case Block(ss) => BlockTypesRespected(alu, ss, env, UnitValue, mem, fuel);
      case Return(v) => TypesRespected(alu, v, env, mem, fuel);
      case _ =>
    }
  }

  lemma {:induction false} OperandsRespected(alu: Alu, e: Expr, env: TypeEnv, mem: Memory, fuel: nat)
    requires (e.BinaryOp? || e.And? || e.Or?) && TypedAlu(alu) && MemoryOk(env, mem) && TypeOf(e, env).Some?
    ensures var first := Eval(alu, Fresh, e.lhs, mem, fuel);
      && Respects(first, TypeOf(e.lhs, env).value, env)
      && (first.Done? ==> Respects(Eval(alu, Fresh, e.rhs, first.mem, fuel), TypeOf(e.rhs, env).value, env))
    decreases fuel, e, 0
  {
    TypesRespected(alu, e.lhs, env, mem, fuel);
    var first := Eval(alu, Fresh, e.lhs, mem, fuel);
    if first.Done? { TypesRespected(alu, e.rhs, env, first.mem, fuel); }
  }

  lemma {:induction false} StmtTypesRespected(alu: Alu, s: Stmt, env: TypeEnv, last: Value, mem: Memory, fuel: nat)
    requires TypedAlu(alu) && MemoryOk(env, mem) && StmtType(s, env).Some?
    ensures Respects(EvalStmt(alu, Fresh, s, last, mem, fuel), StmtType(s, env).value, EnvAfter(s, env))
    decreases fuel, s
  {
    match s {
      case ExprStmt(e) => TypesRespected(alu, e, env, mem, fuel);
      case ValDef(_, e) => TypesRespected(alu, e, env, mem, fuel);
      case Assignment(_, e) => TypesRespected(alu, e, env, mem, fuel);
      case WhileLoop(c, body) =>
        TypesRespected(alu, c, env, mem, fuel);
        var first := Eval(alu, Fresh, c, mem, fuel);
        if first.Done? && first.value.b {
          BlockTypesRespected(alu, body, env, UnitValue, first.mem, fuel);
          var once := EvalAll(alu, Fresh, body, UnitValue, first.mem, fuel);
          if once.Done? && fuel > 0 { StmtTypesRespected(alu, s, env, last, once.mem, fuel - 1); }
        }
    }
  }

  lemma {:induction false} BlockTypesRespected(alu: Alu, ss: seq<Stmt>, env: TypeEnv, last: Value, mem: Memory,
                                               fuel: nat)
    requires TypedAlu(alu) && MemoryOk(env, mem) && BlockType(ss, env, TypeOfValue(last)).Some?
    ensures Respects(EvalAll(alu, Fresh, ss, last, mem, fuel), BlockType(ss, env, TypeOfValue(last)).value, env)
    decreases fuel, ss
  {
    if ss != [] {
      StmtTypesRespected(alu, ss[0], env, last, mem, fuel);
      var first := EvalStmt(alu, Fresh, ss[0], last, mem, fuel);
      if first.Done? { BlockTypesRespected(alu, ss[1..], EnvAfter(ss[0], env), first.value, first.mem, fuel); }
    }
  }
}
