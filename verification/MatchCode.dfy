/** The statement and expression forms a compiled match is made of, and what they do when run. */
module MatchCode {
  import opened Wrappers
  import opened PatternTypes

  type VarId = nat

  /** Poison is the result of reading a payload of the wrong variant. It may be copied and projected. */
  datatype RVal = Good(v: Value) | Poison

  datatype TExpr =
    | EVar(id: VarId)
    | EBool(b: bool)
    | EField(base: TExpr, index: nat)
    | EIsVariant(base: TExpr, tag: nat)
    | EGetPayload(base: TExpr, tag: nat)
    | EEquals(lhs: TExpr, literal: Value)
    | EAnd(lhs: TExpr, rhs: TExpr)

  datatype Stmt = ValDef(id: VarId, init: TExpr)

  type Env = map<VarId, RVal>

  /** Strings are equal when their bytes are, wherever they are. */
  predicate EqualTo(v: Value, literal: Value) {
    if v.StringV? && literal.StringV? then v.s == literal.s else v == literal
  }

  /** None: the evaluation is undefined, in particular when it inspects poison. */
  function Eval(e: TExpr, env: Env): Option<RVal>
    decreases e
  {
    match e
    case EVar(id) => if id in env then Some(env[id]) else None
    case EBool(b) => Some(Good(BoolV(b)))
    case EField(base, i) =>
      (match Eval(base, env)
       case Some(Good(v)) => if i < |Parts(v)| then Some(Good(Parts(v)[i])) else None
       case Some(Poison) => Some(Poison)
       case _ => None)
    case EIsVariant(base, tag) =>
      (match Eval(base, env)
       case Some(Good(EnumV(actual, _))) => Some(Good(BoolV(actual == tag)))
       case _ => None)
    case EGetPayload(base, tag) =>
      (match Eval(base, env)
       case Some(Good(EnumV(actual, payload))) =>
         if actual == tag && payload.Some? then Some(Good(payload.value)) else Some(Poison)
       case Some(Poison) => Some(Poison)
       case _ => None)
    case EEquals(lhs, literal) =>
      (match Eval(lhs, env)
       case Some(Good(v)) => Some(Good(BoolV(EqualTo(v, literal))))
       case _ => None)
    case EAnd(lhs, rhs) =>
      (match Eval(lhs, env)
       case Some(Good(BoolV(b))) => if b then Eval(rhs, env) else Some(Good(BoolV(false)))
       case _ => None)
  }

  function Exec(stmts: seq<Stmt>, env: Env): Option<Env>
    decreases |stmts|
  {
    if stmts == [] then Some(env)
    else
      match Eval(stmts[0].init, env)
      case Some(r) => Exec(stmts[1..], env[stmts[0].id := r])
      case None => None
  }

  lemma {:induction false} ExecAppend(a: seq<Stmt>, b: seq<Stmt>, env: Env)
    ensures Exec(a + b, env) ==
      match Exec(a, env) { case Some(mid) => Exec(b, mid) case None => None }
    decreases |a|
  {
    if a == [] {
      assert a + b == b;
    } else {
      assert (a + b)[1..] == a[1..] + b;
      match Eval(a[0].init, env) {
        case Some(r) => ExecAppend(a[1..], b, env[a[0].id := r]);
        case None =>
      }
    }
  }

  /** An arm's block: the bindings to run and the names they are visible under. */
  datatype Block = Block(statements: seq<Stmt>, scope: map<Ident, VarId>, arm: nat)

  datatype Chain = CrashCall | Body(block: Block) | If(cond: TExpr, consequent: Block, alternate: Chain)

  datatype MatchBlock = MatchBlock(target: VarId, statements: seq<Stmt>, chain: Chain)

  /** Ran: control entered the arm's expression with the given names in scope. */
  datatype Outcome = Crashed | Undefined | Ran(arm: nat, bindings: map<Ident, RVal>)

  function RunBlock(b: Block, env: Env): Outcome {
    match Exec(b.statements, env)
    case None => Undefined
    case Some(after) =>
      if forall n | n in b.scope :: b.scope[n] in after
      then Ran(b.arm, map n | n in b.scope :: after[b.scope[n]])
      else Undefined
  }

  function RunChain(c: Chain, env: Env): Outcome
    decreases c
  {
    match c
    case CrashCall => Crashed
    case Body(b) => RunBlock(b, env)
    case If(cond, b, alt) =>
      (match Eval(cond, env)
       case Some(Good(BoolV(taken))) => if taken then RunBlock(b, env) else RunChain(alt, env)
       case _ => Undefined)
  }

  /** Runs a compiled match whose target expression produced v. */
  function RunMatch(m: MatchBlock, v: Value): Outcome {
    match Exec(m.statements, map[m.target := Good(v)])
    case None => Undefined
    case Some(env) => RunChain(m.chain, env)
  }
}
