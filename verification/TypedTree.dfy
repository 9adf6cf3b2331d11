/** Typed expression trees and their big-step meaning. */
module TypedTree {
  import opened Wrappers

  type VariableId = nat
  type Int64 = x: int | -0x8000_0000_0000_0000 <= x < 0x8000_0000_0000_0000

  datatype Value = UnitValue | IntValue(i: Int64) | BoolValue(b: bool)

  datatype BinaryOpKind =
    | Add | Subtract | Multiply | Divide | Rem | BitAnd | BitOr
    | Equals | NotEquals | Less | LessEqual | Greater | GreaterEqual

  /** The machine's fixed two-operand operations; None is an undefined result such as a division by zero. */
  type Alu = (BinaryOpKind, Value, Value) -> Option<Value>

  datatype Expr =
    | Literal(value: Value)
    | Variable(id: VariableId)
    | BinaryOp(kind: BinaryOpKind, lhs: Expr, rhs: Expr)
    | And(lhs: Expr, rhs: Expr)
    | Or(lhs: Expr, rhs: Expr)
    | If(condition: Expr, consequent: Expr, alternate: Expr)
    | Block(statements: seq<Stmt>)
    | Return(result: Expr)

  datatype Stmt =
    | ExprStmt(expr: Expr)
    | ValDef(id: VariableId, initializer: Expr)
    | Assignment(id: VariableId, value: Expr)
    | WhileLoop(cond: Expr, body: seq<Stmt>)

  // ---------- what the type checker guarantees about a tree ----------

  /** The expression has type never: control does not come out of it. */
  predicate Diverges(e: Expr) {
    match e
    case If(_, t, f) => Diverges(t) && Diverges(f)
    case Block(ss) => StatementsDiverge(ss)
    case Return(_) => true
    case _ => false
  }

  predicate StatementsDiverge(ss: seq<Stmt>) {
    if ss == [] then false
    else if |ss| == 1 then StmtDiverges(ss[0])
    else StatementsDiverge(ss[1..])
  }

  predicate StmtDiverges(s: Stmt) {
    s.ExprStmt? && Diverges(s.expr)
  }

  /** Variables defined somewhere in a tree. */
  function Defs(e: Expr): set<VariableId> {
    match e
    case BinaryOp(_, l, r) => Defs(l) + Defs(r)
    case And(l, r) => Defs(l) + Defs(r)
    case Or(l, r) => Defs(l) + Defs(r)
    case If(c, t, f) => Defs(c) + Defs(t) + Defs(f)
    case Block(ss) => DefsOfAll(ss)
    case Return(v) => Defs(v)
    case _ => {}
  }

  function DefsOf(s: Stmt): set<VariableId> {
    match s
    case ExprStmt(e) => Defs(e)
    case ValDef(x, e) => Defs(e) + {x}
    case Assignment(_, e) => Defs(e)
    case WhileLoop(c, body) => Defs(c) + DefsOfAll(body)
  }

  function DefsOfAll(ss: seq<Stmt>): set<VariableId> {
    if ss == [] then {} else DefsOf(ss[0]) + DefsOfAll(ss[1..])
  }

  /** Variables are used in scope and defined once, operands have a value, at most one branch of an `if` diverges,
      and nothing follows a divergent statement. */
  predicate Legal(e: Expr, scope: set<VariableId>) {
    match e
    case Literal(_) => true
    case Variable(x) => x in scope
    case BinaryOp(_, l, r) => Legal(l, scope) && Legal(r, scope) && Operands(l, r)
    case And(l, r) => Legal(l, scope) && Legal(r, scope) && Operands(l, r)
    case Or(l, r) => Legal(l, scope) && Legal(r, scope) && Operands(l, r)
    case If(c, t, f) =>
      && Legal(c, scope) && Legal(t, scope) && Legal(f, scope) && !Diverges(c) && !(Diverges(t) && Diverges(f))
      && Defs(c) !! Defs(t) !! Defs(f)
    case Block(ss) => LegalAll(ss, scope)
    case Return(v) => Legal(v, scope) && !Diverges(v)
  }

  predicate Operands(l: Expr, r: Expr) {
    !Diverges(l) && !Diverges(r) && Defs(l) !! Defs(r)
  }

  predicate LegalStmt(s: Stmt, scope: set<VariableId>) {
    match s
    case ExprStmt(e) => Legal(e, scope)
    case ValDef(x, e) => Legal(e, scope) && !Diverges(e) && x !in Defs(e) && x !in scope
    case Assignment(x, e) => x in scope && Legal(e, scope) && !Diverges(e)
    case WhileLoop(c, body) =>
      && Legal(c, scope) && !Diverges(c) && LegalAll(body, scope) && !StatementsDiverge(body)
      && Defs(c) !! DefsOfAll(body)
  }

  predicate LegalAll(ss: seq<Stmt>, scope: set<VariableId>) {
    ss == [] ||
    (&& LegalStmt(ss[0], scope)
     && DefsOf(ss[0]) !! DefsOfAll(ss[1..])
     && (StmtDiverges(ss[0]) ==> |ss| == 1)
     && LegalAll(ss[1..], if ss[0].ValDef? then scope + {ss[0].id} else scope))
  }

  // ---------- meaning ----------

  type Memory = map<VariableId, Value>

  datatype Outcome =
    | Done(value: Value, mem: Memory)
    | Returned(value: Value, mem: Memory)
    | Stuck
    | OutOfFuel

  /** What the value of a block is after a while statement: unit as its type says, or what it was before the loop. */
  datatype LoopValue = Fresh | Carried

  function Eval(alu: Alu, loops: LoopValue, e: Expr, mem: Memory, fuel: nat): (r: Outcome)
    ensures r.Done? ==> mem.Keys <= r.mem.Keys
    decreases fuel, e
  {
    match e
    case Literal(v) => Done(v, mem)
    case Variable(x) => if x in mem then Done(mem[x], mem) else Stuck
    case BinaryOp(kind, l, r) =>
      var first := Eval(alu, loops, l, mem, fuel);
      if !first.Done? then first
      else
        var second := Eval(alu, loops, r, first.mem, fuel);
        if !second.Done? then second
        else
          var v := alu(kind, first.value, second.value);
          if v.Some? then Done(v.value, second.mem) else Stuck
    case And(l, r) =>
      var first := Eval(alu, loops, l, mem, fuel);
      if !first.Done? then first
      else if !first.value.BoolValue? then Stuck
      else if first.value.b then Eval(alu, loops, r, first.mem, fuel) else first
    case Or(l, r) =>
      var first := Eval(alu, loops, l, mem, fuel);
      if !first.Done? then first
      else
        var second := Eval(alu, loops, r, first.mem, fuel);
        if !second.Done? then second
        else if first.value.BoolValue? && second.value.BoolValue? then
          Done(BoolValue(first.value.b || second.value.b), second.mem)
        else Stuck
    case If(c, t, f) =>
      var first := Eval(alu, loops, c, mem, fuel);
      if !first.Done? then first
      else if !first.value.BoolValue? then Stuck
      else if first.value.b then Eval(alu, loops, t, first.mem, fuel)
      else Eval(alu, loops, f, first.mem, fuel)
    case Block(ss) => EvalAll(alu, loops, ss, UnitValue, mem, fuel)
    case Return(v) =>
      var first := Eval(alu, loops, v, mem, fuel);
      if first.Done? then Returned(first.value, first.mem) else first
  }

  /** One statement; `last` is the value of the statements before it. */
  function EvalStmt(alu: Alu, loops: LoopValue, s: Stmt, last: Value, mem: Memory, fuel: nat): (r: Outcome)
    ensures r.Done? ==> mem.Keys <= r.mem.Keys
    decreases fuel, s
  {
    match s
    case ExprStmt(e) => Eval(alu, loops, e, mem, fuel)
    case ValDef(x, e) =>
      var first := Eval(alu, loops, e, mem, fuel);
      if first.Done? then Done(UnitValue, first.mem[x := first.value]) else first
    case Assignment(x, e) =>
      var first := Eval(alu, loops, e, mem, fuel);
      if !first.Done? then first
      else if x in first.mem then Done(UnitValue, first.mem[x := first.value]) else Stuck
    case WhileLoop(c, body) =>
      var first := Eval(alu, loops, c, mem, fuel);
      if !first.Done? then first
      else if !first.value.BoolValue? then Stuck
      else if !first.value.b then Done(if loops.Fresh? then UnitValue else last, first.mem)
      else
        var once := EvalAll(alu, loops, body, UnitValue, first.mem, fuel);
        if !once.Done? then once
        else if fuel == 0 then OutOfFuel
        else EvalStmt(alu, loops, s, last, once.mem, fuel - 1)
  }

  function EvalAll(alu: Alu, loops: LoopValue, ss: seq<Stmt>, last: Value, mem: Memory, fuel: nat): (r: Outcome)
    ensures r.Done? ==> mem.Keys <= r.mem.Keys
    decreases fuel, ss
  {
    if ss == [] then Done(last, mem)
    else
      var first := EvalStmt(alu, loops, ss[0], last, mem, fuel);
      if first.Done? then EvalAll(alu, loops, ss[1..], first.value, first.mem, fuel) else first
  }
}
