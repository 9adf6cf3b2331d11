/** Lowering of typed trees to basic blocks, as a function on the builder's state. */
module Lowering {
  import opened TypedTree
  import opened ControlFlowGraph

  datatype BuilderState = BuilderState(blocks: seq<BasicBlock>, insertBlock: Label, nextRegister: Register,
                                       nextSlot: Slot, variables: map<VariableId, Slot>)

  type State = s: BuilderState | s.insertBlock < |s.blocks| witness BuilderState([[]], 0, 0, 0, map[])

  datatype LlvmValue = Never | BasicValue(operand: Operand)

  datatype Lowered = Lowered(state: State, value: LlvmValue)

  /** The operand of an expression that has a value. */
  function ExpectValue(v: LlvmValue): Operand {
    if v.BasicValue? then v.operand else Const(UnitValue)
  }

  // ---------- builder primitives ----------

  function Emit(s: State, i: Instruction): (r: State) {
    s.(blocks := s.blocks[s.insertBlock := s.blocks[s.insertBlock] + [i]])
  }

  function AppendBlocks(s: State): (r: State) {
    s.(blocks := s.blocks + [[], [], []])
  }

  function PositionAtEnd(s: State, l: Label): (r: State)
    requires l < |s.blocks|
  {
    s.(insertBlock := l)
  }

  /** Emits an instruction whose result goes to the next register. */
  function Define(s: State, i: Instruction): Lowered {
    Lowered(Emit(s, i).(nextRegister := s.nextRegister + 1), BasicValue(Local(s.nextRegister)))
  }

  function SlotOf(s: State, x: VariableId): Slot {
    if x in s.variables then s.variables[x] else 0
  }

  // ---------- the pieces of the branching constructs ----------

  /** Ends the current block with a conditional branch to blocks n and n + 1 and continues in n. */
  function Fork(s: State, cond: Operand, n: Label): State
    requires n < |s.blocks|
  {
    PositionAtEnd(Emit(s, CondBranch(cond, n, n + 1)), n)
  }

  /** Ends the current block with a branch and continues elsewhere. */
  function BranchAndMove(s: State, target: Label, next: Label): State
    requires next < |s.blocks|
  {
    PositionAtEnd(Emit(s, Branch(target)), next)
  }

  /** After a branch of an `if`: joins the merge block unless the branch diverged, and continues in `next`. */
  function FinishBranch(b: Lowered, merge: Label, next: Label): State
    requires next < |b.state.blocks|
  {
    if b.value.Never? then PositionAtEnd(b.state, next) else BranchAndMove(b.state, merge, next)
  }

  function BranchIncoming(b: Lowered): seq<Incoming> {
    if b.value.Never? then [] else [Incoming(b.value.operand, b.state.insertBlock)]
  }

  /** Joins the two branches; with none left the merge block is unreachable. */
  function Merge(s: State, incoming: seq<Incoming>): Lowered {
    var phi := Define(s, Phi(s.nextRegister, incoming));
    if incoming == [] then Lowered(Emit(phi.state, Unreachable), Never) else phi
  }

  // ---------- lowering ----------

  function Lower(e: Expr, s: State): (r: Lowered)
    ensures |s.blocks| <= |r.state.blocks|
    decreases e
  {
    match e
    case Literal(v) => Lowered(s, BasicValue(Const(v)))
    case Variable(x) => Define(s, Load(s.nextRegister, SlotOf(s, x)))
    case BinaryOp(kind, l, r) =>
      var a := Lower(l, s);
      var b := Lower(r, a.state);
      Define(b.state, Binary(b.state.nextRegister, kind, ExpectValue(a.value), ExpectValue(b.value)))
    case And(l, r) =>
      var a := Lower(l, s);
      var n := |a.state.blocks|;
      var b := Lower(r, Fork(AppendBlocks(a.state), ExpectValue(a.value), n));
      var joined := BranchAndMove(BranchAndMove(b.state, n + 2, n + 1), n + 2, n + 2);
      Define(joined, Phi(joined.nextRegister,
        [Incoming(ExpectValue(b.value), b.state.insertBlock), Incoming(Const(BoolValue(false)), n + 1)]))
    case Or(l, r) =>
      var a := Lower(l, s);
      var b := Lower(r, a.state);
      Define(b.state, OrBits(b.state.nextRegister, ExpectValue(a.value), ExpectValue(b.value)))
    case If(c, t, f) =>
      var n := |s.blocks|;
      var a := Lower(c, AppendBlocks(s));
      var b := Lower(t, Fork(a.state, ExpectValue(a.value), n));
      var d := Lower(f, FinishBranch(b, n + 2, n + 1));
      Merge(FinishBranch(d, n + 2, n + 2), BranchIncoming(b) + BranchIncoming(d))
    case Block(ss) => LowerAll(ss, s, BasicValue(Const(UnitValue)))
    case Return(v) =>
      var a := Lower(v, s);
      Lowered(Emit(a.state, Ret(ExpectValue(a.value))), Never)
  }

  function DefineVariable(s: State, x: VariableId, value: Operand): State {
    var slot := s.nextSlot;
    Emit(Emit(s, Alloca(slot)), Store(slot, value)).(nextSlot := slot + 1, variables := s.variables[x := slot])
  }

  /** `last` is the value so far of the enclosing block; a while statement leaves it alone. */
  function LowerStmt(st: Stmt, s: State, last: LlvmValue): (r: Lowered)
    ensures |s.blocks| <= |r.state.blocks|
    decreases st
  {
    match st
    case ExprStmt(e) => Lower(e, s)
    case ValDef(x, e) =>
      var a := Lower(e, s);
      Lowered(DefineVariable(a.state, x, ExpectValue(a.value)), BasicValue(Const(UnitValue)))
    case Assignment(x, e) =>
      var a := Lower(e, s);
      Lowered(Emit(a.state, Store(SlotOf(s, x), ExpectValue(a.value))), BasicValue(Const(UnitValue)))
    case WhileLoop(c, body) =>
      var n := |s.blocks|;
      var a := Lower(c, BranchAndMove(AppendBlocks(s), n, n));
      var b := LowerAll(body, Fork(a.state, ExpectValue(a.value), n + 1), BasicValue(Const(UnitValue)));
      Lowered(BranchAndMove(b.state, n, n + 2), last)
  }

  function LowerAll(ss: seq<Stmt>, s: State, last: LlvmValue): (r: Lowered)
    ensures |s.blocks| <= |r.state.blocks|
    decreases ss
  {
    if ss == [] then Lowered(s, last)
    else
      var a := LowerStmt(ss[0], s, last);
      LowerAll(ss[1..], a.state, a.value)
  }

  // ---------- functions ----------

  function Entry(): State {
    BuilderState([[]], 0, 0, 0, map[])
  }

  function LowerParams(params: seq<VariableId>, from: nat, s: State): State
    requires from <= |params|
    decreases |params| - from
  {
    if from == |params| then s else LowerParams(params, from + 1, DefineVariable(s, params[from], Argument(from)))
  }

  predicate HasTerminator(b: BasicBlock) {
    b != [] && IsTerminator(b[|b| - 1])
  }

  function Finish(b: Lowered): State {
    if HasTerminator(b.state.blocks[b.state.insertBlock]) then b.state
    else Emit(b.state, if b.value.BasicValue? then Ret(b.value.operand) else Unreachable)
  }

  function LowerFunction(params: seq<VariableId>, body: seq<Stmt>): State {
    Finish(LowerAll(body, LowerParams(params, 0, Entry()), BasicValue(Const(UnitValue))))
  }
}
