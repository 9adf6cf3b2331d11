/** What lowering leaves alone: it appends to the current block, adds blocks, registers and variables. */
module LoweringFrame {
  import opened TypedTree
  import opened ControlFlowGraph
  import opened Lowering

  /** b has a's blocks; of these only a's current block may have become longer. */
  ghost predicate Keeps(a: State, b: State) {
    && |a.blocks| <= |b.blocks| && a.nextRegister <= b.nextRegister && a.nextSlot <= b.nextSlot
    && forall k :: 0 <= k < |a.blocks| ==> KeepsBlock(a, b, k)
  }

  ghost predicate KeepsBlock(a: State, b: State, k: Label)
    requires k < |a.blocks| && |a.blocks| <= |b.blocks|
  {
    a.blocks[k] <= b.blocks[k] && (k != a.insertBlock ==> b.blocks[k] == a.blocks[k])
  }

  /** Building goes on in a's current block or in a block added since. */
  ghost predicate Follows(a: State, b: State) {
    b.insertBlock == a.insertBlock || |a.blocks| <= b.insertBlock
  }

  /** b knows a's variables, and those of defs with fresh slots. */
  ghost predicate VariablesGrow(a: State, b: State, defs: set<VariableId>) {
    && b.variables.Keys == a.variables.Keys + defs
    && (forall x :: x in a.variables ==> b.variables[x] == a.variables[x])
    && forall x :: x in defs && x !in a.variables ==> a.nextSlot <= b.variables[x] < b.nextSlot
  }

  ghost predicate Grows(a: State, b: State, defs: set<VariableId>) {
    Keeps(a, b) && Follows(a, b) && VariablesGrow(a, b, defs)
  }

  ghost predicate Below(op: Operand, bound: Register) {
    op.Local? ==> op.register < bound
  }

  ghost predicate ValueBelow(v: LlvmValue, bound: Register) {
    v.BasicValue? ==> Below(v.operand, bound)
  }

  // ---------- composition ----------

  lemma KeepsTrans(a: State, b: State, c: State)
    requires Keeps(a, b) && Follows(a, b) && Keeps(b, c)
    ensures Keeps(a, c)
  {
    forall k | 0 <= k < |a.blocks| ensures KeepsBlock(a, c, k) {
      assert KeepsBlock(a, b, k) && KeepsBlock(b, c, k);
    }
  }

  /** A chain of steps, each of which may reposition, as long as the last position is allowed. */
  lemma GrowsTrans(a: State, b: State, c: State, d1: set<VariableId>, d2: set<VariableId>)
    requires Grows(a, b, d1) && Keeps(b, c) && VariablesGrow(b, c, d2) && Follows(a, c)
    requires b.variables.Keys !! d2
    ensures Grows(a, c, d1 + d2)
  {
    KeepsTrans(a, b, c);
  }

  lemma EmitKeeps(s: State, i: Instruction)
    ensures Keeps(s, Emit(s, i)) && Follows(s, Emit(s, i)) && VariablesGrow(s, Emit(s, i), {})
  {
  }

  lemma DefineGrows(s: State, i: Instruction)
    ensures Grows(s, Define(s, i).state, {}) && ValueBelow(Define(s, i).value, Define(s, i).state.nextRegister)
  {
    EmitKeeps(s, i);
  }

  lemma AppendGrows(s: State)
    ensures Grows(s, AppendBlocks(s), {})
  {
  }

  lemma ForkKeeps(s: State, cond: Operand, n: Label)
    requires n < |s.blocks|
    ensures Keeps(s, Fork(s, cond, n)) && VariablesGrow(s, Fork(s, cond, n), {})
  {
    EmitKeeps(s, CondBranch(cond, n, n + 1));
  }

  lemma BranchKeeps(s: State, target: Label, next: Label)
    requires next < |s.blocks|
    ensures Keeps(s, BranchAndMove(s, target, next)) && VariablesGrow(s, BranchAndMove(s, target, next), {})
  {
    EmitKeeps(s, Branch(target));
  }

  lemma FinishKeeps(b: Lowered, merge: Label, next: Label)
    requires next < |b.state.blocks|
    ensures Keeps(b.state, FinishBranch(b, merge, next)) && VariablesGrow(b.state, FinishBranch(b, merge, next), {})
  {
    BranchKeeps(b.state, merge, next);
  }

  lemma MergeGrows(s: State, incoming: seq<Incoming>)
    ensures Grows(s, Merge(s, incoming).state, {})
    ensures ValueBelow(Merge(s, incoming).value, Merge(s, incoming).state.nextRegister)
  {
    var phi := Define(s, Phi(s.nextRegister, incoming));
    DefineGrows(s, Phi(s.nextRegister, incoming));
    EmitKeeps(phi.state, Unreachable);
    if incoming == [] { GrowsTrans(s, phi.state, Emit(phi.state, Unreachable), {}, {}); }
  }

  lemma DefineVariableGrows(s: State, x: VariableId, value: Operand)
    requires x !in s.variables
    ensures Grows(s, DefineVariable(s, x, value), {x})
  {
    EmitKeeps(s, Alloca(s.nextSlot));
    EmitKeeps(Emit(s, Alloca(s.nextSlot)), Store(s.nextSlot, value));
    KeepsTrans(s, Emit(s, Alloca(s.nextSlot)), Emit(Emit(s, Alloca(s.nextSlot)), Store(s.nextSlot, value)));
  }

  // ---------- lowering ----------

  /** Variables in scope are known, and those the tree defines are not. */
  ghost predicate Scoped(s: State, scope: set<VariableId>, defs: set<VariableId>) {
    scope <= s.variables.Keys && defs !! s.variables.Keys
  }

  /** Each block of a is a prefix of the one in code with its label. */
  ghost predicate Within(a: State, code: seq<BasicBlock>) {
    |a.blocks| <= |code| && forall k :: 0 <= k < |a.blocks| ==> a.blocks[k] <= code[k]
  }

  lemma KeepsWithin(a: State, b: State, code: seq<BasicBlock>)
    requires Keeps(a, b) && Within(b, code)
    ensures Within(a, code)
  {
    forall k | 0 <= k < |a.blocks| ensures a.blocks[k] <= code[k] {
      assert KeepsBlock(a, b, k);
    }
  }

  // The stages of the branching constructs.

  ghost function AndRight(e: Expr, s: State): Lowered
    requires e.And?
  {
    var a := Lower(e.lhs, s);
    Lower(e.rhs, Fork(AppendBlocks(a.state), ExpectValue(a.value), |a.state.blocks|))
  }

  /** The state in and_result; n is the first of the three blocks of the construct. */
  ghost function AndJoined(b: State, n: Label): State
    requires n + 2 < |b.blocks|
  {
    BranchAndMove(BranchAndMove(b, n + 2, n + 1), n + 2, n + 2)
  }

  ghost function IfCondition(e: Expr, s: State): Lowered
    requires e.If?
  {
    Lower(e.condition, AppendBlocks(s))
  }

  ghost function IfThen(e: Expr, s: State): State
    requires e.If?
  {
    Fork(IfCondition(e, s).state, ExpectValue(IfCondition(e, s).value), |s.blocks|)
  }

  ghost function IfConsequent(e: Expr, s: State): Lowered
    requires e.If?
  {
    Lower(e.consequent, IfThen(e, s))
  }

  ghost function IfElse(e: Expr, s: State): State
    requires e.If?
  {
    FinishBranch(IfConsequent(e, s), |s.blocks| + 2, |s.blocks| + 1)
  }

  ghost function IfAlternate(e: Expr, s: State): Lowered
    requires e.If?
  {
    Lower(e.alternate, IfElse(e, s))
  }

  ghost function IfMerge(e: Expr, s: State): State
    requires e.If?
  {
    FinishBranch(IfAlternate(e, s), |s.blocks| + 2, |s.blocks| + 2)
  }

  ghost function LoopEntry(s: State): State {
    BranchAndMove(AppendBlocks(s), |s.blocks|, |s.blocks|)
  }

  ghost function LoopCondition(st: Stmt, s: State): Lowered
    requires st.WhileLoop?
  {
    Lower(st.cond, LoopEntry(s))
  }

  ghost function LoopInside(st: Stmt, s: State): State
    requires st.WhileLoop?
  {
    Fork(LoopCondition(st, s).state, ExpectValue(LoopCondition(st, s).value), |s.blocks| + 1)
  }

  ghost function LoopBody(st: Stmt, s: State): Lowered
    requires st.WhileLoop?
  {
    LowerAll(st.body, LoopInside(st, s), BasicValue(Const(UnitValue)))
  }

  lemma {:induction false} LowerGrows(e: Expr, s: State, scope: set<VariableId>)
    requires Legal(e, scope) && Scoped(s, scope, Defs(e))
    ensures Grows(s, Lower(e, s).state, Defs(e)) && ValueBelow(Lower(e, s).value, Lower(e, s).state.nextRegister)
    decreases e, 2
  {
    match e {
      case Literal(_) =>
      case Variable(x) => DefineGrows(s, Load(s.nextRegister, SlotOf(s, x)));
      case BinaryOp(kind, l, r) =>
        OperandsGrow(e, s, scope);
        var a, b := Lower(l, s), Lower(r, Lower(l, s).state);
        DefineLastGrows(s, b.state, Binary(b.state.nextRegister, kind, ExpectValue(a.value), ExpectValue(b.value)),
          Defs(e));
      case Or(l, r) =>
        OperandsGrow(e, s, scope);
        var a, b := Lower(l, s), Lower(r, Lower(l, s).state);
        DefineLastGrows(s, b.state, OrBits(b.state.nextRegister, ExpectValue(a.value), ExpectValue(b.value)), Defs(e));
      case And(_, _) => AndGrows(e, s, scope);
      case If(_, _, _) => IfGrows(e, s, scope);
      case Block(ss) => LowerAllGrows(ss, s, BasicValue(Const(UnitValue)), scope);

      case Return(v) =>
        LowerGrows(v, s, scope);
        var a := Lower(v, s);
        EmitLastGrows(s, a.state, Ret(ExpectValue(a.value)), Defs(v));
    }
  }

  lemma DefineLastGrows(s: State, b: State, i: Instruction, defs: set<VariableId>)
    requires Grows(s, b, defs)
    ensures Grows(s, Define(b, i).state, defs) && ValueBelow(Define(b, i).value, Define(b, i).state.nextRegister)
  {
    DefineGrows(b, i);
    GrowsTrans(s, b, Define(b, i).state, defs, {});
    assert defs + {} == defs;
  }

  lemma EmitLastGrows(s: State, b: State, i: Instruction, defs: set<VariableId>)
    requires Grows(s, b, defs)
    ensures Grows(s, Emit(b, i), defs)
  {
    EmitKeeps(b, i);
    GrowsTrans(s, b, Emit(b, i), defs, {});
    assert defs + {} == defs;
  }

  /** Lowering one more tree after having reached `mid`, in a block that was not there at s. */
  lemma {:induction false} LowerNext(e: Expr, s: State, mid: State, scope: set<VariableId>, before: set<VariableId>)
    requires Grows(s, mid, before) && Legal(e, scope) && Scoped(s, scope, before + Defs(e)) && before !! Defs(e)
    ensures Grows(mid, Lower(e, mid).state, Defs(e))
    ensures ValueBelow(Lower(e, mid).value, Lower(e, mid).state.nextRegister)
    ensures Grows(s, Lower(e, mid).state, before + Defs(e))
    decreases e, 3
  {
    LowerGrows(e, mid, scope);
    GrowsTrans(s, mid, Lower(e, mid).state, before, Defs(e));
  }

  lemma {:induction false} OperandsGrow(e: Expr, s: State, scope: set<VariableId>)
    requires e.BinaryOp? || e.Or?
    requires Legal(e, scope) && Scoped(s, scope, Defs(e))
    ensures var a, b := Lower(e.lhs, s), Lower(e.rhs, Lower(e.lhs, s).state);
      && Grows(s, a.state, Defs(e.lhs)) && ValueBelow(a.value, a.state.nextRegister)
      && Grows(a.state, b.state, Defs(e.rhs)) && ValueBelow(b.value, b.state.nextRegister)
      && Grows(s, b.state, Defs(e))
    decreases e, 0
  {
    LowerGrows(e.lhs, s, scope);
    LowerNext(e.rhs, s, Lower(e.lhs, s).state, scope, Defs(e.lhs));
  }

  /** Repositioning after an emitted terminator keeps growth from s, if the new block was added since s. */
  lemma MoveGrows(s: State, b: State, c: State, defs: set<VariableId>)
    requires Grows(s, b, defs) && Keeps(b, c) && VariablesGrow(b, c, {}) && Follows(s, c)
    ensures Grows(s, c, defs)
  {
    GrowsTrans(s, b, c, defs, {});
    assert defs + {} == defs;
  }

  lemma {:induction false} AndGrows(e: Expr, s: State, scope: set<VariableId>)
    requires e.And? && Legal(e, scope) && Scoped(s, scope, Defs(e))
    ensures var a, b := Lower(e.lhs, s), AndRight(e, s);
      var fork := Fork(AppendBlocks(a.state), ExpectValue(a.value), |a.state.blocks|);
      && Grows(s, a.state, Defs(e.lhs)) && ValueBelow(a.value, a.state.nextRegister)
      && Keeps(a.state, fork)
      && Grows(fork, b.state, Defs(e.rhs)) && ValueBelow(b.value, b.state.nextRegister)
      && Grows(s, b.state, Defs(e))
    ensures Grows(s, Lower(e, s).state, Defs(e)) && ValueBelow(Lower(e, s).value, Lower(e, s).state.nextRegister)
    decreases e, 0
  {
    var a := Lower(e.lhs, s);
    var n := |a.state.blocks|;
    var fork := Fork(AppendBlocks(a.state), ExpectValue(a.value), n);
    LowerGrows(e.lhs, s, scope);
    AppendGrows(a.state);
    ForkKeeps(AppendBlocks(a.state), ExpectValue(a.value), n);
    MoveGrows(s, a.state, AppendBlocks(a.state), Defs(e.lhs));
    MoveGrows(s, AppendBlocks(a.state), fork, Defs(e.lhs));
    KeepsTrans(a.state, AppendBlocks(a.state), fork);
    LowerNext(e.rhs, s, fork, scope, Defs(e.lhs));
    AndJoinGrows(s, AndRight(e, s).state, n, Defs(e));
    var b := AndRight(e, s);
    var joined := AndJoined(b.state, n);
    DefineLastGrows(s, joined, Phi(joined.nextRegister,
      [Incoming(ExpectValue(b.value), b.state.insertBlock), Incoming(Const(BoolValue(false)), n + 1)]), Defs(e));
  }

  lemma AndJoinGrows(s: State, b: State, n: Label, defs: set<VariableId>)
    requires Grows(s, b, defs) && |s.blocks| <= n && n + 2 < |b.blocks|
    requires Follows(s, b)
    ensures Keeps(b, BranchAndMove(b, n + 2, n + 1)) && Keeps(BranchAndMove(b, n + 2, n + 1), AndJoined(b, n))
    ensures Grows(s, AndJoined(b, n), defs)
  {
    var c := BranchAndMove(b, n + 2, n + 1);
    BranchKeeps(b, n + 2, n + 1);
    BranchKeeps(c, n + 2, n + 2);
    MoveGrows(s, b, c, defs);
    MoveGrows(s, c, AndJoined(b, n), defs);
  }

  lemma {:induction false} IfGrows(e: Expr, s: State, scope: set<VariableId>)
    requires e.If? && Legal(e, scope) && Scoped(s, scope, Defs(e))
    ensures Grows(s, Lower(e, s).state, Defs(e)) && ValueBelow(Lower(e, s).value, Lower(e, s).state.nextRegister)
    decreases e, 1
  {
    IfMergeGrows(e, s, scope);
    var incoming := BranchIncoming(IfConsequent(e, s)) + BranchIncoming(IfAlternate(e, s));
    MergeLastGrows(s, IfMerge(e, s), incoming, Defs(e));
  }

  lemma MergeLastGrows(s: State, b: State, incoming: seq<Incoming>, defs: set<VariableId>)
    requires Grows(s, b, defs)
    ensures Grows(s, Merge(b, incoming).state, defs) && Keeps(b, Merge(b, incoming).state)
    ensures ValueBelow(Merge(b, incoming).value, Merge(b, incoming).state.nextRegister)
  {
    MergeGrows(b, incoming);
    GrowsTrans(s, b, Merge(b, incoming).state, defs, {});
    assert defs + {} == defs;
  }

  lemma {:induction false} IfThenGrows(e: Expr, s: State, scope: set<VariableId>)
    requires e.If? && Legal(e, scope) && Scoped(s, scope, Defs(e))
    ensures var a := IfCondition(e, s);
      && Grows(AppendBlocks(s), a.state, Defs(e.condition)) && ValueBelow(a.value, a.state.nextRegister)
      && Keeps(a.state, IfThen(e, s)) && Grows(s, IfThen(e, s), Defs(e.condition))
    decreases e, 0, 0
  {
    var a := IfCondition(e, s);
    AppendGrows(s);
    LowerNext(e.condition, s, AppendBlocks(s), scope, {});
    assert {} + Defs(e.condition) == Defs(e.condition);
    ForkKeeps(a.state, ExpectValue(a.value), |s.blocks|);
    MoveGrows(s, a.state, IfThen(e, s), Defs(e.condition));
  }

  lemma {:induction false} IfElseGrows(e: Expr, s: State, scope: set<VariableId>)
    requires e.If? && Legal(e, scope) && Scoped(s, scope, Defs(e))
    ensures var b := IfConsequent(e, s);
      && Grows(IfThen(e, s), b.state, Defs(e.consequent)) && ValueBelow(b.value, b.state.nextRegister)
      && Keeps(b.state, IfElse(e, s)) && Grows(s, IfElse(e, s), Defs(e.condition) + Defs(e.consequent))
    decreases e, 0, 1
  {
    IfThenGrows(e, s, scope);
    BranchGrows(e.consequent, s, IfThen(e, s), IfConsequent(e, s), scope, Defs(e.condition), |s.blocks| + 2,
      |s.blocks| + 1);
  }

  lemma {:induction false} IfMergeGrows(e: Expr, s: State, scope: set<VariableId>)
    requires e.If? && Legal(e, scope) && Scoped(s, scope, Defs(e))
    ensures var d := IfAlternate(e, s);
      && Grows(IfElse(e, s), d.state, Defs(e.alternate)) && ValueBelow(d.value, d.state.nextRegister)
      && Keeps(d.state, IfMerge(e, s)) && Grows(s, IfMerge(e, s), Defs(e))
    decreases e, 0, 2
  {
    IfElseGrows(e, s, scope);
    var before := Defs(e.condition) + Defs(e.consequent);
    assert before + Defs(e.alternate) == Defs(e);
    BranchGrows(e.alternate, s, IfElse(e, s), IfAlternate(e, s), scope, before, |s.blocks| + 2, |s.blocks| + 2);
  }

  lemma {:induction false} BranchGrows(e: Expr, s: State, mid: State, d: Lowered, scope: set<VariableId>,
                                       before: set<VariableId>,
                                       merge: Label, next: Label)
    requires Grows(s, mid, before) && Legal(e, scope) && Scoped(s, scope, before + Defs(e)) && before !! Defs(e)
    requires d == Lower(e, mid) && |s.blocks| <= next < |mid.blocks|
    ensures Grows(mid, d.state, Defs(e)) && ValueBelow(d.value, d.state.nextRegister)
    ensures Keeps(d.state, FinishBranch(d, merge, next)) && Grows(s, FinishBranch(d, merge, next), before + Defs(e))
    decreases e, 4
  {
    LowerNext(e, s, mid, scope, before);
    FinishGrows(s, d, merge, next, before + Defs(e));
  }

  lemma FinishGrows(s: State, b: Lowered, merge: Label, next: Label, defs: set<VariableId>)
    requires Grows(s, b.state, defs) && |s.blocks| <= next < |b.state.blocks|
    ensures Keeps(b.state, FinishBranch(b, merge, next)) && Grows(s, FinishBranch(b, merge, next), defs)
  {
    FinishKeeps(b, merge, next);
    MoveGrows(s, b.state, FinishBranch(b, merge, next), defs);
  }

  // ---------- statements ----------

  ghost function NewScope(st: Stmt, scope: set<VariableId>): set<VariableId> {
    if st.ValDef? then scope + {st.id} else scope
  }

  lemma {:induction false} LowerStmtGrows(st: Stmt, s: State, last: LlvmValue, scope: set<VariableId>)
    requires LegalStmt(st, scope) && Scoped(s, scope, DefsOf(st)) && ValueBelow(last, s.nextRegister)
    ensures Grows(s, LowerStmt(st, s, last).state, DefsOf(st))
    ensures ValueBelow(LowerStmt(st, s, last).value, LowerStmt(st, s, last).state.nextRegister)
    decreases st, 1
  {
    match st {
      case ExprStmt(e) => LowerGrows(e, s, scope);
      case ValDef(x, e) =>
        LowerGrows(e, s, scope);
        var a := Lower(e, s);
        DefineVariableGrows(a.state, x, ExpectValue(a.value));
        GrowsTrans(s, a.state, DefineVariable(a.state, x, ExpectValue(a.value)), Defs(e), {x});
      case Assignment(x, e) =>
        LowerGrows(e, s, scope);
        var a := Lower(e, s);
        EmitLastGrows(s, a.state, Store(SlotOf(s, x), ExpectValue(a.value)), Defs(e));
      case WhileLoop(_, _) => LoopGrows(st, s, last, scope);
    }
  }

  lemma {:induction false} LoopGrows(st: Stmt, s: State, last: LlvmValue, scope: set<VariableId>)
    requires st.WhileLoop? && LegalStmt(st, scope) && Scoped(s, scope, DefsOf(st)) && ValueBelow(last, s.nextRegister)
    ensures var a, b := LoopCondition(st, s), LoopBody(st, s);
      && Keeps(s, LoopEntry(s)) && Grows(s, LoopEntry(s), {})
      && Grows(LoopEntry(s), a.state, Defs(st.cond)) && ValueBelow(a.value, a.state.nextRegister)
      && Keeps(a.state, LoopInside(st, s)) && Grows(s, LoopInside(st, s), Defs(st.cond))
      && Grows(LoopInside(st, s), b.state, DefsOfAll(st.body))
      && Keeps(b.state, LowerStmt(st, s, last).state)
    ensures Grows(s, LowerStmt(st, s, last).state, DefsOf(st))
    ensures ValueBelow(LowerStmt(st, s, last).value, LowerStmt(st, s, last).state.nextRegister)
    decreases st, 0
  {
    var n, a, b := |s.blocks|, LoopCondition(st, s), LoopBody(st, s);
    AppendGrows(s);
    BranchKeeps(AppendBlocks(s), n, n);
    MoveGrows(s, AppendBlocks(s), LoopEntry(s), {});
    LowerNext(st.cond, s, LoopEntry(s), scope, {});
    assert {} + Defs(st.cond) == Defs(st.cond);
    ForkKeeps(a.state, ExpectValue(a.value), n + 1);
    MoveGrows(s, a.state, LoopInside(st, s), Defs(st.cond));
    LowerAllGrows(st.body, LoopInside(st, s), BasicValue(Const(UnitValue)), scope);
    GrowsTrans(s, LoopInside(st, s), b.state, Defs(st.cond), DefsOfAll(st.body));
    BranchKeeps(b.state, n, n + 2);
    MoveGrows(s, b.state, LowerStmt(st, s, last).state, DefsOf(st));
  }

  lemma {:induction false} LowerAllGrows(ss: seq<Stmt>, s: State, last: LlvmValue, scope: set<VariableId>)
    requires LegalAll(ss, scope) && Scoped(s, scope, DefsOfAll(ss)) && ValueBelow(last, s.nextRegister)
    ensures Grows(s, LowerAll(ss, s, last).state, DefsOfAll(ss))
    ensures ValueBelow(LowerAll(ss, s, last).value, LowerAll(ss, s, last).state.nextRegister)
    decreases ss, 1
  {
    if ss != [] {
      var a := LowerStmt(ss[0], s, last);
      LowerStmtGrows(ss[0], s, last, scope);
      LowerAllGrows(ss[1..], a.state, a.value, NewScope(ss[0], scope));
      GrowsTrans(s, a.state, LowerAll(ss, s, last).state, DefsOf(ss[0]), DefsOfAll(ss[1..]));
    }
  }

  // ---------- slots ----------

  /** Every variable has its own slot. */
  ghost predicate DistinctSlots(s: State) {
    && (forall x :: x in s.variables ==> s.variables[x] < s.nextSlot)
    && forall x, y :: x in s.variables && y in s.variables && x != y ==> s.variables[x] != s.variables[y]
  }

  lemma {:induction false} LowerSlots(e: Expr, s: State)
    requires DistinctSlots(s)
    ensures DistinctSlots(Lower(e, s).state)
    decreases e, 1
  {
    match e {
      case BinaryOp(_, l, r) =>
        LowerSlots(l, s);
        LowerSlots(r, Lower(l, s).state);
      case Or(l, r) =>
        LowerSlots(l, s);
        LowerSlots(r, Lower(l, s).state);
      case And(l, r) =>
        var a := Lower(l, s);
        LowerSlots(l, s);
        LowerSlots(r, Fork(AppendBlocks(a.state), ExpectValue(a.value), |a.state.blocks|));
      case If(_, _, _) => IfSlots(e, s);
      case Block(ss) => LowerAllSlots(ss, s, BasicValue(Const(UnitValue)));
      case Return(v) => LowerSlots(v, s);
      case _ =>
    }
  }

  lemma {:induction false} IfSlots(e: Expr, s: State)
    requires e.If? && DistinctSlots(s)
    ensures DistinctSlots(Lower(e, s).state)
    decreases e, 0
  {
    LowerSlots(e.condition, AppendBlocks(s));
    LowerSlots(e.consequent, IfThen(e, s));
    LowerSlots(e.alternate, IfElse(e, s));
    IfResult(e, s);
  }

  lemma {:induction false} LowerAllSlots(ss: seq<Stmt>, s: State, last: LlvmValue)
    requires DistinctSlots(s)
    ensures DistinctSlots(LowerAll(ss, s, last).state)
    decreases ss
  {
    if ss != [] {
      var a := LowerStmt(ss[0], s, last);
      LowerStmtSlots(ss[0], s, last);
      LowerAllSlots(ss[1..], a.state, a.value);
    }
  }

  lemma {:induction false} LowerStmtSlots(st: Stmt, s: State, last: LlvmValue)
    requires DistinctSlots(s)
    ensures DistinctSlots(LowerStmt(st, s, last).state)
    decreases st
  {
    match st {
      case ExprStmt(e) => LowerSlots(e, s);
      case ValDef(_, e) => LowerSlots(e, s);
      case Assignment(_, e) => LowerSlots(e, s);
      case WhileLoop(c, body) =>
        LowerSlots(c, LoopEntry(s));
        LowerAllSlots(body, LoopInside(st, s), BasicValue(Const(UnitValue)));
    }
  }

  // ---------- the blocks of the branching constructs ----------

  ghost function AndIncoming(b: Lowered, n: Label): seq<Incoming> {
    [Incoming(ExpectValue(b.value), b.state.insertBlock), Incoming(Const(BoolValue(false)), n + 1)]
  }

  ghost function IfIncoming(b: Lowered, d: Lowered): seq<Incoming> {
    BranchIncoming(b) + BranchIncoming(d)
  }

  /** A block still to be filled is empty and not the current one. */
  lemma Pending(a: State, b: State, k: Label)
    requires Keeps(a, b) && Follows(a, b) && k < |a.blocks| && k != a.insertBlock && a.blocks[k] == []
    ensures b.blocks[k] == [] && b.insertBlock != k
  {
    assert KeepsBlock(a, b, k);
  }

  /** The blocks of the construct while it is built: the three new ones are n, n + 1 and n + 2. */
  ghost predicate AndShape(s: State, a: Lowered, fork: State, b: Lowered) {
    var n := |a.state.blocks|;
    && s.nextRegister <= a.state.nextRegister <= fork.nextRegister <= b.state.nextRegister
    && ValueBelow(a.value, a.state.nextRegister)
    && fork.insertBlock == n && n + 2 < |fork.blocks| && |fork.blocks| <= |b.state.blocks|
    && fork.blocks[n] == [] && fork.variables == a.state.variables
    && b.state.blocks[n + 1] == [] && b.state.blocks[n + 2] == []
    && b.state.insertBlock != n + 1 && b.state.insertBlock != n + 2
  }

  lemma AndResult(e: Expr, s: State, a: Lowered, fork: State, b: Lowered)
    requires e.And? && a == Lower(e.lhs, s)
    requires fork == Fork(AppendBlocks(a.state), ExpectValue(a.value), |a.state.blocks|)
    requires b == Lower(e.rhs, fork)
    ensures |a.state.blocks| + 2 < |b.state.blocks|
    ensures Lower(e, s) == Define(AndJoined(b.state, |a.state.blocks|),
      Phi(b.state.nextRegister, AndIncoming(b, |a.state.blocks|)))
  {
  }

  lemma AndIsShaped(e: Expr, s: State, scope: set<VariableId>, a: Lowered, fork: State, b: Lowered)
    requires e.And? && Legal(e, scope) && Scoped(s, scope, Defs(e))
    requires a == Lower(e.lhs, s) && fork == Fork(AppendBlocks(a.state), ExpectValue(a.value), |a.state.blocks|)
    requires b == Lower(e.rhs, fork)
    ensures AndShape(s, a, fork, b) && Scoped(s, scope, Defs(e.lhs)) && Scoped(fork, scope, Defs(e.rhs))
  {
    AndGrows(e, s, scope);
    Pending(fork, b.state, |a.state.blocks| + 1);
    Pending(fork, b.state, |a.state.blocks| + 2);
  }

  /** The blocks of the construct while it is built: the three new ones are n, n + 1 and n + 2. */
  ghost predicate IfShape(s: State, a: Lowered, b: Lowered, d: Lowered, onTrue: State, onFalse: State, merge: State) {
    var n := |s.blocks|;
    && s.nextRegister <= onTrue.nextRegister <= onFalse.nextRegister <= merge.nextRegister
    && n + 2 < |onTrue.blocks| && n + 2 < |onFalse.blocks|
    && onTrue.insertBlock == n && onTrue.blocks[n] == [] && onTrue.blocks[n + 1] == [] && onTrue.blocks[n + 2] == []
    && onFalse.insertBlock == n + 1 && onFalse.blocks[n + 1] == [] && onFalse.blocks[n + 2] == []
    && merge.insertBlock == n + 2 && merge.blocks[n + 2] == []
    && b.state.insertBlock != d.state.insertBlock
  }

  /** While the condition is lowered, the three new blocks stay empty. */
  lemma IfPending(e: Expr, s: State, scope: set<VariableId>)
    requires e.If? && Legal(e, scope) && Scoped(s, scope, Defs(e))
    ensures forall k :: |s.blocks| <= k <= |s.blocks| + 2 ==>
      k < |IfCondition(e, s).state.blocks| && IfCondition(e, s).state.blocks[k] == []
        && IfCondition(e, s).state.insertBlock != k
  {
    IfThenGrows(e, s, scope);
    forall k | |s.blocks| <= k <= |s.blocks| + 2
      ensures IfCondition(e, s).state.blocks[k] == [] && IfCondition(e, s).state.insertBlock != k
    {
      Pending(AppendBlocks(s), IfCondition(e, s).state, k);
    }
  }

  lemma IfIsShaped(e: Expr, s: State, scope: set<VariableId>)
    requires e.If? && Legal(e, scope) && Scoped(s, scope, Defs(e))
    ensures IfShape(s, IfCondition(e, s), IfConsequent(e, s), IfAlternate(e, s), IfThen(e, s), IfElse(e, s),
      IfMerge(e, s))
  {
    var n := |s.blocks|;
    IfThenGrows(e, s, scope);
    IfElseGrows(e, s, scope);
    IfMergeGrows(e, s, scope);
    IfPending(e, s, scope);
    forall k | n < k <= n + 2 ensures IfElse(e, s).blocks[k] == [] && IfConsequent(e, s).state.insertBlock != k {
      Pending(IfThen(e, s), IfConsequent(e, s).state, k);
    }
    Pending(IfElse(e, s), IfAlternate(e, s).state, n + 2);
  }

  lemma IfScoped(e: Expr, s: State, scope: set<VariableId>)
    requires e.If? && Legal(e, scope) && Scoped(s, scope, Defs(e))
    ensures Scoped(AppendBlocks(s), scope, Defs(e.condition)) && Scoped(IfThen(e, s), scope, Defs(e.consequent))
    ensures Scoped(IfElse(e, s), scope, Defs(e.alternate))
  {
    IfThenGrows(e, s, scope);
    IfElseGrows(e, s, scope);
  }

  /** The blocks of the loop while it is built: n tests, n + 1 is the body, n + 2 comes after. */
  ghost predicate LoopShape(s: State, entry: State, a: Lowered, inside: State, b: Lowered, r: Lowered) {
    var n := |s.blocks|;
    && s.nextRegister == entry.nextRegister <= a.state.nextRegister == inside.nextRegister <= b.state.nextRegister
    && entry.insertBlock == n && entry.blocks[n] == []
    && inside.insertBlock == n + 1 && inside.blocks[n + 1] == []
    && r.state.insertBlock == n + 2 && r.state.blocks[n + 2] == []
  }

  /** While the condition is lowered, the body and end blocks stay empty. */
  lemma LoopPending(st: Stmt, s: State, last: LlvmValue, scope: set<VariableId>)
    requires st.WhileLoop? && LegalStmt(st, scope) && Scoped(s, scope, DefsOf(st)) && ValueBelow(last, s.nextRegister)
    ensures var a := LoopCondition(st, s);
      forall k :: |s.blocks| < k <= |s.blocks| + 2 ==>
        k < |a.state.blocks| && a.state.blocks[k] == [] && a.state.insertBlock != k
  {
    LoopGrows(st, s, last, scope);
    forall k | |s.blocks| < k <= |s.blocks| + 2
      ensures LoopCondition(st, s).state.blocks[k] == [] && LoopCondition(st, s).state.insertBlock != k
    {
      Pending(LoopEntry(s), LoopCondition(st, s).state, k);
    }
  }

  lemma LoopIsShaped(st: Stmt, s: State, last: LlvmValue, scope: set<VariableId>)
    requires st.WhileLoop? && LegalStmt(st, scope) && Scoped(s, scope, DefsOf(st)) && ValueBelow(last, s.nextRegister)
    ensures LoopShape(s, LoopEntry(s), LoopCondition(st, s), LoopInside(st, s), LoopBody(st, s), LowerStmt(st, s, last))
    ensures Scoped(LoopEntry(s), scope, Defs(st.cond)) && Scoped(LoopInside(st, s), scope, DefsOfAll(st.body))
  {
    LoopGrows(st, s, last, scope);
    LoopPending(st, s, last, scope);
    LoopShapeHolds(s, LoopEntry(s), LoopCondition(st, s), LoopInside(st, s), LoopBody(st, s), LowerStmt(st, s, last));
  }

  lemma LoopShapeHolds(s: State, entry: State, a: Lowered, inside: State, b: Lowered, r: Lowered)
    requires entry == LoopEntry(s) && Keeps(entry, a.state) && Keeps(inside, b.state) && Follows(inside, b.state)
    requires forall k :: |s.blocks| < k <= |s.blocks| + 2 ==>
      k < |a.state.blocks| && a.state.blocks[k] == [] && a.state.insertBlock != k
    requires inside == Fork(a.state, ExpectValue(a.value), |s.blocks| + 1)
    requires r.state == BranchAndMove(b.state, |s.blocks|, |s.blocks| + 2)
    ensures LoopShape(s, entry, a, inside, b, r)
  {
    Pending(inside, b.state, |s.blocks| + 2);
  }

  lemma MergeResult(e: Expr, s: State)
    requires e.If?
    ensures var b, d := IfConsequent(e, s), IfAlternate(e, s);
      b.value.BasicValue? || d.value.BasicValue? ==>
        Lower(e, s) == Define(IfMerge(e, s), Phi(IfMerge(e, s).nextRegister, IfIncoming(b, d)))
  {
    IfResult(e, s);
    MergePhi(IfMerge(e, s), IfConsequent(e, s), IfAlternate(e, s));
  }

  lemma IfResult(e: Expr, s: State)
    requires e.If?
    ensures Lower(e, s) == Merge(IfMerge(e, s), IfIncoming(IfConsequent(e, s), IfAlternate(e, s)))
  {
    var n, a := |s.blocks|, Lower(e.condition, AppendBlocks(s));
    var b := Lower(e.consequent, Fork(a.state, ExpectValue(a.value), n));
    var d := Lower(e.alternate, FinishBranch(b, n + 2, n + 1));
    assert IfCondition(e, s) == a && IfConsequent(e, s) == b && IfAlternate(e, s) == d;
    assert Lower(e, s) == Merge(FinishBranch(d, n + 2, n + 2), BranchIncoming(b) + BranchIncoming(d));
  }

  lemma MergePhi(merge: State, b: Lowered, d: Lowered)
    ensures b.value.BasicValue? || d.value.BasicValue? ==>
      Merge(merge, IfIncoming(b, d)) == Define(merge, Phi(merge.nextRegister, IfIncoming(b, d)))
  {
  }
}
