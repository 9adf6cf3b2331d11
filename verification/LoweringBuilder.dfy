/** The code generator proper: one builder, changed step by step, that emits exactly what Lower describes. */
module LoweringBuilder {
  import opened TypedTree
  import opened ControlFlowGraph
  import opened Lowering
  import opened LoweringFrame
  import opened LoweringWellFormed
  import opened LoweredFunctions

  class Builder {
    var blocks: seq<BasicBlock>
    var insertBlock: Label
    var nextRegister: Register
    var nextSlot: Slot
    var variables: map<VariableId, Slot>

    ghost predicate Valid()
      reads this
    {
      insertBlock < |blocks|
    }

    ghost function Current(): State
      requires Valid()
      reads this
    {
      BuilderState(blocks, insertBlock, nextRegister, nextSlot, variables)
    }

    /** A function with its empty entry block. */
    constructor ()
      ensures Valid() && Current() == Entry()
    {
      blocks, insertBlock, nextRegister, nextSlot, variables := [[]], 0, 0, 0, map[];
    }

    method AppendBasicBlock() returns (l: Label)
      requires Valid()
      modifies `blocks
      ensures Valid() && l == |old(blocks)| && blocks == old(blocks) + [[]]
    {
      l := |blocks|;
      blocks := blocks + [[]];
    }

    method AppendThree() returns (x: Label, y: Label, z: Label)
      requires Valid()
      modifies `blocks
      ensures Valid() && Current() == AppendBlocks(old(Current()))
      ensures x == |old(blocks)| && y == x + 1 && z == x + 2
    {
      x := AppendBasicBlock();
      y := AppendBasicBlock();
      z := AppendBasicBlock();
      assert blocks == old(blocks) + [[], [], []];
    }

    method PositionAt(l: Label)
      requires Valid() && l < |blocks|
      modifies `insertBlock
      ensures Valid() && Current() == PositionAtEnd(old(Current()), l)
    {
      insertBlock := l;
    }

    method Build(i: Instruction)
      requires Valid()
      modifies `blocks
      ensures Valid() && Current() == Emit(old(Current()), i)
    {
      blocks := blocks[insertBlock := blocks[insertBlock] + [i]];
    }

    method BuildValue(i: Instruction) returns (op: Operand)
      requires Valid()
      modifies this
      ensures Valid() && Lowered(Current(), BasicValue(op)) == Define(old(Current()), i)
    {
      Build(i);
      op := Local(nextRegister);
      nextRegister := nextRegister + 1;
    }

    /** An expression that has a value; asking a divergent one for its value does not happen. */
    method CodegenExprBasicValue(e: Expr, ghost scope: set<VariableId>) returns (op: Operand)
      requires Valid() && Legal(e, scope) && Scoped(Current(), scope, Defs(e)) && !Diverges(e)
      modifies this
      ensures Valid() && Lowered(Current(), BasicValue(op)) == Lower(e, old(Current()))
      ensures Grows(old(Current()), Current(), Defs(e))
      decreases e, 3
    {
      NeverIsDivergent(e, Current(), scope);
      var v := CodegenExpr(e, scope);
      op := v.operand;
    }

    method CodegenExpr(e: Expr, ghost scope: set<VariableId>) returns (v: LlvmValue)
      requires Valid() && Legal(e, scope) && Scoped(Current(), scope, Defs(e))
      modifies this
      ensures Valid() && Lowered(Current(), v) == Lower(e, old(Current()))
      ensures Grows(old(Current()), Current(), Defs(e))
      decreases e, 2
    {
      LowerGrows(e, Current(), scope);
      match e {
        case Literal(value) => v := BasicValue(Const(value));
        case Variable(x) =>
          var op := BuildValue(Load(nextRegister, variables[x]));
          v := BasicValue(op);
        case BinaryOp(_, _, _) => v := CodegenBinop(e, scope);
        case Or(_, _) => v := CodegenBinop(e, scope);
        case And(_, _) => v := CodegenAnd(e, scope);
        case If(_, _, _) => v := CodegenIfElse(e, scope);
        case Block(statements) => v := CodegenBlockStatements(statements, scope);
        case Return(result) =>
          var op := CodegenExprBasicValue(result, scope);
          Build(Ret(op));
          v := Never;
      }
    }

    /** Both sides, then one instruction; `or` is such an operation too. */
    method CodegenBinop(e: Expr, ghost scope: set<VariableId>) returns (v: LlvmValue)
      requires e.BinaryOp? || e.Or?
      requires Valid() && Legal(e, scope) && Scoped(Current(), scope, Defs(e))
      modifies this
      ensures Valid() && Lowered(Current(), v) == Lower(e, old(Current()))
      decreases e, 1
    {
      var lhs := CodegenExprBasicValue(e.lhs, scope);
      var rhs := CodegenExprBasicValue(e.rhs, scope);
      var op;
      if e.BinaryOp? {
        op := BuildValue(Binary(nextRegister, e.kind, lhs, rhs));
      } else {
        op := BuildValue(OrBits(nextRegister, lhs, rhs));
      }
      v := BasicValue(op);
    }

    /** Leaves the current block for one block and goes on in another. */
    method BranchTo(target: Label, next: Label)
      requires Valid() && next < |blocks|
      modifies this
      ensures Valid() && Current() == BranchAndMove(old(Current()), target, next)
    {
      Build(Branch(target));
      PositionAt(next);
    }

    method CodegenAnd(e: Expr, ghost scope: set<VariableId>) returns (v: LlvmValue)
      requires e.And? && Valid() && Legal(e, scope) && Scoped(Current(), scope, Defs(e))
      modifies this
      ensures Valid() && Lowered(Current(), v) == Lower(e, old(Current()))
      decreases e, 1
    {
      ghost var s := Current();
      var lhs := CodegenExprBasicValue(e.lhs, scope);
      ghost var a := Lowered(Current(), BasicValue(lhs));
      var rhsCheck, shortCircuit, andResult := AppendThree();
      Build(CondBranch(lhs, rhsCheck, shortCircuit));
      PositionAt(rhsCheck);
      ghost var fork := Current();
      assert fork == Fork(AppendBlocks(a.state), lhs, |a.state.blocks|);
      AndIsShaped(e, s, scope, a, fork, Lower(e.rhs, fork));
      var rhs := CodegenExprBasicValue(e.rhs, scope);
      v := JoinAnd(rhs, shortCircuit, andResult);
    }

    /** The end of `and`: the right side's value if it was reached, false if not. */
    method JoinAnd(rhs: Operand, shortCircuit: Label, andResult: Label) returns (v: LlvmValue)
      requires Valid() && shortCircuit < |blocks| && andResult < |blocks|
      modifies this
      ensures Valid()
      ensures var s := old(Current());
        var joined := BranchAndMove(BranchAndMove(s, andResult, shortCircuit), andResult, andResult);
        Lowered(Current(), v) == Define(joined, Phi(joined.nextRegister,
          [Incoming(rhs, s.insertBlock), Incoming(Const(BoolValue(false)), shortCircuit)]))
    {
      var rhsIncoming := insertBlock;
      BranchTo(andResult, shortCircuit);
      BranchTo(andResult, andResult);
      var op := BuildValue(Phi(nextRegister, [Incoming(rhs, rhsIncoming),
        Incoming(Const(BoolValue(false)), shortCircuit)]));
      v := BasicValue(op);
    }

    method CodegenIfElse(e: Expr, ghost scope: set<VariableId>) returns (v: LlvmValue)
      requires e.If? && Valid() && Legal(e, scope) && Scoped(Current(), scope, Defs(e))
      modifies this
      ensures Valid() && Lowered(Current(), v) == Lower(e, old(Current()))
      decreases e, 1
    {
      ghost var s := Current();
      IfScoped(e, s, scope);
      IfResult(e, s);
      var consequentBlock, alternateBlock, mergeBlock := AppendThree();
      var condition := CodegenExprBasicValue(e.condition, scope);
      Build(CondBranch(condition, consequentBlock, alternateBlock));
      PositionAt(consequentBlock);
      assert Current() == IfThen(e, s);
      var consequentIncoming := CodegenBranch(e.consequent, mergeBlock, alternateBlock, scope);
      assert Current() == IfElse(e, s);
      var alternateIncoming := CodegenBranch(e.alternate, mergeBlock, mergeBlock, scope);
      assert Current() == IfMerge(e, s);
      var incoming := consequentIncoming + alternateIncoming;
      var op := BuildValue(Phi(nextRegister, incoming));
      if incoming == [] {
        Build(Unreachable);
        v := Never;
      } else {
        v := BasicValue(op);
      }
    }

    /** One branch of an `if`; the phi hears from the block in which the branch ends, if it does. */
    method CodegenBranch(e: Expr, merge: Label, next: Label,
                         ghost scope: set<VariableId>) returns (incoming: seq<Incoming>)
      requires Valid() && Legal(e, scope) && Scoped(Current(), scope, Defs(e)) && next < |blocks|
      modifies this
      ensures Valid() && Current() == FinishBranch(Lower(e, old(Current())), merge, next)
      ensures incoming == BranchIncoming(Lower(e, old(Current())))
      decreases e, 3
    {
      var v := CodegenExpr(e, scope);
      incoming := [];
      if v.BasicValue? {
        incoming := [Incoming(v.operand, insertBlock)];
        Build(Branch(merge));
      }
      PositionAt(next);
    }

    /** Makes the variable's cell, stores the value and records the pointer. */
    method CodegenVal(x: VariableId, value: Operand)
      requires Valid()
      modifies this
      ensures Valid() && Current() == DefineVariable(old(Current()), x, value)
    {
      var slot := nextSlot;
      nextSlot := nextSlot + 1;
      Build(Alloca(slot));
      Build(Store(slot, value));
      variables := variables[x := slot];
    }

    /** The statements in order; the value is that of the last one, and a while statement leaves it alone. */
    method CodegenBlockStatements(statements: seq<Stmt>, ghost scope: set<VariableId>) returns (last: LlvmValue)
      requires Valid() && LegalAll(statements, scope) && Scoped(Current(), scope, DefsOfAll(statements))
      modifies this
      ensures Valid() && Lowered(Current(), last) == LowerAll(statements, old(Current()), BasicValue(Const(UnitValue)))
      ensures Grows(old(Current()), Current(), DefsOfAll(statements))
      decreases statements, 3
    {
      last := BasicValue(Const(UnitValue));
      LowerAllGrows(statements, Current(), last, scope);
      ghost var target := LowerAll(statements, Current(), last);
      ghost var inScope := scope;
      for k := 0 to |statements|
        invariant Valid() && LegalAll(statements[k..], inScope)
          && Scoped(Current(), inScope, DefsOfAll(statements[k..]))
        invariant LowerAll(statements[k..], Current(), last) == target
        invariant ValueBelow(last, nextRegister)
      {
        assert statements[k..][1..] == statements[k + 1..];
        last := CodegenStatement(statements[k], last, inScope);
        inScope := NewScope(statements[k], inScope);
      }
    }

    method CodegenStatement(st: Stmt, last: LlvmValue, ghost scope: set<VariableId>) returns (v: LlvmValue)
      requires Valid() && LegalStmt(st, scope) && Scoped(Current(), scope, DefsOf(st)) && ValueBelow(last, nextRegister)
      modifies this
      ensures Valid() && Lowered(Current(), v) == LowerStmt(st, old(Current()), last)
      ensures Grows(old(Current()), Current(), DefsOf(st)) && ValueBelow(v, nextRegister)
      decreases st, 3
    {
      LowerStmtGrows(st, Current(), last, scope);
      match st {
        case ExprStmt(e) => v := CodegenExpr(e, scope);
        case ValDef(x, e) =>
          var value := CodegenExprBasicValue(e, scope);
          CodegenVal(x, value);
          v := BasicValue(Const(UnitValue));
        case Assignment(x, e) =>
          var destination := variables[x];
          var value := CodegenExprBasicValue(e, scope);
          Build(Store(destination, value));
          v := BasicValue(Const(UnitValue));
        case WhileLoop(_, _) =>
          CodegenWhile(st, last, scope);
          v := last;
      }
    }

    method CodegenWhile(st: Stmt, ghost last: LlvmValue, ghost scope: set<VariableId>)
      requires st.WhileLoop? && Valid() && LegalStmt(st, scope) && Scoped(Current(), scope, DefsOf(st))
      requires ValueBelow(last, nextRegister)
      modifies this
      ensures Valid() && Lowered(Current(), last) == LowerStmt(st, old(Current()), last)
      decreases st, 2
    {
      ghost var s := Current();
      LoopIsShaped(st, s, last, scope);
      var loopEntry, loopBody, loopEnd := AppendThree();
      Build(Branch(loopEntry));
      PositionAt(loopEntry);
      var cond := CodegenExprBasicValue(st.cond, scope);
      Build(CondBranch(cond, loopBody, loopEnd));
      PositionAt(loopBody);
      assert Current() == LoopInside(st, s);
      var _ := CodegenBlockStatements(st.body, scope);
      Build(Branch(loopEntry));
      PositionAt(loopEnd);
    }

    /** Parameters into cells, then the body, then a return if the current block has no terminator. */
    method CodegenFunction(params: seq<VariableId>, body: seq<Stmt>)
      requires LegalFunction(params, body) && Valid() && Current() == Entry()
      modifies this
      ensures Valid() && Current() == LowerFunction(params, body)
      ensures forall l :: 0 <= l < |blocks| ==> Closed(blocks[l]) && PhiOk(blocks, l)
    {
      for i := 0 to |params|
        invariant Valid() && LowerParams(params, i, Current()) == LowerParams(params, 0, Entry())
      {
        CodegenVal(params[i], Argument(i));
      }
      BodyWell(params, body);
      var value := CodegenBlockStatements(body, ParamSet(params, |params|));
      if !HasTerminator(blocks[insertBlock]) {
        Build(if value.BasicValue? then Ret(value.operand) else Unreachable);
      }
      FunctionIsWellFormed(params, body);
    }
  }
}
