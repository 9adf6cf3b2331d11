/** The emitted graph is well formed: one terminator per block, and each phi lists its block's predecessors. */
module LoweringWellFormed {
  import opened TypedTree
  import opened ControlFlowGraph
  import opened Lowering
  import opened LoweringFrame

  // ---------- blocks ----------

  predicate Open(b: BasicBlock) {
    forall i :: 0 <= i < |b| ==> !IsTerminator(b[i])
  }

  /** Exactly one terminator, at the end. */
  predicate Closed(b: BasicBlock) {
    b != [] && IsTerminator(b[|b| - 1]) && forall i :: 0 <= i < |b| - 1 ==> !IsTerminator(b[i])
  }

  predicate NoPhi(b: BasicBlock) {
    forall i :: 0 <= i < |b| ==> !b[i].Phi?
  }

  function Targets(i: Instruction): set<Label> {
    match i
    case Branch(t) => {t}
    case CondBranch(_, x, y) => {x, y}
    case _ => {}
  }

  predicate JumpsTo(b: BasicBlock, l: Label) {
    b != [] && l in Targets(b[|b| - 1])
  }

  function Preds(blocks: seq<BasicBlock>, l: Label): set<Label> {
    set k | 0 <= k < |blocks| && JumpsTo(blocks[k], l)
  }

  /** One entry for each predecessor and no other. */
  ghost predicate Lists(incoming: seq<Incoming>, preds: set<Label>) {
    && (forall j, k :: 0 <= j < k < |incoming| ==> incoming[j].block != incoming[k].block)
    && (forall j :: 0 <= j < |incoming| ==> incoming[j].block in preds)
    && forall l :: l in preds ==> exists j :: 0 <= j < |incoming| && incoming[j].block == l
  }

  /** A phi stands first in its block and lists exactly the block's predecessors. */
  ghost predicate PhiOk(blocks: seq<BasicBlock>, l: Label)
    requires l < |blocks|
  {
    forall i :: 0 <= i < |blocks[l]| && blocks[l][i].Phi? ==> i == 0 && Lists(blocks[l][i].incoming, Preds(blocks, l))
  }

  /** Jumps go to existing blocks, and phis are in order. */
  ghost predicate Good(s: State) {
    && (forall l :: |s.blocks| <= l ==> Preds(s.blocks, l) == {})
    && forall l :: 0 <= l < |s.blocks| ==> PhiOk(s.blocks, l)
  }

  // ---------- what building from s to t has done ----------

  ghost predicate KeptPreds(s: State, t: State) {
    forall l :: 0 <= l < |s.blocks| ==> Preds(t.blocks, l) == Preds(s.blocks, l)
  }

  /** The blocks worked on are s's current one and those added since; all but those in `unfinished` are closed. */
  ghost predicate Finished(s: State, t: State, unfinished: set<Label>) {
    forall k :: (k == s.insertBlock || |s.blocks| <= k) && k < |t.blocks| && k !in unfinished ==> Closed(t.blocks[k])
  }

  ghost predicate NoNewPhi(s: State, t: State)
    requires |s.blocks| <= |t.blocks|
  {
    forall i :: |s.blocks[s.insertBlock]| <= i < |t.blocks[s.insertBlock]| ==> !t.blocks[s.insertBlock][i].Phi?
  }

  ghost predicate Well(s: State, t: State, unfinished: set<Label>) {
    && Good(t) && |s.blocks| <= |t.blocks| && KeptPreds(s, t) && Finished(s, t, unfinished) && NoNewPhi(s, t)
  }

  // ---------- steps ----------

  lemma EmitPreds(s: State, i: Instruction, l: Label)
    requires Open(s.blocks[s.insertBlock])
    ensures Preds(Emit(s, i).blocks, l) == Preds(s.blocks, l) + if l in Targets(i) then {s.insertBlock} else {}
  {
    var t := Emit(s, i);
    forall k | 0 <= k < |t.blocks|
      ensures JumpsTo(t.blocks[k], l) <==> JumpsTo(s.blocks[k], l) || (k == s.insertBlock && l in Targets(i))
    {
      if k == s.insertBlock { assert t.blocks[k][|t.blocks[k]| - 1] == i; }
    }
  }

  lemma AppendPreds(s: State, l: Label)
    ensures Preds(AppendBlocks(s).blocks, l) == Preds(s.blocks, l)
  {
  }

  lemma WellStart(s: State)
    requires Good(s)
    ensures Well(s, s, {s.insertBlock})
  {
  }

  lemma WellAppend(s: State, x: State, unfinished: set<Label>)
    requires Well(s, x, unfinished)
    ensures Well(s, AppendBlocks(x), unfinished + {|x.blocks|, |x.blocks| + 1, |x.blocks| + 2})
    ensures forall l :: Preds(AppendBlocks(x).blocks, l) == Preds(x.blocks, l)
  {
    forall l ensures Preds(AppendBlocks(x).blocks, l) == Preds(x.blocks, l) { AppendPreds(x, l); }
    var t := AppendBlocks(x);
    forall l | 0 <= l < |t.blocks| ensures PhiOk(t.blocks, l) {
      if l < |x.blocks| { assert PhiOk(x.blocks, l) && t.blocks[l] == x.blocks[l]; }
    }
  }

  /** Another stretch of building, from x to y. */
  lemma WellTrans(s: State, x: State, y: State, u1: set<Label>, u2: set<Label>)
    requires Well(s, x, u1) && Well(x, y, u2) && Keeps(x, y) && Keeps(s, x) && Follows(s, x)
    ensures Well(s, y, u1 - {x.insertBlock} + u2)
  {
    FinishedTrans(s, x, y, u1, u2);
    NoNewPhiTrans(s, x, y);
  }

  lemma FinishedTrans(s: State, x: State, y: State, u1: set<Label>, u2: set<Label>)
    requires Finished(s, x, u1) && Finished(x, y, u2) && Keeps(x, y) && Keeps(s, x)
    ensures Finished(s, y, u1 - {x.insertBlock} + u2)
  {
    forall k | (k == s.insertBlock || |s.blocks| <= k) && k < |y.blocks| && k !in u1 - {x.insertBlock} + u2
      ensures Closed(y.blocks[k])
    {
      if k < |x.blocks| && k != x.insertBlock { assert KeepsBlock(x, y, k); }
    }
  }

  lemma NoNewPhiTrans(s: State, x: State, y: State)
    requires Keeps(s, x) && Keeps(x, y) && NoNewPhi(s, x) && NoNewPhi(x, y)
    ensures NoNewPhi(s, y)
  {
    var k := s.insertBlock;
    assert KeepsBlock(s, x, k) && KeepsBlock(x, y, k);
    forall i | |s.blocks[k]| <= i < |y.blocks[k]| ensures !y.blocks[k][i].Phi? {
      if i < |x.blocks[k]| { assert y.blocks[k][i] == x.blocks[k][i]; }
    }
  }

  /** x is worked on in a block of its own or in s's current one, which is still open. */
  ghost predicate Working(s: State, x: State, unfinished: set<Label>) {
    && Well(s, x, unfinished) && Open(x.blocks[x.insertBlock])
    && (x.insertBlock == s.insertBlock || |s.blocks| <= x.insertBlock)
  }

  /** No label of bs gets a new predecessor from i. */
  lemma EmitGood(x: State, i: Instruction)
    requires Good(x) && Open(x.blocks[x.insertBlock]) && !i.Phi?
    requires forall l :: l in Targets(i) ==> l < |x.blocks| && NoPhi(x.blocks[l]) && l != x.insertBlock
    ensures Good(Emit(x, i))
  {
    var t := Emit(x, i);
    forall l ensures Preds(t.blocks, l) == Preds(x.blocks, l) + if l in Targets(i) then {x.insertBlock} else {} {
      EmitPreds(x, i, l);
    }
    forall l | 0 <= l < |t.blocks| ensures PhiOk(t.blocks, l) {
      assert PhiOk(x.blocks, l);
      if l == x.insertBlock {
        assert forall k :: 0 <= k < |x.blocks[l]| ==> t.blocks[l][k] == x.blocks[l][k];
      } else {
        assert t.blocks[l] == x.blocks[l];
      }
    }
  }

  lemma EmitKeepsWell(s: State, x: State, i: Instruction, unfinished: set<Label>)
    requires Working(s, x, unfinished) && Keeps(s, x) && !i.Phi? && Good(Emit(x, i))
    requires forall l :: l in Targets(i) ==> |s.blocks| <= l
    ensures KeptPreds(s, Emit(x, i)) && NoNewPhi(s, Emit(x, i))
  {
    forall l | 0 <= l < |s.blocks| ensures Preds(Emit(x, i).blocks, l) == Preds(s.blocks, l) { EmitPreds(x, i, l); }
    assert KeepsBlock(s, x, s.insertBlock);
  }

  /** An ordinary instruction. */
  lemma WellEmit(s: State, x: State, i: Instruction, unfinished: set<Label>)
    requires Working(s, x, unfinished) && Keeps(s, x) && x.insertBlock in unfinished
    requires !i.Phi? && !IsTerminator(i)
    ensures Working(s, Emit(x, i), unfinished)
  {
    EmitGood(x, i);
    EmitKeepsWell(s, x, i, unfinished);
    var t := Emit(x, i);
    forall k | 0 <= k < |t.blocks| && k !in unfinished ensures t.blocks[k] == x.blocks[k] {}
  }

  /** The end of a block: its jumps go to blocks added since s that have no phi yet. */
  lemma WellClose(s: State, x: State, i: Instruction, next: Label, unfinished: set<Label>)
    requires Working(s, x, unfinished) && Keeps(s, x) && IsTerminator(i) && next < |x.blocks|
    requires forall l :: l in Targets(i) ==> |s.blocks| <= l < |x.blocks| && NoPhi(x.blocks[l]) && l != x.insertBlock
    ensures Well(s, PositionAtEnd(Emit(x, i), next), unfinished - {x.insertBlock})
  {
    EmitGood(x, i);
    EmitKeepsWell(s, x, i, unfinished);
    var t := Emit(x, i);
    var b := t.blocks[x.insertBlock];
    assert b[|b| - 1] == i && forall k :: 0 <= k < |b| - 1 ==> b[k] == x.blocks[x.insertBlock][k];
    assert Closed(b);
    forall k | 0 <= k < |t.blocks| && k != x.insertBlock ensures t.blocks[k] == x.blocks[k] {}
  }

  /** The phi of an empty merge block. */
  lemma WellPhi(s: State, x: State, incoming: seq<Incoming>, unfinished: set<Label>)
    requires Well(s, x, unfinished) && Keeps(s, x) && |s.blocks| <= x.insertBlock && x.insertBlock in unfinished
    requires x.blocks[x.insertBlock] == [] && Lists(incoming, Preds(x.blocks, x.insertBlock))
    ensures Working(s, Define(x, Phi(x.nextRegister, incoming)).state, unfinished)
  {
    var i := Phi(x.nextRegister, incoming);
    var t := Define(x, i).state;
    forall l ensures Preds(t.blocks, l) == Preds(x.blocks, l) {
      EmitPreds(x, i, l);
      assert t.blocks == Emit(x, i).blocks;
    }
    forall l | 0 <= l < |t.blocks| ensures PhiOk(t.blocks, l) {
      assert PhiOk(x.blocks, l);
      if l != x.insertBlock { assert t.blocks[l] == x.blocks[l]; }
    }
    assert KeepsBlock(s, x, s.insertBlock);
  }

  // ---------- expressions ----------

  ghost predicate Ended(s: State, r: Lowered) {
    if r.value.Never? then Well(s, r.state, {}) else Working(s, r.state, {r.state.insertBlock})
  }

  /** Code generation sees a divergent expression exactly where the type checker does. */
  lemma {:induction false} NeverIsDivergent(e: Expr, s: State, scope: set<VariableId>)
    requires Legal(e, scope)
    ensures Lower(e, s).value.Never? <==> Diverges(e)
    decreases e
  {
    match e {
      case If(c, t, f) =>
        NeverIsDivergent(t, IfThen(e, s), scope);
        NeverIsDivergent(f, IfElse(e, s), scope);
      case Block(ss) => NeverIsDivergentAll(ss, s, BasicValue(Const(UnitValue)), scope);
      case _ =>
    }
  }

  lemma {:induction false} NeverIsDivergentAll(ss: seq<Stmt>, s: State, last: LlvmValue, scope: set<VariableId>)
    requires LegalAll(ss, scope) && last.BasicValue?
    ensures LowerAll(ss, s, last).value.Never? <==> StatementsDiverge(ss)
    decreases ss
  {
    if ss != [] {
      var a := LowerStmt(ss[0], s, last);
      NeverIsDivergentStmt(ss[0], s, last, scope);
      if |ss| == 1 {
        assert LowerAll(ss[1..], a.state, a.value) == a;
      } else {
        NeverIsDivergentAll(ss[1..], a.state, a.value, NewScope(ss[0], scope));
      }
    }
  }

  lemma {:induction false} NeverIsDivergentStmt(st: Stmt, s: State, last: LlvmValue, scope: set<VariableId>)
    requires LegalStmt(st, scope) && last.BasicValue?
    ensures LowerStmt(st, s, last).value.Never? <==> StmtDiverges(st)
    decreases st
  {
    if st.ExprStmt? { NeverIsDivergent(st.expr, s, scope); }
  }

  lemma {:induction false} LowerWell(e: Expr, s: State, scope: set<VariableId>)
    requires Legal(e, scope) && Scoped(s, scope, Defs(e)) && Good(s) && Open(s.blocks[s.insertBlock])
    ensures Ended(s, Lower(e, s))
    decreases e, 1
  {
    WellStart(s);
    match e {
      case Literal(_) =>
      case Variable(x) => DefineWell(s, s, Load(s.nextRegister, SlotOf(s, x)));
      case BinaryOp(_, _, _) => BinaryWell(e, s, scope);
      case Or(_, _) => BinaryWell(e, s, scope);
      case And(_, _) => AndWell(e, s, scope);
      case If(_, _, _) => IfWell(e, s, scope);
      case Block(ss) => LowerAllWell(ss, s, BasicValue(Const(UnitValue)), scope);
      case Return(v) =>
        LowerGrows(v, s, scope);
        LowerWell(v, s, scope);
        NeverIsDivergent(v, s, scope);
        var a := Lower(v, s);
        WellClose(s, a.state, Ret(ExpectValue(a.value)), a.state.insertBlock, {a.state.insertBlock});
        assert {a.state.insertBlock} - {a.state.insertBlock} == {};
    }
  }

  lemma DefineWell(s: State, x: State, i: Instruction)
    requires Working(s, x, {x.insertBlock}) && Keeps(s, x) && !i.Phi? && !IsTerminator(i)
    ensures Ended(s, Define(x, i))
  {
    WellEmit(s, x, i, {x.insertBlock});
  }

  /** One more tree from the end of x. */
  lemma {:induction false} NextWell(e: Expr, s: State, x: State, scope: set<VariableId>, unfinished: set<Label>)
    requires Legal(e, scope) && Scoped(x, scope, Defs(e)) && !Diverges(e)
    requires Working(s, x, unfinished) && Keeps(s, x) && Follows(s, x)
    ensures var r := Lower(e, x);
      && Ended(x, r) && r.value.BasicValue? && Grows(x, r.state, Defs(e)) && Keeps(s, r.state) && Follows(s, r.state)
      && Working(s, r.state, unfinished - {x.insertBlock} + {r.state.insertBlock})
    decreases e, 2
  {
    var r := Lower(e, x);
    LowerGrows(e, x, scope);
    LowerWell(e, x, scope);
    NeverIsDivergent(e, x, scope);
    KeepsTrans(s, x, r.state);
    WellTrans(s, x, r.state, unfinished, {r.state.insertBlock});
  }

  lemma {:induction false} BinaryWell(e: Expr, s: State, scope: set<VariableId>)
    requires (e.BinaryOp? || e.Or?) && Legal(e, scope) && Scoped(s, scope, Defs(e)) && Good(s)
    requires Open(s.blocks[s.insertBlock])
    ensures Ended(s, Lower(e, s))
    decreases e, 0
  {
    var a := Lower(e.lhs, s);
    var b := Lower(e.rhs, a.state);
    WellStart(s);
    NextWell(e.lhs, s, s, scope, {s.insertBlock});
    assert {s.insertBlock} - {s.insertBlock} + {a.state.insertBlock} == {a.state.insertBlock};
    NextWell(e.rhs, s, a.state, scope, {a.state.insertBlock});
    assert {a.state.insertBlock} - {a.state.insertBlock} + {b.state.insertBlock} == {b.state.insertBlock};
    DefineWell(s, b.state,
      if e.BinaryOp? then Binary(b.state.nextRegister, e.kind, ExpectValue(a.value), ExpectValue(b.value))
                           else OrBits(b.state.nextRegister, ExpectValue(a.value), ExpectValue(b.value)));
  }

  // ---------- the branching constructs ----------

  ghost predicate Stage(s: State, x: State, unfinished: set<Label>) {
    Working(s, x, unfinished) && Keeps(s, x) && Follows(s, x)
  }

  /** Ends the current block and goes on in an empty one; l is a label whose predecessors are of interest. */
  lemma CloseStage(s: State, x: State, i: Instruction, next: Label, unfinished: set<Label>, rest: set<Label>, l: Label)
    requires Stage(s, x, unfinished) && IsTerminator(i) && |s.blocks| <= next < |x.blocks| && x.blocks[next] == []
    requires next != x.insertBlock && rest == unfinished - {x.insertBlock}
    requires forall t :: t in Targets(i) ==> |s.blocks| <= t < |x.blocks| && NoPhi(x.blocks[t]) && t != x.insertBlock
    ensures var y := PositionAtEnd(Emit(x, i), next);
      && Stage(s, y, rest) && y.blocks[next] == []
      && Preds(y.blocks, l) == Preds(x.blocks, l) + if l in Targets(i) then {x.insertBlock} else {}
  {
    WellClose(s, x, i, next, unfinished);
    EmitPreds(x, i, l);
    EmitKeeps(x, i);
    KeepsTrans(s, x, PositionAtEnd(Emit(x, i), next));
  }

  lemma AppendStage(s: State, x: State, l: Label)
    requires Stage(s, x, {x.insertBlock})
    ensures var n := |x.blocks|; Stage(s, AppendBlocks(x), {n, n + 1, n + 2, x.insertBlock})
    ensures Preds(AppendBlocks(x).blocks, l) == Preds(x.blocks, l)
  {
    var n := |x.blocks|;
    WellAppend(s, x, {x.insertBlock});
    assert {x.insertBlock} + {n, n + 1, n + 2} == {n, n + 1, n + 2, x.insertBlock};
    AppendGrows(x);
    KeepsTrans(s, x, AppendBlocks(x));
  }

  /** One more tree; the predecessors of the blocks already there stay the same. */
  lemma {:induction false} NextStage(e: Expr, s: State, x: State, scope: set<VariableId>, unfinished: set<Label>,
                                     rest: set<Label>, l: Label)
    requires Legal(e, scope) && Scoped(x, scope, Defs(e)) && !Diverges(e)
    requires Stage(s, x, unfinished) && l < |x.blocks|
    requires rest == unfinished - {x.insertBlock} + {Lower(e, x).state.insertBlock}
    ensures Stage(s, Lower(e, x).state, rest) && Lower(e, x).value.BasicValue?
    ensures Preds(Lower(e, x).state.blocks, l) == Preds(x.blocks, l)
    decreases e, 3
  {
    NextWell(e, s, x, scope, unfinished);
  }

  lemma StartStage(s: State)
    requires Good(s) && Open(s.blocks[s.insertBlock])
    ensures Stage(s, s, {s.insertBlock})
  {
    WellStart(s);
  }

  lemma {:induction false} AndWell(e: Expr, s: State, scope: set<VariableId>)
    requires e.And? && Legal(e, scope) && Scoped(s, scope, Defs(e)) && Good(s) && Open(s.blocks[s.insertBlock])
    ensures Ended(s, Lower(e, s))
    decreases e, 0, 1
  {
    var a := Lower(e.lhs, s);
    var n := |a.state.blocks|;
    var fork := Fork(AppendBlocks(a.state), ExpectValue(a.value), n);
    var b := Lower(e.rhs, fork);
    AndIsShaped(e, s, scope, a, fork, b);
    AndResult(e, s, a, fork, b);
    AndPartsWell(e, s, scope, a, n, fork, b, Lower(e, s));
  }

  lemma {:induction false} AndPartsWell(e: Expr, s: State, scope: set<VariableId>, a: Lowered, n: Label, fork: State,
                                        b: Lowered, r: Lowered)
    requires e.And? && Legal(e, scope) && Good(s) && Open(s.blocks[s.insertBlock])
    requires a == Lower(e.lhs, s) && n == |a.state.blocks|
    requires fork == Fork(AppendBlocks(a.state), ExpectValue(a.value), n)
    requires b == Lower(e.rhs, fork) && n + 2 < |b.state.blocks|
    requires AndShape(s, a, fork, b) && Scoped(s, scope, Defs(e.lhs)) && Scoped(fork, scope, Defs(e.rhs))
    requires r == Define(AndJoined(b.state, n), Phi(b.state.nextRegister, AndIncoming(b, n)))
    ensures Ended(s, r)
    decreases e, 0, 0
  {
    AndLeftWell(e.lhs, s, scope, a);
    AndRightWell(e.rhs, s, n, fork, scope, b);
    AndJoinWell(s, b, n);
  }

  lemma {:induction false} AndLeftWell(e: Expr, s: State, scope: set<VariableId>, a: Lowered)
    requires Legal(e, scope) && Scoped(s, scope, Defs(e)) && !Diverges(e) && Good(s) && Open(s.blocks[s.insertBlock])
    requires a == Lower(e, s)
    ensures var n := |a.state.blocks|;
      && Stage(s, Fork(AppendBlocks(a.state), ExpectValue(a.value), n), {n, n + 1, n + 2})
      && Preds(Fork(AppendBlocks(a.state), ExpectValue(a.value), n).blocks, n + 2) == {}
    decreases e, 4
  {
    StartStage(s);
    NextStage(e, s, s, scope, {s.insertBlock}, {a.state.insertBlock}, s.insertBlock);
    AndForkWell(s, a.state, ExpectValue(a.value));
  }

  lemma {:induction false} AndRightWell(e: Expr, s: State, n: Label, fork: State, scope: set<VariableId>, b: Lowered)
    requires Legal(e, scope) && Scoped(fork, scope, Defs(e)) && !Diverges(e) && b == Lower(e, fork)
    requires Stage(s, fork, {n, n + 1, n + 2}) && n == fork.insertBlock && n + 2 < |fork.blocks|
    requires Preds(fork.blocks, n + 2) == {}
    ensures Stage(s, b.state, {n + 1, n + 2, b.state.insertBlock}) && b.value.BasicValue?
    ensures Preds(b.state.blocks, n + 2) == {}
    decreases e, 4
  {
    NextStage(e, s, fork, scope, {n, n + 1, n + 2}, {n + 1, n + 2, b.state.insertBlock}, n + 2);
  }

  /** Three new blocks, and a conditional branch to the first two. */
  lemma AndForkWell(s: State, x: State, cond: Operand)
    requires Stage(s, x, {x.insertBlock})
    ensures var n := |x.blocks|;
      && Stage(s, Fork(AppendBlocks(x), cond, n), {n, n + 1, n + 2})
      && Preds(Fork(AppendBlocks(x), cond, n).blocks, n + 2) == {}
  {
    var n := |x.blocks|;
    AppendStage(s, x, n + 2);
    CloseStage(s, AppendBlocks(x), CondBranch(cond, n, n + 1), n, {n, n + 1, n + 2, x.insertBlock}, {n, n + 1, n + 2},
      n + 2);
  }

  lemma AndJoinWell(s: State, b: Lowered, n: Label)
    requires n + 2 < |b.state.blocks| && |s.blocks| <= n && b.value.BasicValue?
    requires Stage(s, b.state, {n + 1, n + 2, b.state.insertBlock})
    requires b.state.blocks[n + 1] == [] && b.state.blocks[n + 2] == [] && Preds(b.state.blocks, n + 2) == {}
    requires b.state.insertBlock != n + 1 && b.state.insertBlock != n + 2
    ensures Ended(s, Define(AndJoined(b.state, n), Phi(b.state.nextRegister, AndIncoming(b, n))))
  {
    var joined := AndJoined(b.state, n);
    AndJoinStages(s, b.state, n, joined);
    AndListed(b, n);
    WellPhi(s, joined, AndIncoming(b, n), {n + 2});
  }

  /** Both the right side and the short circuit branch to the last block. */
  lemma AndJoinStages(s: State, b: State, n: Label, joined: State)
    requires n + 2 < |b.blocks| && |s.blocks| <= n && joined == AndJoined(b, n)
    requires Stage(s, b, {n + 1, n + 2, b.insertBlock})
    requires b.blocks[n + 1] == [] && b.blocks[n + 2] == [] && Preds(b.blocks, n + 2) == {}
    requires b.insertBlock != n + 1 && b.insertBlock != n + 2
    ensures Stage(s, joined, {n + 2}) && joined.insertBlock == n + 2 && joined.blocks[n + 2] == []
    ensures Preds(joined.blocks, n + 2) == {b.insertBlock, n + 1}
  {
    var l, mid := b.insertBlock, BranchAndMove(b, n + 2, n + 1);
    CloseStage(s, b, Branch(n + 2), n + 1, {n + 1, n + 2, l}, {n + 1, n + 2}, n + 2);
    CloseStage(s, mid, Branch(n + 2), n + 2, {n + 1, n + 2}, {n + 2}, n + 2);
    assert {} + {l} + {n + 1} == {l, n + 1};
  }

  lemma AndListed(b: Lowered, n: Label)
    requires b.state.insertBlock != n + 1
    ensures Lists(AndIncoming(b, n), {b.state.insertBlock, n + 1})
  {
    assert AndIncoming(b, n)[0].block == b.state.insertBlock && AndIncoming(b, n)[1].block == n + 1;
  }

  /** A branch of an `if`, lowered in x, joins the merge block unless it diverges. */
  lemma {:induction false} BranchWell(e: Expr, s: State, x: State, scope: set<VariableId>, unfinished: set<Label>,
                                      rest: set<Label>,
                                      merge: Label, next: Label)
    requires Legal(e, scope) && Scoped(x, scope, Defs(e)) && Stage(s, x, unfinished) && |s.blocks| <= x.insertBlock
    requires |s.blocks| <= merge < |x.blocks| && |s.blocks| <= next < |x.blocks|
    requires merge != x.insertBlock && next != x.insertBlock && x.blocks[merge] == [] && x.blocks[next] == []
    requires rest == unfinished - {x.insertBlock}
    ensures var r := Lower(e, x);
      && Stage(s, FinishBranch(r, merge, next), rest)
      && Preds(FinishBranch(r, merge, next).blocks, merge)
         == Preds(x.blocks, merge) + if r.value.Never? then {} else {r.state.insertBlock}
    decreases e, 3
  {
    var r := Lower(e, x);
    LowerGrows(e, x, scope);
    LowerWell(e, x, scope);
    Pending(x, r.state, merge);
    Pending(x, r.state, next);
    FinishStage(s, x, r, unfinished, rest, merge, next);
  }

  lemma FinishStage(s: State, x: State, r: Lowered, unfinished: set<Label>, rest: set<Label>, merge: Label, next: Label)
    requires Stage(s, x, unfinished) && |s.blocks| <= x.insertBlock && Ended(x, r) && Keeps(x, r.state)
    requires Follows(x, r.state)
    requires |s.blocks| <= merge < |x.blocks| && |s.blocks| <= next < |x.blocks|
    requires NoPhi(r.state.blocks[merge]) && r.state.blocks[next] == []
    requires merge != r.state.insertBlock && next != r.state.insertBlock && rest == unfinished - {x.insertBlock}
    ensures Stage(s, FinishBranch(r, merge, next), rest)
    ensures Preds(FinishBranch(r, merge, next).blocks, merge)
      == Preds(x.blocks, merge) + if r.value.Never? then {} else {r.state.insertBlock}
  {
    KeepsTrans(s, x, r.state);
    if r.value.Never? {
      WellTrans(s, x, r.state, unfinished, {});
      assert rest + {} == rest;
      FinishKeeps(r, merge, next);
      KeepsTrans(s, r.state, FinishBranch(r, merge, next));
    } else {
      var l := r.state.insertBlock;
      WellTrans(s, x, r.state, unfinished, {l});
      CloseStage(s, r.state, Branch(merge), next, rest + {l}, rest + {l} - {l}, merge);
      FinishedWeaken(s, FinishBranch(r, merge, next), rest + {l} - {l}, rest);
    }
  }

  lemma FinishedWeaken(s: State, t: State, u: set<Label>, larger: set<Label>)
    requires Well(s, t, u) && u <= larger
    ensures Well(s, t, larger)
  {
  }

  lemma {:induction false} IfWell(e: Expr, s: State, scope: set<VariableId>)
    requires e.If? && Legal(e, scope) && Scoped(s, scope, Defs(e)) && Good(s) && Open(s.blocks[s.insertBlock])
    ensures Ended(s, Lower(e, s))
    decreases e, 0, 2
  {
    var b, d := IfConsequent(e, s), IfAlternate(e, s);
    IfIsShaped(e, s, scope);
    IfScoped(e, s, scope);
    IfThenWell(e, s, scope, IfCondition(e, s), IfThen(e, s));
    IfMergeWell(e, s, scope, IfCondition(e, s), b, d, IfThen(e, s), IfElse(e, s), IfMerge(e, s));
    NeverIsDivergent(e.consequent, IfThen(e, s), scope);
    NeverIsDivergent(e.alternate, IfElse(e, s), scope);
    MergeResult(e, s);
    IfJoinWell(s, b, d, IfMerge(e, s), Lower(e, s));
  }

  /** The labels the merge block is reached from. */
  ghost function IfSources(b: Lowered, d: Lowered): set<Label> {
    (if b.value.Never? then {} else {b.state.insertBlock}) + if d.value.Never? then {} else {d.state.insertBlock}
  }

  lemma IfJoinWell(s: State, b: Lowered, d: Lowered, merge: State, r: Lowered)
    requires merge.insertBlock == |s.blocks| + 2 && merge.blocks[merge.insertBlock] == []
    requires Stage(s, merge, {|s.blocks| + 2}) && Preds(merge.blocks, |s.blocks| + 2) == IfSources(b, d)
    requires b.state.insertBlock != d.state.insertBlock
    requires r == Define(merge, Phi(merge.nextRegister, IfIncoming(b, d)))
    ensures Ended(s, r)
  {
    IfListed(b, d);
    WellPhi(s, merge, IfIncoming(b, d), {|s.blocks| + 2});
  }

  lemma {:induction false} IfMergeWell(e: Expr, s: State, scope: set<VariableId>, a: Lowered, b: Lowered, d: Lowered,
                                       onTrue: State, onFalse: State, merge: State)
    requires e.If? && Legal(e, scope) && IfShape(s, a, b, d, onTrue, onFalse, merge)
    requires Scoped(onTrue, scope, Defs(e.consequent)) && Scoped(onFalse, scope, Defs(e.alternate))
    requires b == Lower(e.consequent, onTrue) && onFalse == FinishBranch(b, |s.blocks| + 2, |s.blocks| + 1)
    requires d == Lower(e.alternate, onFalse) && merge == FinishBranch(d, |s.blocks| + 2, |s.blocks| + 2)
    requires Stage(s, onTrue, {|s.blocks|, |s.blocks| + 1, |s.blocks| + 2})
    requires Preds(onTrue.blocks, |s.blocks| + 2) == {}
    ensures Stage(s, merge, {|s.blocks| + 2}) && Preds(merge.blocks, |s.blocks| + 2) == IfSources(b, d)
    decreases e, 0, 1
  {
    var n := |s.blocks|;
    BranchWell(e.consequent, s, onTrue, scope, {n, n + 1, n + 2}, {n + 1, n + 2}, n + 2, n + 1);
    BranchWell(e.alternate, s, onFalse, scope, {n + 1, n + 2}, {n + 2}, n + 2, n + 2);
  }

  lemma {:induction false} IfThenWell(e: Expr, s: State, scope: set<VariableId>, a: Lowered, onTrue: State)
    requires e.If? && Legal(e, scope) && Scoped(s, scope, Defs(e)) && Good(s) && Open(s.blocks[s.insertBlock])
    requires a == IfCondition(e, s) && onTrue == Fork(a.state, ExpectValue(a.value), |s.blocks|)
    requires Scoped(AppendBlocks(s), scope, Defs(e.condition))
    ensures var n := |s.blocks|; Stage(s, onTrue, {n, n + 1, n + 2}) && Preds(onTrue.blocks, n + 2) == {}
    decreases e, 0, 0
  {
    var n, s0 := |s.blocks|, AppendBlocks(s);
    StartStage(s);
    AppendStage(s, s, n + 2);
    NextStage(e.condition, s, s0, scope, {n, n + 1, n + 2, s.insertBlock}, {n, n + 1, n + 2, a.state.insertBlock},
      n + 2);
    IfPending(e, s, scope);
    IfForkWell(s, a.state, ExpectValue(a.value));
  }

  lemma IfForkWell(s: State, x: State, cond: Operand)
    requires |s.blocks| + 2 < |x.blocks| && Stage(s, x, {|s.blocks|, |s.blocks| + 1, |s.blocks| + 2, x.insertBlock})
    requires forall k :: |s.blocks| <= k <= |s.blocks| + 2 ==> x.blocks[k] == [] && x.insertBlock != k
    requires Preds(x.blocks, |s.blocks| + 2) == {}
    ensures var n := |s.blocks|;
      Stage(s, Fork(x, cond, n), {n, n + 1, n + 2}) && Preds(Fork(x, cond, n).blocks, n + 2) == {}
  {
    var n := |s.blocks|;
    CloseStage(s, x, CondBranch(cond, n, n + 1), n, {n, n + 1, n + 2, x.insertBlock}, {n, n + 1, n + 2}, n + 2);
  }

  lemma IfListed(b: Lowered, d: Lowered)
    requires b.value.Never? || d.value.Never? || b.state.insertBlock != d.state.insertBlock
    ensures Lists(IfIncoming(b, d), IfSources(b, d))
  {
    if b.value.BasicValue? { assert IfIncoming(b, d)[0].block == b.state.insertBlock; }
    if d.value.BasicValue? { assert IfIncoming(b, d)[|IfIncoming(b, d)| - 1].block == d.state.insertBlock; }
  }

  // ---------- statements ----------

  lemma {:induction false} LowerAllWell(ss: seq<Stmt>, s: State, last: LlvmValue, scope: set<VariableId>)
    requires LegalAll(ss, scope) && Scoped(s, scope, DefsOfAll(ss)) && Good(s) && Open(s.blocks[s.insertBlock])
    requires last.BasicValue? && ValueBelow(last, s.nextRegister)
    ensures Ended(s, LowerAll(ss, s, last))
    decreases ss, 4
  {
    StartStage(s);
    if ss != [] {
      var a := LowerStmt(ss[0], s, last);
      LowerStmtGrows(ss[0], s, last, scope);
      LowerStmtWell(ss[0], s, last, scope);
      NeverIsDivergentStmt(ss[0], s, last, scope);
      if a.value.Never? {
        assert LowerAll(ss[1..], a.state, a.value) == a;
      } else {
        LowerAllWell(ss[1..], a.state, a.value, NewScope(ss[0], scope));
        LowerAllGrows(ss[1..], a.state, a.value, NewScope(ss[0], scope));
        EndedTrans(s, a, LowerAll(ss, s, last));
      }
    }
  }

  lemma EndedTrans(s: State, a: Lowered, r: Lowered)
    requires Ended(s, a) && a.value.BasicValue? && Keeps(s, a.state) && Follows(s, a.state)
    requires Ended(a.state, r) && Keeps(a.state, r.state) && Follows(a.state, r.state)
    ensures Ended(s, r)
  {
    var u := if r.value.Never? then {} else {r.state.insertBlock};
    WellTrans(s, a.state, r.state, {a.state.insertBlock}, u);
    assert {a.state.insertBlock} - {a.state.insertBlock} + u == u;
  }

  lemma {:induction false} LowerStmtWell(st: Stmt, s: State, last: LlvmValue, scope: set<VariableId>)
    requires LegalStmt(st, scope) && Scoped(s, scope, DefsOf(st)) && Good(s) && Open(s.blocks[s.insertBlock])
    requires last.BasicValue? && ValueBelow(last, s.nextRegister)
    ensures Ended(s, LowerStmt(st, s, last))
    decreases st, 4
  {
    StartStage(s);
    match st {
      case ExprStmt(e) => LowerWell(e, s, scope);
      case ValDef(x, e) =>
        var a := Lower(e, s);
        NextStage(e, s, s, scope, {s.insertBlock}, {a.state.insertBlock}, s.insertBlock);
        DefineVariableWell(s, a.state, x, ExpectValue(a.value));
      case Assignment(x, e) =>
        var a := Lower(e, s);
        NextStage(e, s, s, scope, {s.insertBlock}, {a.state.insertBlock}, s.insertBlock);
        WellEmit(s, a.state, Store(SlotOf(s, x), ExpectValue(a.value)), {a.state.insertBlock});
      case WhileLoop(_, _) => LoopWell(st, s, last, scope);
    }
  }

  lemma DefineVariableWell(s: State, x: State, id: VariableId, op: Operand)
    requires Stage(s, x, {x.insertBlock})
    ensures Working(s, DefineVariable(x, id, op), {x.insertBlock})
  {
    var y := Emit(x, Alloca(x.nextSlot));
    WellEmit(s, x, Alloca(x.nextSlot), {x.insertBlock});
    EmitKeeps(x, Alloca(x.nextSlot));
    KeepsTrans(s, x, y);
    WellEmit(s, y, Store(x.nextSlot, op), {x.insertBlock});
    var z := Emit(y, Store(x.nextSlot, op));
    assert DefineVariable(x, id, op).blocks == z.blocks;
    assert Good(DefineVariable(x, id, op)) && KeptPreds(s, DefineVariable(x, id, op));
  }

  lemma {:induction false} LoopWell(st: Stmt, s: State, last: LlvmValue, scope: set<VariableId>)
    requires st.WhileLoop? && LegalStmt(st, scope) && Scoped(s, scope, DefsOf(st)) && Good(s)
    requires Open(s.blocks[s.insertBlock])
    requires last.BasicValue? && ValueBelow(last, s.nextRegister)
    ensures Ended(s, LowerStmt(st, s, last))
    decreases st, 3
  {
    var n, a, b := |s.blocks|, LoopCondition(st, s), LoopBody(st, s);
    var inside, unit := LoopInside(st, s), BasicValue(Const(UnitValue));
    LoopIsShaped(st, s, last, scope);
    LoopInsideWell(st, s, last, scope);
    LowerAllWell(st.body, inside, unit, scope);
    LowerAllGrows(st.body, inside, unit, scope);
    NeverIsDivergentAll(st.body, inside, unit, scope);
    Pending(inside, b.state, n + 2);
    assert KeepsBlock(inside, b.state, n);
    FinishStage(s, inside, b, {n + 1, n + 2}, {n + 2}, n, n + 2);
  }

  lemma {:induction false} LoopInsideWell(st: Stmt, s: State, last: LlvmValue, scope: set<VariableId>)
    requires st.WhileLoop? && LegalStmt(st, scope) && Scoped(s, scope, DefsOf(st)) && Good(s)
    requires Open(s.blocks[s.insertBlock])
    requires last.BasicValue? && ValueBelow(last, s.nextRegister)
    ensures var n := |s.blocks|;
      && Stage(s, LoopInside(st, s), {n + 1, n + 2}) && NoPhi(LoopInside(st, s).blocks[n])
      && LoopInside(st, s).blocks[n + 2] == []
    decreases st, 2
  {
    var n, a := |s.blocks|, LoopCondition(st, s);
    LoopEntryStage(s);
    LoopIsShaped(st, s, last, scope);
    NextStage(st.cond, s, LoopEntry(s), scope, {n, n + 1, n + 2}, {n + 1, n + 2, a.state.insertBlock}, n);
    EntryHasNoPhi(st, s, last, scope);
    LoopPending(st, s, last, scope);
    LoopForkWell(s, a.state, ExpectValue(a.value));
  }

  lemma LoopForkWell(s: State, x: State, cond: Operand)
    requires |s.blocks| + 2 < |x.blocks| && Stage(s, x, {|s.blocks| + 1, |s.blocks| + 2, x.insertBlock})
    requires forall k :: |s.blocks| < k <= |s.blocks| + 2 ==> x.blocks[k] == [] && x.insertBlock != k
    requires NoPhi(x.blocks[|s.blocks|])
    ensures var n, y := |s.blocks|, Fork(x, cond, |s.blocks| + 1);
      Stage(s, y, {n + 1, n + 2}) && NoPhi(y.blocks[n]) && y.blocks[n + 2] == []
  {
    var n := |s.blocks|;
    CloseStage(s, x, CondBranch(cond, n + 1, n + 2), n + 1, {n + 1, n + 2, x.insertBlock}, {n + 1, n + 2}, n);
  }

  lemma LoopEntryStage(s: State)
    requires Good(s) && Open(s.blocks[s.insertBlock])
    ensures var n := |s.blocks|; Stage(s, LoopEntry(s), {n, n + 1, n + 2})
  {
    var n := |s.blocks|;
    StartStage(s);
    AppendStage(s, s, n);
    CloseStage(s, AppendBlocks(s), Branch(n), n, {n, n + 1, n + 2, s.insertBlock}, {n, n + 1, n + 2}, n);
  }

  /** The test block gets its back edge last, but has no phi: variables live in memory. */
  lemma {:induction false} EntryHasNoPhi(st: Stmt, s: State, last: LlvmValue, scope: set<VariableId>)
    requires st.WhileLoop? && LegalStmt(st, scope) && Scoped(s, scope, DefsOf(st)) && Good(s)
    requires Open(s.blocks[s.insertBlock])
    requires ValueBelow(last, s.nextRegister)
    ensures NoPhi(LoopCondition(st, s).state.blocks[|s.blocks|])
    decreases st, 1
  {
    LoopEntryStage(s);
    LoopIsShaped(st, s, last, scope);
    LowerWell(st.cond, LoopEntry(s), scope);
  }
}
