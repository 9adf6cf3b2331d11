/** The value of a block that ends in a while statement: the type says unit, the emitted code carries on
    the value before. */
module LoopValues {
  import opened Wrappers
  import opened TypedTree
  import opened TreeTyping

  predicate AllLoops(ss: seq<Stmt>) {
    forall k :: 0 <= k < |ss| ==> ss[k].WhileLoop?
  }

  predicate EndsInLoop(ss: seq<Stmt>) {
    ss != [] && ss[|ss| - 1].WhileLoop?
  }

  /** A block's statements up to the last one that is no loop. */
  function WithoutLoops(ss: seq<Stmt>): (r: seq<Stmt>)
    ensures r <= ss && !EndsInLoop(r) && AllLoops(ss[|r|..])
  {
    if EndsInLoop(ss) then WithoutLoops(ss[..|ss| - 1]) else ss
  }

  /** A block does not end in a loop, or its last statement that is no loop has type unit or is absent. */
  predicate LoopsAfterUnit(ss: seq<Stmt>, env: TypeEnv, last: Ty) {
    EndsInLoop(ss) ==> BlockType(WithoutLoops(ss), env, last) == Some(UnitTy)
  }

  /** In every block whose value may be used, loops at the end come after unit. */
  predicate Settled(e: Expr, env: TypeEnv)
    requires TypeOf(e, env).Some?
    decreases e
  {
    match e
    case BinaryOp(_, l, r) => Settled(l, env) && Settled(r, env)
    case And(l, r) => Settled(l, env) && Settled(r, env)
    case Or(l, r) => Settled(l, env) && Settled(r, env)
    case If(c, t, f) => Settled(c, env) && Settled(t, env) && Settled(f, env)
    case Block(ss) => SettledParts(ss, env, UnitTy) && LoopsAfterUnit(ss, env, UnitTy)
    case Return(v) => Settled(v, env)
    case _ => true
  }

  /** The value of a loop's body is dropped. */
  predicate SettledStmt(s: Stmt, env: TypeEnv)
    requires StmtType(s, env).Some?
    decreases s
  {
    match s
    case ExprStmt(e) => Settled(e, env)
    case ValDef(_, e) => Settled(e, env)
    case Assignment(_, e) => Settled(e, env)
    case WhileLoop(c, body) => Settled(c, env) && SettledParts(body, env, UnitTy)
  }

  predicate SettledParts(ss: seq<Stmt>, env: TypeEnv, last: Ty)
    requires BlockType(ss, env, last).Some?
    decreases ss
  {
    ss == [] ||
    (SettledStmt(ss[0], env) && SettledParts(ss[1..], EnvAfter(ss[0], env), StmtType(ss[0], env).value))
  }

  // ---------- blocks in two pieces ----------

  lemma {:induction false} EvalAllSplit(alu: Alu, loops: LoopValue, a: seq<Stmt>, b: seq<Stmt>, last: Value,
                                        mem: Memory, fuel: nat)
    ensures var first := EvalAll(alu, loops, a, last, mem, fuel);
      EvalAll(alu, loops, a + b, last, mem, fuel) ==
        if first.Done? then EvalAll(alu, loops, b, first.value, first.mem, fuel) else first
    decreases a
  {
    if a == [] {
      assert a + b == b;
    } else {
      assert (a + b)[0] == a[0] && (a + b)[1..] == a[1..] + b;
      var first := EvalStmt(alu, loops, a[0], last, mem, fuel);
      if first.Done? { EvalAllSplit(alu, loops, a[1..], b, first.value, first.mem, fuel); }
    }
  }

  lemma {:induction false} BlockTypeSplit(a: seq<Stmt>, b: seq<Stmt>, env: TypeEnv, last: Ty)
    requires BlockType(a + b, env, last).Some?
    ensures BlockType(a, env, last).Some?
    ensures SettledParts(a + b, env, last) ==> SettledParts(a, env, last)
    decreases a
  {
    if a == [] {
      assert a + b == b;
    } else {
      assert (a + b)[0] == a[0] && (a + b)[1..] == a[1..] + b;
      BlockTypeSplit(a[1..], b, EnvAfter(a[0], env), StmtType(a[0], env).value);
    }
  }

  // ---------- loops ----------

  /** What a finished loop leaves as the value so far. */
  lemma {:induction false} LoopLeaves(alu: Alu, loops: LoopValue, s: Stmt, last: Value, mem: Memory, fuel: nat)
    requires s.WhileLoop? && EvalStmt(alu, loops, s, last, mem, fuel).Done?
    ensures EvalStmt(alu, loops, s, last, mem, fuel).value == if loops.Fresh? then UnitValue else last
    decreases fuel
  {
    var first := Eval(alu, loops, s.cond, mem, fuel);
    if first.value.b && fuel > 0 {
      var once := EvalAll(alu, loops, s.body, UnitValue, first.mem, fuel);
      LoopLeaves(alu, loops, s, last, once.mem, fuel - 1);
    }
  }

  lemma {:induction false} LoopsLeave(alu: Alu, loops: LoopValue, ss: seq<Stmt>, last: Value, mem: Memory, fuel: nat)
    requires AllLoops(ss) && EvalAll(alu, loops, ss, last, mem, fuel).Done?
    ensures EvalAll(alu, loops, ss, last, mem, fuel).value == if loops.Fresh? && ss != [] then UnitValue else last
    decreases ss
  {
    if ss != [] {
      LoopLeaves(alu, loops, ss[0], last, mem, fuel);
      var first := EvalStmt(alu, loops, ss[0], last, mem, fuel);
      LoopsLeave(alu, loops, ss[1..], first.value, first.mem, fuel);
    }
  }

  // ---------- settled trees mean the same either way ----------

  lemma {:induction false} SettledSame(alu: Alu, e: Expr, env: TypeEnv, mem: Memory, fuel: nat)
    requires TypedAlu(alu) && MemoryOk(env, mem) && TypeOf(e, env).Some? && Settled(e, env)
    ensures Eval(alu, Fresh, e, mem, fuel) == Eval(alu, Carried, e, mem, fuel)
    decreases fuel, e
  {
    match e {
      case BinaryOp(_, l, r) => OperandsSame(alu, e, env, mem, fuel);
      case And(l, r) => OperandsSame(alu, e, env, mem, fuel);
      case Or(l, r) => OperandsSame(alu, e, env, mem, fuel);
      case If(c, t, f) =>
        SettledSame(alu, c, env, mem, fuel);
        TypesRespected(alu, c, env, mem, fuel);
        var first := Eval(alu, Fresh, c, mem, fuel);
        if first.Done? {
          SettledSame(alu, t, env, first.mem, fuel);
          SettledSame(alu, f, env, first.mem, fuel);
        }
      case Block(ss) => BlockAgreesExactlyWhen(alu, ss, env, UnitValue, mem, fuel);
      case Return(v) => SettledSame(alu, v, env, mem, fuel);
      case _ =>
    }
  }

  lemma {:induction false} OperandsSame(alu: Alu, e: Expr, env: TypeEnv, mem: Memory, fuel: nat)
    requires (e.BinaryOp? || e.And? || e.Or?) && TypedAlu(alu) && MemoryOk(env, mem) && TypeOf(e, env).Some?
    requires Settled(e.lhs, env) && Settled(e.rhs, env)
    ensures Eval(alu, Fresh, e.lhs, mem, fuel) == Eval(alu, Carried, e.lhs, mem, fuel)
    ensures var first := Eval(alu, Fresh, e.lhs, mem, fuel);
      first.Done? ==> Eval(alu, Fresh, e.rhs, first.mem, fuel) == Eval(alu, Carried, e.rhs, first.mem, fuel)
    decreases fuel, e, 0
  {
    SettledSame(alu, e.lhs, env, mem, fuel);
    OperandsRespected(alu, e, env, mem, fuel);
    var first := Eval(alu, Fresh, e.lhs, mem, fuel);
    if first.Done? { SettledSame(alu, e.rhs, env, first.mem, fuel); }
  }

  /** Equal but perhaps for the value. */
  predicate SameEffect(a: Outcome, b: Outcome) {
    a == b || (a.Done? && b.Done? && a.mem == b.mem)
  }

  lemma {:induction false} SettledStmtSame(alu: Alu, s: Stmt, env: TypeEnv, x: Value, y: Value, mem: Memory, fuel: nat)
    requires TypedAlu(alu) && MemoryOk(env, mem) && StmtType(s, env).Some? && SettledStmt(s, env)
    ensures SameEffect(EvalStmt(alu, Fresh, s, x, mem, fuel), EvalStmt(alu, Carried, s, y, mem, fuel))
    ensures !s.WhileLoop? ==> EvalStmt(alu, Fresh, s, x, mem, fuel) == EvalStmt(alu, Carried, s, y, mem, fuel)
    decreases fuel, s
  {
    match s {
      case ExprStmt(e) => SettledSame(alu, e, env, mem, fuel);
      case ValDef(_, e) => SettledSame(alu, e, env, mem, fuel);
      case Assignment(_, e) => SettledSame(alu, e, env, mem, fuel);
      case WhileLoop(c, body) =>
        SettledSame(alu, c, env, mem, fuel);
        TypesRespected(alu, c, env, mem, fuel);
        var first := Eval(alu, Fresh, c, mem, fuel);
        if first.Done? && first.value.b {
          PartsSame(alu, body, env, UnitValue, UnitValue, first.mem, fuel);
          BlockTypesRespected(alu, body, env, UnitValue, first.mem, fuel);
          var once := EvalAll(alu, Fresh, body, UnitValue, first.mem, fuel);
          if once.Done? && fuel > 0 { SettledStmtSame(alu, s, env, x, y, once.mem, fuel - 1); }
        }
    }
  }

  /** A block of settled statements has the same effect either way, and the same value unless it ends in a loop. */
  lemma {:induction false} PartsSame(alu: Alu, ss: seq<Stmt>, env: TypeEnv, x: Value, y: Value, mem: Memory, fuel: nat)
    requires TypedAlu(alu) && MemoryOk(env, mem)
    requires BlockType(ss, env, TypeOfValue(x)).Some? && SettledParts(ss, env, TypeOfValue(x))
    ensures SameEffect(EvalAll(alu, Fresh, ss, x, mem, fuel), EvalAll(alu, Carried, ss, y, mem, fuel))
    ensures ss != [] && !EndsInLoop(ss) ==>
      EvalAll(alu, Fresh, ss, x, mem, fuel) == EvalAll(alu, Carried, ss, y, mem, fuel)
    decreases fuel, ss, 0
  {
    if ss != [] {
      var a, b := EvalStmt(alu, Fresh, ss[0], x, mem, fuel), EvalStmt(alu, Carried, ss[0], y, mem, fuel);
      SettledStmtSame(alu, ss[0], env, x, y, mem, fuel);
      StmtTypesRespected(alu, ss[0], env, x, mem, fuel);
      if a.Done? { PartsSame(alu, ss[1..], EnvAfter(ss[0], env), a.value, b.value, a.mem, fuel); }
    }
  }

  /** Main result: a well-typed block of settled statements that completes has the same value either way exactly when
      its last statement that is no loop has type unit or is absent; one that does not complete is the same anyway. */
  lemma {:induction false} BlockAgreesExactlyWhen(alu: Alu, ss: seq<Stmt>, env: TypeEnv, x: Value, mem: Memory,
                                                  fuel: nat)
    requires TypedAlu(alu) && MemoryOk(env, mem)
    requires BlockType(ss, env, TypeOfValue(x)).Some? && SettledParts(ss, env, TypeOfValue(x))
    ensures var typed, emitted := EvalAll(alu, Fresh, ss, x, mem, fuel), EvalAll(alu, Carried, ss, x, mem, fuel);
      && (emitted.Done? ==> (typed == emitted <==> LoopsAfterUnit(ss, env, TypeOfValue(x))))
      && (!emitted.Done? ==> typed == emitted)
    decreases fuel, ss, 2
  {
    var front := WithoutLoops(ss);
    var loops := ss[|front|..];
    assert ss == front + loops && front == ss[..|front|];
    PartsSame(alu, ss, env, x, x, mem, fuel);
    BlockTypeSplit(front, loops, env, TypeOfValue(x));
    FrontSame(alu, front, loops, env, x, mem, fuel);
    TrailingLoops(alu, Fresh, front, loops, x, mem, fuel);
    TrailingLoops(alu, Carried, front, loops, x, mem, fuel);
    CompareReadings(EvalAll(alu, Fresh, ss, x, mem, fuel), EvalAll(alu, Carried, ss, x, mem, fuel),
                    EvalAll(alu, Carried, front, x, mem, fuel), BlockType(front, env, TypeOfValue(x)).value, loops,
                      env);
    assert EndsInLoop(ss) <==> loops != [];
  }

  lemma CompareReadings(typed: Outcome, emitted: Outcome, front: Outcome, t: Ty, loops: seq<Stmt>, env: TypeEnv)
    requires SameEffect(typed, emitted) && Respects(front, t, env)
    requires typed.Done? ==> front.Done? && typed.value == if loops != [] then UnitValue else front.value
    requires emitted.Done? ==> front.Done? && emitted.value == front.value
    ensures emitted.Done? ==> (typed == emitted <==> (loops != [] ==> t == UnitTy))
    ensures !emitted.Done? ==> typed == emitted
  {
  }

  lemma {:induction false} FrontSame(alu: Alu, front: seq<Stmt>, loops: seq<Stmt>, env: TypeEnv, x: Value, mem: Memory,
                                     fuel: nat)
    requires TypedAlu(alu) && MemoryOk(env, mem) && !EndsInLoop(front)
    requires BlockType(front, env, TypeOfValue(x)).Some? && SettledParts(front, env, TypeOfValue(x))
    ensures EvalAll(alu, Fresh, front, x, mem, fuel) == EvalAll(alu, Carried, front, x, mem, fuel)
    ensures Respects(EvalAll(alu, Fresh, front, x, mem, fuel), BlockType(front, env, TypeOfValue(x)).value, env)
    decreases fuel, front, 1
  {
    if front != [] { PartsSame(alu, front, env, x, x, mem, fuel); }
    BlockTypesRespected(alu, front, env, x, mem, fuel);
  }

  lemma TrailingLoops(alu: Alu, reading: LoopValue, front: seq<Stmt>, loops: seq<Stmt>, x: Value, mem: Memory,
                      fuel: nat)
    requires AllLoops(loops)
    ensures var first, whole := EvalAll(alu, reading, front, x, mem, fuel),
      EvalAll(alu, reading, front + loops, x, mem, fuel);
      whole.Done? ==> first.Done? && whole.value == if reading.Fresh? && loops != [] then UnitValue else first.value
  {
    EvalAllSplit(alu, reading, front, loops, x, mem, fuel);
    var first := EvalAll(alu, reading, front, x, mem, fuel);
    if EvalAll(alu, reading, front + loops, x, mem, fuel).Done? {
      LoopsLeave(alu, reading, loops, first.value, first.mem, fuel);
    }
  }

  // ---------- a block whose emitted value is not its type's ----------

  /** The statements of { true; while false {} }, a block of type unit. Unit and bool are both one byte wide. */
  function TrueThenLoop(): seq<Stmt> {
    [ExprStmt(Literal(BoolValue(true))), WhileLoop(Literal(BoolValue(false)), [])]
  }

  lemma TrueThenLoopIsUnit()
    ensures TypeOf(Block(TrueThenLoop()), map[]) == Some(UnitTy) && LegalAll(TrueThenLoop(), {})
  {
    var ss := TrueThenLoop();
    assert ss[1..] == [ss[1]] && ss[1..][1..] == [];
    assert TypeOf(ss[0].expr, map[]) == Some(BoolTy) && TypeOf(ss[1].cond, map[]) == Some(BoolTy);
    assert BlockType(ss[1..], map[], BoolTy) == Some(UnitTy);
  }

  lemma TrueThenLoopValue(alu: Alu, loops: LoopValue, mem: Memory, fuel: nat)
    ensures EvalAll(alu, loops, TrueThenLoop(), UnitValue, mem, fuel) ==
      Done(if loops.Fresh? then UnitValue else BoolValue(true), mem)
  {
    var ss := TrueThenLoop();
    assert ss[1..] == [ss[1]] && ss[1..][1..] == [];
    assert Eval(alu, loops, ss[0].expr, mem, fuel) == Done(BoolValue(true), mem);
    assert Eval(alu, loops, ss[1].cond, mem, fuel) == Done(BoolValue(false), mem);
    assert EvalStmt(alu, loops, ss[1], BoolValue(true), mem, fuel) ==
      Done(if loops.Fresh? then UnitValue else BoolValue(true), mem);
    assert EvalAll(alu, loops, ss[1..], BoolValue(true), mem, fuel) ==
      EvalStmt(alu, loops, ss[1], BoolValue(true), mem, fuel);
  }
}
