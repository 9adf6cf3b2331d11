/** Running the emitted blocks gives the meaning of the tree. */
module LoweringCorrect {
  import opened Wrappers
  import opened TypedTree
  import opened ControlFlowGraph
  import opened Lowering
  import opened LoweringFrame

  type SlotMap = map<VariableId, Slot>

  /** The machine is where the builder is. */
  predicate At(c: Config, s: State) {
    c.block == s.insertBlock && c.index == |s.blocks[s.insertBlock]|
  }

  /** Each variable in memory has its own cell, which holds its value. */
  ghost predicate Represents(slots: SlotMap, mem: Memory, c: Config) {
    && (forall x :: x in mem ==>
      && x in slots && slots[x] in c.slots && c.slots[slots[x]] < |c.heap| && c.heap[c.slots[slots[x]]] == Some(mem[x]))
    && forall x, y :: x in mem && y in mem && x != y ==> c.slots[slots[x]] != c.slots[slots[y]]
  }

  ghost predicate RegistersKept(c: Config, d: Config, bound: Register) {
    forall r :: r in c.regs && r < bound ==> r in d.regs && d.regs[r] == c.regs[r]
  }

  /** slots is what the builder's variable map will be in the end. */
  ghost predicate Fits(slots: SlotMap, s: State) {
    && (forall x :: x in s.variables ==> x in slots && slots[x] == s.variables[x])
    && forall x, y :: x in slots && y in slots && x != y ==> slots[x] != slots[y]
  }

  /** The machine is ready to run what will be emitted from s on. */
  ghost predicate Ready(m: Machine, slots: SlotMap, s: State, scope: set<VariableId>, mem: Memory, c: Config) {
    At(c, s) && Represents(slots, mem, c) && scope <= mem.Keys
  }

  /** The final code contains everything built by state t. */
  ghost predicate Final(m: Machine, slots: SlotMap, t: State) {
    Within(t, m.code) && Fits(slots, t)
  }

  /** From c the machine reaches d, which is at the end of r and holds the result. */
  ghost predicate Arrives(m: Machine, slots: SlotMap, s: State, c: Config, r: Lowered, v: Value, mem: Memory,
                          d: Config) {
    && At(d, r.state) && Represents(slots, mem, d) && RegistersKept(c, d, s.nextRegister)
    && r.value.BasicValue? && OperandValue(m, d, r.value.operand) == Some(v)
  }

  /** How an outcome without a value shows in the machine after n steps. */
  ghost predicate Ends(m: Machine, slots: SlotMap, out: Outcome, fuel: nat, n: nat, d: Config) {
    match out
    case Done(_, _) => false
    case Returned(v, mem) => Step(m, d) == Halt(v) && Represents(slots, mem, d)
    case Stuck => Step(m, d) == Wrong
    case OutOfFuel => n >= fuel
  }

  ghost predicate Simulates(m: Machine, slots: SlotMap, s: State, c: Config, r: Lowered, out: Outcome, fuel: nat,
                            n: nat, d: Config)
  {
    && Run(m, c, n) == Some(d)
    && (if out.Done? then Arrives(m, slots, s, c, r, out.value, out.mem, d) else Ends(m, slots, out, fuel, n, d))
  }

  // ---------- single steps ----------

  lemma EmittedStep(m: Machine, s: State, i: Instruction, c: Config)
    requires Within(Emit(s, i), m.code) && At(c, s)
    ensures Step(m, c) == Exec(m, i, c)
  {
    var t := Emit(s, i);
    assert t.blocks[s.insertBlock] <= m.code[s.insertBlock];
    assert t.blocks[s.insertBlock][c.index] == i;
  }

  /** A value survives as long as its register does. */
  lemma OperandKept(m: Machine, c: Config, d: Config, bound: Register, op: Operand, v: Value)
    requires RegistersKept(c, d, bound) && Below(op, bound) && OperandValue(m, c, op) == Some(v)
    ensures OperandValue(m, d, op) == Some(v)
  {
  }

  lemma KeptTrans(c: Config, d: Config, e: Config, b1: Register, b2: Register)
    requires RegistersKept(c, d, b1) && RegistersKept(d, e, b2) && b1 <= b2
    ensures RegistersKept(c, e, b1)
  {
  }

  /** After a run to c1, what ends from there ends from the start. */
  lemma EndsLater(m: Machine, slots: SlotMap, out: Outcome, fuel: nat, c: Config, n1: nat, c1: Config, n2: nat,
                  d: Config)
    requires Run(m, c, n1) == Some(c1) && Run(m, c1, n2) == Some(d) && Ends(m, slots, out, fuel, n2, d)
    ensures Run(m, c, n1 + n2) == Some(d) && Ends(m, slots, out, fuel, n1 + n2, d)
  {
    RunOn(m, c, n1, c1, n2);
  }

  lemma RepresentsSame(slots: SlotMap, mem: Memory, c: Config, d: Config)
    requires Represents(slots, mem, c) && d.slots == c.slots && d.heap == c.heap
    ensures Represents(slots, mem, d)
  {
  }

  /** Defining one more register at the end of b. */
  lemma DefineStep(m: Machine, b: State, i: Instruction, d: Config, v: Value)
    requires At(d, b) && Within(Define(b, i).state, m.code)
    requires Exec(m, i, d) == Assign(d, b.nextRegister, Some(v))
    ensures Step(m, d) == Next(d.(index := d.index + 1, regs := d.regs[b.nextRegister := v]))
  {
    assert Within(Emit(b, i), m.code);
    EmittedStep(m, b, i, d);
  }

  lemma DefineArrives(m: Machine, slots: SlotMap, b: State, i: Instruction, d: Config, mem: Memory, v: Value, e: Config)
    requires At(d, b) && Represents(slots, mem, d)
    requires e == d.(index := d.index + 1, regs := d.regs[b.nextRegister := v])
    ensures Arrives(m, slots, b, d, Define(b, i), v, mem, e)
  {
    RepresentsSame(slots, mem, d, e);
  }

  lemma FinalBefore(m: Machine, slots: SlotMap, a: State, b: State, defs: set<VariableId>)
    requires Keeps(a, b) && VariablesGrow(a, b, defs) && Final(m, slots, b)
    ensures Final(m, slots, a)
  {
    KeepsWithin(a, b, m.code);
  }

  // ---------- putting runs together ----------

  /** An outcome without a value ends the whole. */
  lemma EndsWhole(m: Machine, slots: SlotMap, s: State, c: Config, n1: nat, c1: Config,
                  s2: State, b: Lowered, out: Outcome, fuel: nat, n2: nat, d: Config, whole: Lowered)
    requires Run(m, c, n1) == Some(c1) && Simulates(m, slots, s2, c1, b, out, fuel, n2, d) && !out.Done?
    ensures Simulates(m, slots, s, c, whole, out, fuel, n1 + n2, d)
  {
    EndsLater(m, slots, out, fuel, c, n1, c1, n2, d);
  }

  lemma ReturnEnds(m: Machine, slots: SlotMap, s: State, c: Config, a: Lowered, out: Outcome, fuel: nat, n: nat,
                   d: Config)
    requires Simulates(m, slots, s, c, a, out, fuel, n, d) && out.Done?
    requires Within(Emit(a.state, Ret(ExpectValue(a.value))), m.code)
    ensures Simulates(m, slots, s, c, Lowered(Emit(a.state, Ret(ExpectValue(a.value))), Never),
                      Returned(out.value, out.mem), fuel, n, d)
  {
    EmittedStep(m, a.state, Ret(ExpectValue(a.value)), d);
  }

  /** Both operands have been evaluated, and the first value is still there. */
  ghost predicate BothRun(m: Machine, slots: SlotMap, s: State, c: Config, a: Lowered, b: Lowered,
                          va: Value, vb: Value, mem: Memory, n: nat, d: Config)
  {
    && Run(m, c, n) == Some(d) && At(d, b.state) && Represents(slots, mem, d) && RegistersKept(c, d, s.nextRegister)
    && OperandValue(m, d, ExpectValue(a.value)) == Some(va) && OperandValue(m, d, ExpectValue(b.value)) == Some(vb)
  }

  lemma OperandsMeet(m: Machine, slots: SlotMap, s: State, c: Config, fuel: nat,
                     a: Lowered, first: Outcome, n1: nat, c1: Config, b: Lowered, second: Outcome, n2: nat, d: Config)
    requires Simulates(m, slots, s, c, a, first, fuel, n1, c1) && first.Done?
    requires Simulates(m, slots, a.state, c1, b, second, fuel, n2, d) && second.Done?
    requires s.nextRegister <= a.state.nextRegister && ValueBelow(a.value, a.state.nextRegister)
    ensures BothRun(m, slots, s, c, a, b, first.value, second.value, second.mem, n1 + n2, d)
  {
    RunOn(m, c, n1, c1, n2);
    OperandKept(m, c1, d, a.state.nextRegister, a.value.operand, first.value);
    KeptTrans(c, c1, d, s.nextRegister, a.state.nextRegister);
  }

  /** One more register at the end of b, reached from c. */
  lemma DefineAfter(m: Machine, slots: SlotMap, s: State, c: Config, b: State, n: nat, d: Config, i: Instruction,
                    out: Outcome, fuel: nat)
    requires Run(m, c, n) == Some(d) && At(d, b) && RegistersKept(c, d, s.nextRegister)
    requires out.Done? && Represents(slots, out.mem, d) && s.nextRegister <= b.nextRegister
    requires Within(Define(b, i).state, m.code) && Exec(m, i, d) == Assign(d, b.nextRegister, Some(out.value))
    ensures Step(m, d).Next?
    ensures Simulates(m, slots, s, c, Define(b, i), out, fuel, n + 1, Step(m, d).config)
  {
    DefineStep(m, b, i, d, out.value);
    var e := d.(index := d.index + 1, regs := d.regs[b.nextRegister := out.value]);
    RunStep(m, c, n, d);
    DefineArrives(m, slots, b, i, d, out.mem, out.value, e);
    KeptTrans(c, d, e, s.nextRegister, b.nextRegister);
  }

  // ---------- jumps ----------

  lemma CondJump(m: Machine, c: Config, n: nat, d: Config, s: State, cond: Operand, x: Label, y: Label, v: Value)
    returns (f: Config)
    requires Run(m, c, n) == Some(d) && At(d, s) && Within(Emit(s, CondBranch(cond, x, y)), m.code)
    requires OperandValue(m, d, cond) == Some(v)
    ensures v.BoolValue? ==>
      Run(m, c, n + 1) == Some(f) && f == d.(block := if v.b then x else y, index := 0, previous := d.block)
    ensures !v.BoolValue? ==> Step(m, d) == Wrong
  {
    EmittedStep(m, s, CondBranch(cond, x, y), d);
    f := d;
    if v.BoolValue? {
      RunStep(m, c, n, d);
      f := Step(m, d).config;
    }
  }

  /** f is the start of the block chosen by the value of a test that was run from c. */
  ghost predicate Chosen(m: Machine, slots: SlotMap, s: State, c: Config, first: Outcome, x: Label, y: Label, n: nat,
                         f: Config) {
    && first.Done? && first.value.BoolValue? && Run(m, c, n) == Some(f)
    && Represents(slots, first.mem, f) && RegistersKept(c, f, s.nextRegister)
    && f.index == 0 && f.block == (if first.value.b then x else y)
  }

  /** Run a test and take the conditional branch on its value, from the same block as seen in t. */
  lemma TestJump(m: Machine, slots: SlotMap, s: State, c: Config, a: Lowered, first: Outcome, fuel: nat, n: nat,
                 d: Config,
                 t: State, x: Label, y: Label)
    returns (f: Config)
    requires Simulates(m, slots, s, c, a, first, fuel, n, d) && first.Done?
    requires t.insertBlock == a.state.insertBlock && t.blocks[t.insertBlock] == a.state.blocks[t.insertBlock]
    requires Within(Emit(t, CondBranch(ExpectValue(a.value), x, y)), m.code)
    ensures !first.value.BoolValue? ==> Step(m, d) == Wrong
    ensures first.value.BoolValue? ==> Chosen(m, slots, s, c, first, x, y, n + 1, f)
  {
    f := CondJump(m, c, n, d, t, ExpectValue(a.value), x, y, first.value);
    if first.value.BoolValue? { RepresentsSame(slots, first.mem, d, f); }
  }

  lemma BranchJump(m: Machine, c: Config, n: nat, d: Config, s: State, target: Label) returns (f: Config)
    requires Run(m, c, n) == Some(d) && At(d, s) && Within(Emit(s, Branch(target)), m.code)
    ensures Run(m, c, n + 1) == Some(f) && f == d.(block := target, index := 0, previous := d.block)
  {
    EmittedStep(m, s, Branch(target), d);
    RunStep(m, c, n, d);
    f := Step(m, d).config;
  }

  lemma PhiExec(m: Machine, d: Config, dst: Register, incoming: seq<Incoming>, op: Operand, v: Value)
    requires FindIncoming(incoming, d.previous) == Some(op) && OperandValue(m, d, op) == Some(v)
    ensures Exec(m, Phi(dst, incoming), d) == Assign(d, dst, Some(v))
  {
  }

  /** From the end of a branch through the phi of the merge block. */
  lemma JoinSim(m: Machine, slots: SlotMap, s: State, c: Config, n: nat, d: Config, br: State, op: Operand,
                merge: State,
                incoming: seq<Incoming>, out: Outcome, fuel: nat, r: Lowered)
    returns (k: nat, f: Config)
    requires Run(m, c, n) == Some(d) && At(d, br) && RegistersKept(c, d, s.nextRegister)
    requires s.nextRegister <= merge.nextRegister
    requires out.Done? && Represents(slots, out.mem, d) && OperandValue(m, d, op) == Some(out.value)
    requires Within(Emit(br, Branch(merge.insertBlock)), m.code) && merge.blocks[merge.insertBlock] == []
    requires FindIncoming(incoming, br.insertBlock) == Some(op)
    requires r == Define(merge, Phi(merge.nextRegister, incoming)) && Within(r.state, m.code)
    ensures Simulates(m, slots, s, c, r, out, fuel, k, f)
  {
    var g := BranchJump(m, c, n, d, br, merge.insertBlock);
    RepresentsSame(slots, out.mem, d, g);
    PhiExec(m, g, merge.nextRegister, incoming, op, out.value);
    k, f := ExecSim(m, slots, s, c, merge, n + 1, g, Phi(merge.nextRegister, incoming), out.mem, fuel, r, out);
  }

  /** A branch b entered at f runs to its end and joins the merge block, unless it ends earlier. */
  lemma BranchEnd(m: Machine, slots: SlotMap, s: State, c: Config, n1: nat, f: Config, s2: State, b: Lowered,
                  out: Outcome,
                  n2: nat, d: Config, fuel: nat, merge: State, incoming: seq<Incoming>, r: Lowered)
    returns (k: nat, g: Config)
    requires Run(m, c, n1) == Some(f) && RegistersKept(c, f, s.nextRegister)
    requires Simulates(m, slots, s2, f, b, out, fuel, n2, d)
    requires s.nextRegister <= s2.nextRegister && s.nextRegister <= merge.nextRegister
    requires merge.blocks[merge.insertBlock] == []
    requires b.value.BasicValue? ==>
      && Within(Emit(b.state, Branch(merge.insertBlock)), m.code)
      && FindIncoming(incoming, b.state.insertBlock) == Some(b.value.operand)
      && r == Define(merge, Phi(merge.nextRegister, incoming)) && Within(r.state, m.code)
    ensures Simulates(m, slots, s, c, r, out, fuel, k, g)
  {
    if !out.Done? {
      EndsWhole(m, slots, s, c, n1, f, s2, b, out, fuel, n2, d, r);
      return n1 + n2, d;
    }
    RunOn(m, c, n1, f, n2);
    KeptTrans(c, f, d, s.nextRegister, s2.nextRegister);
    k, g := JoinSim(m, slots, s, c, n1 + n2, d, b.state, b.value.operand, merge, incoming, out, fuel, r);
  }

  // ---------- expressions ----------

  lemma {:induction false} Sim(m: Machine, slots: SlotMap, e: Expr, s: State, scope: set<VariableId>,
                               mem: Memory, fuel: nat, c: Config)
    returns (n: nat, d: Config)
    requires Legal(e, scope) && Scoped(s, scope, Defs(e))
    requires Ready(m, slots, s, scope, mem, c) && Final(m, slots, Lower(e, s).state)
    ensures Simulates(m, slots, s, c, Lower(e, s), Eval(m.alu, Carried, e, mem, fuel), fuel, n, d)
    decreases fuel, e, 3
  {
    match e {
      case Literal(_) => n, d := 0, c;
      case Variable(x) => n, d := VariableSim(m, slots, x, s, scope, mem, fuel, c);
      case BinaryOp(_, _, _) => n, d := BinarySim(m, slots, e, s, scope, mem, fuel, c, Lower(e, s),
        Eval(m.alu, Carried, e, mem, fuel));
      case Or(_, _) => n, d := BinarySim(m, slots, e, s, scope, mem, fuel, c, Lower(e, s),
        Eval(m.alu, Carried, e, mem, fuel));
      case And(_, _) => n, d := AndSim(m, slots, e, s, scope, mem, fuel, c, Lower(e, s),
        Eval(m.alu, Carried, e, mem, fuel));
      case If(_, _, _) => n, d := IfSim(m, slots, e, s, scope, mem, fuel, c, Lower(e, s),
        Eval(m.alu, Carried, e, mem, fuel));
      case Block(ss) => n, d := AllSim(m, slots, ss, s, BasicValue(Const(UnitValue)), UnitValue, scope, mem, fuel, c,
        Lower(e, s), Eval(m.alu, Carried, e, mem, fuel));
      case Return(_) => n, d := ReturnSim(m, slots, e, s, scope, mem, fuel, c, Lower(e, s),
        Eval(m.alu, Carried, e, mem, fuel));
    }
  }

  lemma VariableSim(m: Machine, slots: SlotMap, x: VariableId, s: State, scope: set<VariableId>,
                    mem: Memory, fuel: nat, c: Config)
    returns (n: nat, d: Config)
    requires x in scope && scope <= s.variables.Keys
    requires Ready(m, slots, s, scope, mem, c) && Final(m, slots, Lower(Variable(x), s).state)
    ensures Simulates(m, slots, s, c, Lower(Variable(x), s), Eval(m.alu, Carried, Variable(x), mem, fuel), fuel, n, d)
  {
    DefineAfter(m, slots, s, c, s, 0, c, Load(s.nextRegister, SlotOf(s, x)), Done(mem[x], mem), fuel);
    n, d := 1, Step(m, c).config;
  }

  lemma {:induction false} ReturnSim(m: Machine, slots: SlotMap, e: Expr, s: State, scope: set<VariableId>,
                                     mem: Memory, fuel: nat, c: Config, r: Lowered, out: Outcome)
    returns (n: nat, d: Config)
    requires e.Return? && Legal(e, scope) && Scoped(s, scope, Defs(e))
    requires Ready(m, slots, s, scope, mem, c) && Final(m, slots, r.state)
    requires r == Lower(e, s) && out == Eval(m.alu, Carried, e, mem, fuel)
    ensures Simulates(m, slots, s, c, r, out, fuel, n, d)
    decreases fuel, e, 1
  {
    var a, first := Lower(e.result, s), Eval(m.alu, Carried, e.result, mem, fuel);
    LowerGrows(e.result, s, scope);
    EmitKeeps(a.state, Ret(ExpectValue(a.value)));
    FinalBefore(m, slots, a.state, r.state, {});
    n, d := Sim(m, slots, e.result, s, scope, mem, fuel, c);
    if first.Done? { ReturnEnds(m, slots, s, c, a, first, fuel, n, d); }
  }

  lemma {:induction false} BinarySim(m: Machine, slots: SlotMap, e: Expr, s: State, scope: set<VariableId>,
                                     mem: Memory, fuel: nat, c: Config, r: Lowered, out: Outcome)
    returns (n: nat, d: Config)
    requires (e.BinaryOp? || e.Or?) && Legal(e, scope) && Scoped(s, scope, Defs(e))
    requires Ready(m, slots, s, scope, mem, c) && Final(m, slots, r.state)
    requires r == Lower(e, s) && out == Eval(m.alu, Carried, e, mem, fuel)
    ensures Simulates(m, slots, s, c, r, out, fuel, n, d)
    decreases fuel, e, 1
  {
    var a := Lower(e.lhs, s);
    var b := Lower(e.rhs, a.state);
    BinaryFinal(m, slots, e, s, scope, a, b);
    EvalOperands(m.alu, e, mem, fuel);
    n, d := Sim(m, slots, e.lhs, s, scope, mem, fuel, c);
    var first := Eval(m.alu, Carried, e.lhs, mem, fuel);
    if !first.Done? { return; }
    var second := Eval(m.alu, Carried, e.rhs, first.mem, fuel);
    var n2, d2 := Sim(m, slots, e.rhs, a.state, scope, first.mem, fuel, d);
    n, d := BinaryEnd(m, slots, e, s, c, a, first, n, d, b, second, n2, d2, fuel, r, out);
  }

  lemma BinaryEnd(m: Machine, slots: SlotMap, e: Expr, s: State, c: Config, a: Lowered, first: Outcome, n1: nat,
                  c1: Config,
                  b: Lowered, second: Outcome, n2: nat, c2: Config, fuel: nat, r: Lowered, out: Outcome)
    returns (k: nat, f: Config)
    requires e.BinaryOp? || e.Or?
    requires Simulates(m, slots, s, c, a, first, fuel, n1, c1) && first.Done?
    requires Simulates(m, slots, a.state, c1, b, second, fuel, n2, c2)
    requires s.nextRegister <= a.state.nextRegister <= b.state.nextRegister && ValueBelow(a.value, a.state.nextRegister)
    requires r == Define(b.state, Combine(e, a, b)) && Within(r.state, m.code)
    requires out == if second.Done? then Combined(m.alu, e, first.value, second.value, second.mem) else second
    ensures Simulates(m, slots, s, c, r, out, fuel, k, f)
  {
    if !second.Done? {
      EndsWhole(m, slots, s, c, n1, c1, a.state, b, second, fuel, n2, c2, r);
      return n1 + n2, c2;
    }
    OperandsMeet(m, slots, s, c, fuel, a, first, n1, c1, b, second, n2, c2);
    k, f := CombineSim(m, slots, e, s, c, a, b, first.value, second.value, second.mem, n1 + n2, c2, fuel, r, out);
  }

  lemma EvalOperands(alu: Alu, e: Expr, mem: Memory, fuel: nat)
    requires e.BinaryOp? || e.Or?
    ensures var first := Eval(alu, Carried, e.lhs, mem, fuel);
      Eval(alu, Carried, e, mem, fuel) ==
        if !first.Done? then first
        else
          var second := Eval(alu, Carried, e.rhs, first.mem, fuel);
          if !second.Done? then second else Combined(alu, e, first.value, second.value, second.mem)
  {
  }

  lemma BinaryFinal(m: Machine, slots: SlotMap, e: Expr, s: State, scope: set<VariableId>, a: Lowered, b: Lowered)
    requires (e.BinaryOp? || e.Or?) && Legal(e, scope) && Scoped(s, scope, Defs(e))
    requires a == Lower(e.lhs, s) && b == Lower(e.rhs, a.state) && Final(m, slots, Lower(e, s).state)
    ensures Lower(e, s) == Define(b.state, Combine(e, a, b))
    ensures Final(m, slots, a.state) && Final(m, slots, b.state)
    ensures Scoped(a.state, scope, Defs(e.rhs)) && ValueBelow(a.value, a.state.nextRegister)
    ensures s.nextRegister <= a.state.nextRegister <= b.state.nextRegister
  {
    OperandsGrow(e, s, scope);
    DefineGrows(b.state, Combine(e, a, b));
    FinalBefore(m, slots, b.state, Define(b.state, Combine(e, a, b)).state, {});
    FinalBefore(m, slots, a.state, b.state, Defs(e.rhs));
  }

  ghost function Combine(e: Expr, a: Lowered, b: Lowered): Instruction
    requires e.BinaryOp? || e.Or?
  {
    if e.BinaryOp? then Binary(b.state.nextRegister, e.kind, ExpectValue(a.value), ExpectValue(b.value))
    else OrBits(b.state.nextRegister, ExpectValue(a.value), ExpectValue(b.value))
  }

  ghost function Combined(alu: Alu, e: Expr, va: Value, vb: Value, mem: Memory): Outcome
    requires e.BinaryOp? || e.Or?
  {
    if e.BinaryOp? then
      var v := alu(e.kind, va, vb);
      if v.Some? then Done(v.value, mem) else Stuck
    else if va.BoolValue? && vb.BoolValue? then Done(BoolValue(va.b || vb.b), mem)
    else Stuck
  }

  lemma CombineSim(m: Machine, slots: SlotMap, e: Expr, s: State, c: Config, a: Lowered, b: Lowered, va: Value,
                   vb: Value,
                   mem: Memory, n: nat, d: Config, fuel: nat, r: Lowered, out: Outcome)
    returns (k: nat, f: Config)
    requires e.BinaryOp? || e.Or?
    requires BothRun(m, slots, s, c, a, b, va, vb, mem, n, d) && s.nextRegister <= b.state.nextRegister
    requires r == Define(b.state, Combine(e, a, b)) && out == Combined(m.alu, e, va, vb, mem) && Within(r.state, m.code)
    ensures Simulates(m, slots, s, c, r, out, fuel, k, f)
  {
    CombineExec(m, e, a, b, va, vb, mem, d);
    k, f := ExecSim(m, slots, s, c, b.state, n, d, Combine(e, a, b), mem, fuel, r, out);
  }

  /** One more instruction, which defines a register or fails. */
  lemma ExecSim(m: Machine, slots: SlotMap, s: State, c: Config, b: State, n: nat, d: Config, i: Instruction,
                mem: Memory, fuel: nat, r: Lowered, out: Outcome)
    returns (k: nat, f: Config)
    requires Run(m, c, n) == Some(d) && At(d, b) && Represents(slots, mem, d) && RegistersKept(c, d, s.nextRegister)
    requires s.nextRegister <= b.nextRegister && r == Define(b, i) && Within(r.state, m.code)
    requires Exec(m, i, d) == if out.Done? then Assign(d, b.nextRegister, Some(out.value)) else Wrong
    requires if out.Done? then out.mem == mem else out.Stuck?
    ensures Simulates(m, slots, s, c, r, out, fuel, k, f)
  {
    if out.Done? {
      DefineAfter(m, slots, s, c, b, n, d, i, out, fuel);
      return n + 1, Step(m, d).config;
    }
    assert Within(Emit(b, i), m.code);
    EmittedStep(m, b, i, d);
    return n, d;
  }

  lemma CombineExec(m: Machine, e: Expr, a: Lowered, b: Lowered, va: Value, vb: Value, mem: Memory, d: Config)
    requires e.BinaryOp? || e.Or?
    requires OperandValue(m, d, ExpectValue(a.value)) == Some(va)
    requires OperandValue(m, d, ExpectValue(b.value)) == Some(vb)
    ensures Exec(m, Combine(e, a, b), d) ==
      var out := Combined(m.alu, e, va, vb, mem);
      if out.Done? then Assign(d, b.state.nextRegister, Some(out.value)) else Wrong
  {
  }

  // ---------- and ----------

  /** What the final code holds of each stage. */
  ghost predicate AndInCode(m: Machine, slots: SlotMap, a: Lowered, b: Lowered, r: Lowered) {
    var n := |a.state.blocks|;
    && Final(m, slots, a.state) && Final(m, slots, b.state) && n + 2 < |b.state.blocks|
    && Within(Emit(AppendBlocks(a.state), CondBranch(ExpectValue(a.value), n, n + 1)), m.code)
    && r == Define(AndJoined(b.state, n), Phi(b.state.nextRegister, AndIncoming(b, n)))
    && Within(r.state, m.code)
  }

  lemma AndIsInCode(m: Machine, slots: SlotMap, e: Expr, s: State, scope: set<VariableId>, a: Lowered, fork: State,
                    b: Lowered)
    requires e.And? && Legal(e, scope) && Scoped(s, scope, Defs(e)) && Final(m, slots, Lower(e, s).state)
    requires a == Lower(e.lhs, s) && fork == Fork(AppendBlocks(a.state), ExpectValue(a.value), |a.state.blocks|)
    requires b == Lower(e.rhs, fork)
    ensures AndInCode(m, slots, a, b, Lower(e, s))
  {
    var n := |a.state.blocks|;
    AndGrows(e, s, scope);
    AndResult(e, s, a, fork, b);
    AndEndInCode(m, slots, s, b, n, Lower(e, s), Defs(e));
    FinalBefore(m, slots, fork, b.state, Defs(e.rhs));
    FinalBefore(m, slots, a.state, fork, {});
  }

  lemma AndEndInCode(m: Machine, slots: SlotMap, s: State, b: Lowered, n: Label, r: Lowered, defs: set<VariableId>)
    requires Grows(s, b.state, defs) && |s.blocks| <= n && n + 2 < |b.state.blocks|
    requires r == Define(AndJoined(b.state, n), Phi(b.state.nextRegister, AndIncoming(b, n)))
    requires Final(m, slots, r.state)
    ensures Final(m, slots, b.state)
  {
    AndJoinGrows(s, b.state, n, defs);
    var mid, joined := BranchAndMove(b.state, n + 2, n + 1), AndJoined(b.state, n);
    DefineGrows(joined, Phi(joined.nextRegister, AndIncoming(b, n)));
    FinalBefore(m, slots, joined, r.state, {});
    FinalBefore(m, slots, mid, joined, {});
    FinalBefore(m, slots, b.state, mid, {});
  }

  lemma {:induction false} AndSim(m: Machine, slots: SlotMap, e: Expr, s: State, scope: set<VariableId>,
                                  mem: Memory, fuel: nat, c: Config, r: Lowered, out: Outcome)
    returns (n: nat, d: Config)
    requires e.And? && Legal(e, scope) && Scoped(s, scope, Defs(e))
    requires Ready(m, slots, s, scope, mem, c) && Final(m, slots, r.state)
    requires r == Lower(e, s) && out == Eval(m.alu, Carried, e, mem, fuel)
    ensures Simulates(m, slots, s, c, r, out, fuel, n, d)
    decreases fuel, e, 2
  {
    var a := Lower(e.lhs, s);
    var fork := Fork(AppendBlocks(a.state), ExpectValue(a.value), |a.state.blocks|);
    var b, first := Lower(e.rhs, fork), Eval(m.alu, Carried, e.lhs, mem, fuel);
    AndIsShaped(e, s, scope, a, fork, b);
    AndIsInCode(m, slots, e, s, scope, a, fork, b);
    n, d := Sim(m, slots, e.lhs, s, scope, mem, fuel, c);
    if first.Done? {
      n, d := AndTail(m, slots, e, s, scope, fuel, c, a, first, n, d, fork, b, r, out);
    }
  }

  lemma {:induction false} AndTail(m: Machine, slots: SlotMap, e: Expr, s: State, scope: set<VariableId>, fuel: nat,
                                   c: Config,
                                   a: Lowered, first: Outcome, n1: nat, c1: Config, fork: State, b: Lowered,
                                   r: Lowered, out: Outcome)
    returns (n: nat, d: Config)
    requires e.And? && Legal(e, scope) && Scoped(fork, scope, Defs(e.rhs)) && b == Lower(e.rhs, fork)
    requires AndShape(s, a, fork, b) && AndInCode(m, slots, a, b, r)
    requires Simulates(m, slots, s, c, a, first, fuel, n1, c1) && first.Done? && scope <= first.mem.Keys
    requires out == if !first.value.BoolValue? then Stuck
                    else if first.value.b then Eval(m.alu, Carried, e.rhs, first.mem, fuel) else first
    ensures Simulates(m, slots, s, c, r, out, fuel, n, d)
    decreases fuel, e, 1
  {
    var k := |a.state.blocks|;
    var f := TestJump(m, slots, s, c, a, first, fuel, n1, c1, AppendBlocks(a.state), k, k + 1);
    if !first.value.BoolValue? { return n1, c1; }
    n, d := AndChosen(m, slots, e, s, scope, fuel, c, a, first, n1 + 1, f, fork, b, r, out);
  }

  lemma {:induction false} AndChosen(m: Machine, slots: SlotMap, e: Expr, s: State, scope: set<VariableId>, fuel: nat,
                                     c: Config,
                                     a: Lowered, first: Outcome, n1: nat, f: Config, fork: State, b: Lowered,
                                     r: Lowered, out: Outcome)
    returns (n: nat, d: Config)
    requires e.And? && Legal(e.rhs, scope) && Scoped(fork, scope, Defs(e.rhs)) && b == Lower(e.rhs, fork)
    requires AndShape(s, a, fork, b) && AndInCode(m, slots, a, b, r)
    requires Chosen(m, slots, s, c, first, |a.state.blocks|, |a.state.blocks| + 1, n1, f) && scope <= first.mem.Keys
    requires out == if first.value.b then Eval(m.alu, Carried, e.rhs, first.mem, fuel) else first
    ensures Simulates(m, slots, s, c, r, out, fuel, n, d)
    decreases fuel, e, 0
  {
    if first.value.b {
      n, d := Sim(m, slots, e.rhs, fork, scope, first.mem, fuel, f);
      n, d := AndTrue(m, slots, s, c, a, fork, b, out, n1, f, n, d, fuel, r);
    } else {
      n, d := AndFalse(m, slots, s, c, a, fork, b, first, n1, f, fuel, r);
    }
  }

  lemma AndTrue(m: Machine, slots: SlotMap, s: State, c: Config, a: Lowered, fork: State, b: Lowered, out: Outcome,
                n1: nat, f: Config, n2: nat, c2: Config, fuel: nat, r: Lowered)
    returns (n: nat, d: Config)
    requires AndShape(s, a, fork, b) && AndInCode(m, slots, a, b, r)
    requires Run(m, c, n1) == Some(f) && RegistersKept(c, f, s.nextRegister)
    requires Simulates(m, slots, fork, f, b, out, fuel, n2, c2)
    ensures Simulates(m, slots, s, c, r, out, fuel, n, d)
  {
    var l := |a.state.blocks|;
    n, d := BranchEnd(m, slots, s, c, n1, f, fork, b, out, n2, c2, fuel, AndJoined(b.state, l), AndIncoming(b, l), r);
  }

  lemma AndFalse(m: Machine, slots: SlotMap, s: State, c: Config, a: Lowered, fork: State, b: Lowered, out: Outcome,
                 n: nat, f: Config, fuel: nat, r: Lowered)
    returns (k: nat, d: Config)
    requires AndShape(s, a, fork, b) && AndInCode(m, slots, a, b, r)
    requires Run(m, c, n) == Some(f) && RegistersKept(c, f, s.nextRegister)
    requires out.Done? && out.value == BoolValue(false) && Represents(slots, out.mem, f)
    requires f.block == |a.state.blocks| + 1 && f.index == 0
    ensures Simulates(m, slots, s, c, r, out, fuel, k, d)
  {
    var l := |a.state.blocks|;
    var mid := BranchAndMove(b.state, l + 2, l + 1);
    AndIncomingFalse(b, l);
    k, d := JoinSim(m, slots, s, c, n, f, mid, Const(BoolValue(false)), AndJoined(b.state, l), AndIncoming(b, l), out,
      fuel, r);
  }

  lemma AndIncomingFalse(b: Lowered, l: Label)
    requires b.state.insertBlock != l + 1
    ensures FindIncoming(AndIncoming(b, l), l + 1) == Some(Const(BoolValue(false)))
  {
    assert AndIncoming(b, l)[1..] == [Incoming(Const(BoolValue(false)), l + 1)];
  }

  // ---------- if ----------

  lemma IncomingFound(b: Lowered, d: Lowered)
    ensures b.value.BasicValue? ==> FindIncoming(IfIncoming(b, d), b.state.insertBlock) == Some(b.value.operand)
    ensures d.value.BasicValue? && (b.value.Never? || b.state.insertBlock != d.state.insertBlock) ==>
      FindIncoming(IfIncoming(b, d), d.state.insertBlock) == Some(d.value.operand)
  {
    if b.value.BasicValue? && d.value.BasicValue? {
      assert IfIncoming(b, d)[1..] == BranchIncoming(d);
    }
  }

  /** What the final code holds of each stage. */
  ghost predicate IfInCode(m: Machine, slots: SlotMap, s: State, a: Lowered, b: Lowered, d: Lowered, merge: State,
                           r: Lowered) {
    var n := |s.blocks|;
    && Final(m, slots, a.state) && Final(m, slots, b.state) && Final(m, slots, d.state) && merge.insertBlock == n + 2
    && Within(Emit(a.state, CondBranch(ExpectValue(a.value), n, n + 1)), m.code)
    && (b.value.BasicValue? ==> Within(Emit(b.state, Branch(n + 2)), m.code))
    && (d.value.BasicValue? ==> Within(Emit(d.state, Branch(n + 2)), m.code))
    && (b.value.BasicValue? || d.value.BasicValue? ==>
      r == Define(merge, Phi(merge.nextRegister, IfIncoming(b, d))) && Within(r.state, m.code))
  }

  lemma FinishInCode(m: Machine, slots: SlotMap, b: Lowered, merge: Label, next: Label)
    requires next < |b.state.blocks| && Final(m, slots, FinishBranch(b, merge, next))
    ensures Final(m, slots, b.state) && (b.value.BasicValue? ==> Within(Emit(b.state, Branch(merge)), m.code))
  {
    FinishKeeps(b, merge, next);
    FinalBefore(m, slots, b.state, FinishBranch(b, merge, next), {});
  }

  lemma IfElseInCode(m: Machine, slots: SlotMap, e: Expr, s: State, scope: set<VariableId>)
    requires e.If? && Legal(e, scope) && Scoped(s, scope, Defs(e)) && Final(m, slots, Lower(e, s).state)
    ensures Final(m, slots, IfAlternate(e, s).state) && Final(m, slots, IfElse(e, s))
    ensures IfAlternate(e, s).value.BasicValue? ==> Within(Emit(IfAlternate(e, s).state, Branch(|s.blocks| + 2)),
      m.code)
  {
    MergeGrows(IfMerge(e, s), IfIncoming(IfConsequent(e, s), IfAlternate(e, s)));
    FinalBefore(m, slots, IfMerge(e, s), Lower(e, s).state, {});
    FinishInCode(m, slots, IfAlternate(e, s), |s.blocks| + 2, |s.blocks| + 2);
    IfMergeGrows(e, s, scope);
    FinalBefore(m, slots, IfElse(e, s), IfAlternate(e, s).state, Defs(e.alternate));
  }

  lemma IfThenInCode(m: Machine, slots: SlotMap, e: Expr, s: State, scope: set<VariableId>)
    requires e.If? && Legal(e, scope) && Scoped(s, scope, Defs(e)) && Final(m, slots, IfElse(e, s))
    ensures Final(m, slots, IfConsequent(e, s).state) && Final(m, slots, IfCondition(e, s).state)
    ensures IfConsequent(e, s).value.BasicValue? ==> Within(Emit(IfConsequent(e, s).state, Branch(|s.blocks| + 2)),
      m.code)
    ensures var a := IfCondition(e, s);
      Within(Emit(a.state, CondBranch(ExpectValue(a.value), |s.blocks|, |s.blocks| + 1)), m.code)
  {
    FinishInCode(m, slots, IfConsequent(e, s), |s.blocks| + 2, |s.blocks| + 1);
    IfElseGrows(e, s, scope);
    FinalBefore(m, slots, IfThen(e, s), IfConsequent(e, s).state, Defs(e.consequent));
    ForkKeeps(IfCondition(e, s).state, ExpectValue(IfCondition(e, s).value), |s.blocks|);
    FinalBefore(m, slots, IfCondition(e, s).state, IfThen(e, s), {});
  }

  lemma IfIsInCode(m: Machine, slots: SlotMap, e: Expr, s: State, scope: set<VariableId>)
    requires e.If? && Legal(e, scope) && Scoped(s, scope, Defs(e)) && Final(m, slots, Lower(e, s).state)
    ensures IfInCode(m, slots, s, IfCondition(e, s), IfConsequent(e, s), IfAlternate(e, s), IfMerge(e, s), Lower(e, s))
  {
    IfElseInCode(m, slots, e, s, scope);
    IfThenInCode(m, slots, e, s, scope);
    MergeResult(e, s);
  }

  /** Everything the run of an `if` needs to know about how it was built. */
  ghost predicate IfBuilt(m: Machine, slots: SlotMap, e: Expr, s: State, scope: set<VariableId>, a: Lowered, b: Lowered,
                          alt: Lowered, onTrue: State, onFalse: State, merge: State, r: Lowered)
    requires e.If?
  {
    && IfShape(s, a, b, alt, onTrue, onFalse, merge) && IfInCode(m, slots, s, a, b, alt, merge, r)
    && Legal(e.consequent, scope) && Scoped(onTrue, scope, Defs(e.consequent)) && b == Lower(e.consequent, onTrue)
    && Legal(e.alternate, scope) && Scoped(onFalse, scope, Defs(e.alternate)) && alt == Lower(e.alternate, onFalse)
  }

  /** Only the register counter of the starting state matters. */
  lemma SameStart(m: Machine, slots: SlotMap, s0: State, s: State, c: Config, r: Lowered, out: Outcome, fuel: nat,
                  n: nat, d: Config)
    requires Simulates(m, slots, s0, c, r, out, fuel, n, d) && s0.nextRegister == s.nextRegister
    ensures Simulates(m, slots, s, c, r, out, fuel, n, d)
  {
  }

  lemma {:induction false} IfSim(m: Machine, slots: SlotMap, e: Expr, s: State, scope: set<VariableId>,
                                 mem: Memory, fuel: nat, c: Config, r: Lowered, out: Outcome)
    returns (n: nat, d: Config)
    requires e.If? && Legal(e, scope) && Scoped(s, scope, Defs(e))
    requires Ready(m, slots, s, scope, mem, c) && Final(m, slots, r.state)
    requires r == Lower(e, s) && out == Eval(m.alu, Carried, e, mem, fuel)
    ensures Simulates(m, slots, s, c, r, out, fuel, n, d)
    decreases fuel, e, 2
  {
    var a, b, alt, s0 := IfCondition(e, s), IfConsequent(e, s), IfAlternate(e, s), AppendBlocks(s);
    var first := Eval(m.alu, Carried, e.condition, mem, fuel);
    IfIsShaped(e, s, scope);
    IfIsInCode(m, slots, e, s, scope);
    IfScoped(e, s, scope);
    n, d := Sim(m, slots, e.condition, s0, scope, mem, fuel, c);
    SameStart(m, slots, s0, s, c, a, first, fuel, n, d);
    if first.Done? {
      n, d := IfTail(m, slots, e, s, scope, fuel, c, a, first, n, d, b, alt, IfThen(e, s), IfElse(e, s),
        IfMerge(e, s), r, out);
    }
  }

  lemma {:induction false} IfTail(m: Machine, slots: SlotMap, e: Expr, s: State, scope: set<VariableId>, fuel: nat,
                                  c: Config,
                                  a: Lowered, first: Outcome, n1: nat, c1: Config, b: Lowered, alt: Lowered,
                                  onTrue: State, onFalse: State, merge: State, r: Lowered, out: Outcome)
    returns (n: nat, d: Config)
    requires e.If? && IfBuilt(m, slots, e, s, scope, a, b, alt, onTrue, onFalse, merge, r)
    requires Simulates(m, slots, s, c, a, first, fuel, n1, c1) && first.Done? && scope <= first.mem.Keys
    requires out == if !first.value.BoolValue? then Stuck
                    else if first.value.b then Eval(m.alu, Carried, e.consequent, first.mem, fuel)
                    else Eval(m.alu, Carried, e.alternate, first.mem, fuel)
    ensures Simulates(m, slots, s, c, r, out, fuel, n, d)
    decreases fuel, e, 1
  {
    var f := IfTest(m, slots, s, c, a, first, fuel, n1, c1, b, alt, merge, r);
    if !first.value.BoolValue? { return n1, c1; }
    n, d := IfChosen(m, slots, e, s, scope, fuel, c, a, first, n1 + 1, f, b, alt, onTrue, onFalse, merge, r, out);
  }

  lemma IfTest(m: Machine, slots: SlotMap, s: State, c: Config, a: Lowered, first: Outcome, fuel: nat, n1: nat,
               c1: Config,
               b: Lowered, alt: Lowered, merge: State, r: Lowered)
    returns (f: Config)
    requires Simulates(m, slots, s, c, a, first, fuel, n1, c1) && first.Done?
    requires IfInCode(m, slots, s, a, b, alt, merge, r)
    ensures !first.value.BoolValue? ==> Step(m, c1) == Wrong
    ensures first.value.BoolValue? ==> Chosen(m, slots, s, c, first, |s.blocks|, |s.blocks| + 1, n1 + 1, f)
  {
    f := TestJump(m, slots, s, c, a, first, fuel, n1, c1, a.state, |s.blocks|, |s.blocks| + 1);
  }

  lemma {:induction false} IfChosen(m: Machine, slots: SlotMap, e: Expr, s: State, scope: set<VariableId>, fuel: nat,
                                    c: Config,
                                    a: Lowered, first: Outcome, n1: nat, f: Config, b: Lowered, alt: Lowered,
                                    onTrue: State, onFalse: State, merge: State, r: Lowered, out: Outcome)
    returns (n: nat, d: Config)
    requires e.If? && IfBuilt(m, slots, e, s, scope, a, b, alt, onTrue, onFalse, merge, r)
    requires Chosen(m, slots, s, c, first, |s.blocks|, |s.blocks| + 1, n1, f) && scope <= first.mem.Keys
    requires out == Eval(m.alu, Carried, if first.value.b then e.consequent else e.alternate, first.mem, fuel)
    ensures Simulates(m, slots, s, c, r, out, fuel, n, d)
    decreases fuel, e, 0
  {
    if first.value.b {
      n, d := Sim(m, slots, e.consequent, onTrue, scope, first.mem, fuel, f);
      n, d := IfTrue(m, slots, s, c, a, b, alt, onTrue, onFalse, merge, out, n1, f, n, d, fuel, r);
    } else {
      n, d := Sim(m, slots, e.alternate, onFalse, scope, first.mem, fuel, f);
      n, d := IfFalse(m, slots, s, c, a, b, alt, onTrue, onFalse, merge, out, n1, f, n, d, fuel, r);
    }
  }

  lemma IfTrue(m: Machine, slots: SlotMap, s: State, c: Config, a: Lowered, b: Lowered, alt: Lowered,
               onTrue: State, onFalse: State, merge: State, out: Outcome, n1: nat, f: Config, n2: nat, c2: Config,
               fuel: nat, r: Lowered)
    returns (n: nat, d: Config)
    requires IfShape(s, a, b, alt, onTrue, onFalse, merge) && IfInCode(m, slots, s, a, b, alt, merge, r)
    requires Run(m, c, n1) == Some(f) && RegistersKept(c, f, s.nextRegister)
    requires Simulates(m, slots, onTrue, f, b, out, fuel, n2, c2)
    ensures Simulates(m, slots, s, c, r, out, fuel, n, d)
  {
    IncomingFound(b, alt);
    n, d := BranchEnd(m, slots, s, c, n1, f, onTrue, b, out, n2, c2, fuel, merge, IfIncoming(b, alt), r);
  }

  lemma IfFalse(m: Machine, slots: SlotMap, s: State, c: Config, a: Lowered, b: Lowered, alt: Lowered,
                onTrue: State, onFalse: State, merge: State, out: Outcome, n1: nat, f: Config, n2: nat, c2: Config,
                fuel: nat, r: Lowered)
    returns (n: nat, d: Config)
    requires IfShape(s, a, b, alt, onTrue, onFalse, merge) && IfInCode(m, slots, s, a, b, alt, merge, r)
    requires Run(m, c, n1) == Some(f) && RegistersKept(c, f, s.nextRegister)
    requires Simulates(m, slots, onFalse, f, alt, out, fuel, n2, c2)
    ensures Simulates(m, slots, s, c, r, out, fuel, n, d)
  {
    IncomingFound(b, alt);
    n, d := BranchEnd(m, slots, s, c, n1, f, onFalse, alt, out, n2, c2, fuel, merge, IfIncoming(b, alt), r);
  }

  // ---------- statements ----------

  /** The value of the statements so far. */
  ghost predicate LastValue(m: Machine, s: State, last: LlvmValue, v: Value, c: Config) {
    last.BasicValue? && ValueBelow(last, s.nextRegister) && OperandValue(m, c, last.operand) == Some(v)
  }

  lemma {:induction false} AllSim(m: Machine, slots: SlotMap, ss: seq<Stmt>, s: State, last: LlvmValue, v: Value,
                                  scope: set<VariableId>, mem: Memory, fuel: nat, c: Config, r: Lowered, out: Outcome)
    returns (n: nat, d: Config)
    requires LegalAll(ss, scope) && Scoped(s, scope, DefsOfAll(ss)) && LastValue(m, s, last, v, c)
    requires Ready(m, slots, s, scope, mem, c) && Final(m, slots, r.state)
    requires r == LowerAll(ss, s, last) && out == EvalAll(m.alu, Carried, ss, v, mem, fuel)
    ensures Simulates(m, slots, s, c, r, out, fuel, n, d)
    decreases fuel, ss, 3
  {
    if ss == [] { return 0, c; }
    var a, first := LowerStmt(ss[0], s, last), EvalStmt(m.alu, Carried, ss[0], v, mem, fuel);
    AllIsInCode(m, slots, ss, s, last, scope);
    n, d := StmtSim(m, slots, ss[0], s, last, v, scope, mem, fuel, c, a, first);
    if !first.Done? { return; }
    var n2, d2 := AllSim(m, slots, ss[1..], a.state, a.value, first.value, NewScope(ss[0], scope), first.mem, fuel, d,
      r, out);
    n, d := Sequence(m, slots, s, c, a, first, n, d, r, out, n2, d2, fuel);
  }

  /** Two runs in a row, the second from where the first ended. */
  lemma Sequence(m: Machine, slots: SlotMap, s: State, c: Config, a: Lowered, first: Outcome, n1: nat, c1: Config,
                 r: Lowered, out: Outcome, n2: nat, c2: Config, fuel: nat)
    returns (n: nat, d: Config)
    requires Simulates(m, slots, s, c, a, first, fuel, n1, c1) && first.Done? && s.nextRegister <= a.state.nextRegister
    requires Simulates(m, slots, a.state, c1, r, out, fuel, n2, c2)
    ensures Simulates(m, slots, s, c, r, out, fuel, n, d)
  {
    n, d := n1 + n2, c2;
    if out.Done? {
      RunOn(m, c, n1, c1, n2);
      KeptTrans(c, c1, c2, s.nextRegister, a.state.nextRegister);
    } else {
      EndsWhole(m, slots, s, c, n1, c1, a.state, r, out, fuel, n2, c2, r);
    }
  }

  lemma AllIsInCode(m: Machine, slots: SlotMap, ss: seq<Stmt>, s: State, last: LlvmValue, scope: set<VariableId>)
    requires ss != [] && LegalAll(ss, scope) && Scoped(s, scope, DefsOfAll(ss)) && ValueBelow(last, s.nextRegister)
    requires Final(m, slots, LowerAll(ss, s, last).state)
    ensures var a := LowerStmt(ss[0], s, last);
      && Final(m, slots, a.state) && ValueBelow(a.value, a.state.nextRegister) && s.nextRegister <= a.state.nextRegister
      && Scoped(a.state, NewScope(ss[0], scope), DefsOfAll(ss[1..]))
  {
    var a := LowerStmt(ss[0], s, last);
    LowerStmtGrows(ss[0], s, last, scope);
    LowerAllGrows(ss[1..], a.state, a.value, NewScope(ss[0], scope));
    FinalBefore(m, slots, a.state, LowerAll(ss, s, last).state, DefsOfAll(ss[1..]));
  }

  lemma {:induction false} StmtSim(m: Machine, slots: SlotMap, st: Stmt, s: State, last: LlvmValue, v: Value,
                                   scope: set<VariableId>, mem: Memory, fuel: nat, c: Config, r: Lowered, out: Outcome)
    returns (n: nat, d: Config)
    requires LegalStmt(st, scope) && Scoped(s, scope, DefsOf(st)) && LastValue(m, s, last, v, c)
    requires Ready(m, slots, s, scope, mem, c) && Final(m, slots, r.state)
    requires r == LowerStmt(st, s, last) && out == EvalStmt(m.alu, Carried, st, v, mem, fuel)
    ensures Simulates(m, slots, s, c, r, out, fuel, n, d)
    ensures out.Done? ==> NewScope(st, scope) <= out.mem.Keys
    decreases fuel, st, 3
  {
    match st {
      case ExprStmt(e) => n, d := Sim(m, slots, e, s, scope, mem, fuel, c);
      case ValDef(_, _) => n, d := ValSim(m, slots, st, s, last, v, scope, mem, fuel, c, r, out);
      case Assignment(_, _) => n, d := AssignSim(m, slots, st, s, last, v, scope, mem, fuel, c, r, out);
      case WhileLoop(_, _) => n, d := WhileSim(m, slots, st, s, last, v, scope, mem, fuel, c, r, out);
    }
  }

  lemma {:induction false} ValSim(m: Machine, slots: SlotMap, st: Stmt, s: State, last: LlvmValue, v: Value,
                                  scope: set<VariableId>, mem: Memory, fuel: nat, c: Config, r: Lowered, out: Outcome)
    returns (n: nat, d: Config)
    requires st.ValDef? && LegalStmt(st, scope) && Scoped(s, scope, DefsOf(st))
    requires Ready(m, slots, s, scope, mem, c) && Final(m, slots, r.state)
    requires r == LowerStmt(st, s, last) && out == EvalStmt(m.alu, Carried, st, v, mem, fuel)
    ensures Simulates(m, slots, s, c, r, out, fuel, n, d)
    decreases fuel, st, 1
  {
    var a, first := Lower(st.initializer, s), Eval(m.alu, Carried, st.initializer, mem, fuel);
    LowerGrows(st.initializer, s, scope);
    DefineVariableGrows(a.state, st.id, ExpectValue(a.value));
    FinalBefore(m, slots, a.state, r.state, {st.id});
    n, d := Sim(m, slots, st.initializer, s, scope, mem, fuel, c);
    if first.Done? {
      n, d := DefineVariableSim(m, slots, s, c, a, first, n, d, st.id, fuel, r);
    }
  }

  /** Allocating a variable and storing its value extends the memory. */
  lemma DefineVariableSim(m: Machine, slots: SlotMap, s: State, c: Config, a: Lowered, first: Outcome, n: nat,
                          d: Config,
                          x: VariableId, fuel: nat, r: Lowered)
    returns (k: nat, f: Config)
    requires Simulates(m, slots, s, c, a, first, fuel, n, d) && first.Done?
    requires r == Lowered(DefineVariable(a.state, x, ExpectValue(a.value)), BasicValue(Const(UnitValue)))
    requires x !in a.state.variables && Final(m, slots, r.state)
    ensures Simulates(m, slots, s, c, r, Done(UnitValue, first.mem[x := first.value]), fuel, k, f)
  {
    var slot := a.state.nextSlot;
    assert r.state.variables[x] == slot;
    f := DefineVariableRun(m, a.state, slot, ExpectValue(a.value), c, n, d, first.value);
    k := n + 2;
    AllocaRepresents(slots, first.mem, d, f, x, first.value);
  }

  lemma DefineVariableRun(m: Machine, s: State, slot: Slot, op: Operand, c: Config, n: nat, d: Config, v: Value)
    returns (f: Config)
    requires Run(m, c, n) == Some(d) && At(d, s) && OperandValue(m, d, op) == Some(v)
    requires Within(Emit(Emit(s, Alloca(slot)), Store(slot, op)), m.code)
    ensures Run(m, c, n + 2) == Some(f) && At(f, Emit(Emit(s, Alloca(slot)), Store(slot, op)))
    ensures f == d.(index := d.index + 2, slots := d.slots[slot := |d.heap|], heap := d.heap + [Some(v)])
  {
    var d1 := AllocaStep(m, s, slot, op, d);
    StoreStep(m, Emit(s, Alloca(slot)), slot, op, d1, v);
    RunStep(m, c, n, d);
    RunStep(m, c, n + 1, d1);
    f := Step(m, d1).config;
  }

  lemma AllocaStep(m: Machine, s: State, slot: Slot, op: Operand, d: Config) returns (f: Config)
    requires At(d, s) && Within(Emit(Emit(s, Alloca(slot)), Store(slot, op)), m.code)
    ensures Step(m, d) == Next(f) && At(f, Emit(s, Alloca(slot)))
    ensures f == d.(index := d.index + 1, slots := d.slots[slot := |d.heap|], heap := d.heap + [None])
  {
    EmitKeeps(Emit(s, Alloca(slot)), Store(slot, op));
    KeepsWithin(Emit(s, Alloca(slot)), Emit(Emit(s, Alloca(slot)), Store(slot, op)), m.code);
    EmittedStep(m, s, Alloca(slot), d);
    f := Step(m, d).config;
  }

  lemma StoreStep(m: Machine, s: State, slot: Slot, op: Operand, d: Config, v: Value)
    requires At(d, s) && Within(Emit(s, Store(slot, op)), m.code) && OperandValue(m, d, op) == Some(v)
    requires slot in d.slots && d.slots[slot] < |d.heap|
    ensures Step(m, d) == Next(d.(index := d.index + 1, heap := d.heap[d.slots[slot] := Some(v)]))
  {
    EmittedStep(m, s, Store(slot, op), d);
  }

  lemma AllocaRepresents(slots: SlotMap, mem: Memory, c: Config, d: Config, x: VariableId, v: Value)
    requires Represents(slots, mem, c) && x in slots && forall y :: y in slots && y != x ==> slots[y] != slots[x]
    requires d.slots == c.slots[slots[x] := |c.heap|] && d.heap == c.heap + [Some(v)]
    ensures Represents(slots, mem[x := v], d)
  {
  }

  lemma {:induction false} AssignSim(m: Machine, slots: SlotMap, st: Stmt, s: State, last: LlvmValue, v: Value,
                                     scope: set<VariableId>, mem: Memory, fuel: nat, c: Config, r: Lowered,
                                     out: Outcome)
    returns (n: nat, d: Config)
    requires st.Assignment? && LegalStmt(st, scope) && Scoped(s, scope, DefsOf(st))
    requires Ready(m, slots, s, scope, mem, c) && Final(m, slots, r.state)
    requires r == LowerStmt(st, s, last) && out == EvalStmt(m.alu, Carried, st, v, mem, fuel)
    ensures Simulates(m, slots, s, c, r, out, fuel, n, d)
    decreases fuel, st, 1
  {
    var a, first := Lower(st.value, s), Eval(m.alu, Carried, st.value, mem, fuel);
    var store := Store(SlotOf(s, st.id), ExpectValue(a.value));
    LowerGrows(st.value, s, scope);
    EmitKeeps(a.state, store);
    FinalBefore(m, slots, a.state, r.state, {});
    n, d := Sim(m, slots, st.value, s, scope, mem, fuel, c);
    if first.Done? {
      n, d := StoreSim(m, slots, s, c, a, first, n, d, st.id, fuel, r);
    }
  }

  lemma StoreSim(m: Machine, slots: SlotMap, s: State, c: Config, a: Lowered, first: Outcome, n: nat, d: Config,
                 x: VariableId, fuel: nat, r: Lowered)
    returns (k: nat, f: Config)
    requires Simulates(m, slots, s, c, a, first, fuel, n, d) && first.Done? && x in first.mem
    requires x in s.variables && slots[x] == SlotOf(s, x)
    requires r == Lowered(Emit(a.state, Store(SlotOf(s, x), ExpectValue(a.value))), BasicValue(Const(UnitValue)))
    requires Within(r.state, m.code)
    ensures Simulates(m, slots, s, c, r, Done(UnitValue, first.mem[x := first.value]), fuel, k, f)
  {
    StoreStep(m, a.state, slots[x], ExpectValue(a.value), d, first.value);
    RunStep(m, c, n, d);
    k, f := n + 1, Step(m, d).config;
    StoreRepresents(slots, first.mem, d, f, x, first.value);
  }

  lemma StoreRepresents(slots: SlotMap, mem: Memory, c: Config, d: Config, x: VariableId, v: Value)
    requires Represents(slots, mem, c) && x in mem
    requires d.slots == c.slots && d.heap == c.heap[c.slots[slots[x]] := Some(v)]
    ensures Represents(slots, mem[x := v], d)
  {
  }

  // ---------- while ----------

  ghost predicate LoopInCode(m: Machine, slots: SlotMap, s: State, a: Lowered, b: Lowered) {
    var n := |s.blocks|;
    && Final(m, slots, a.state) && Final(m, slots, b.state)
    && Within(Emit(AppendBlocks(s), Branch(n)), m.code)
    && Within(Emit(a.state, CondBranch(ExpectValue(a.value), n + 1, n + 2)), m.code)
    && Within(Emit(b.state, Branch(n)), m.code)
  }

  /** Everything the run of a loop needs to know about how it was built. */
  ghost predicate LoopBuilt(m: Machine, slots: SlotMap, st: Stmt, s: State, scope: set<VariableId>,
                            entry: State, a: Lowered, inside: State, b: Lowered, r: Lowered)
    requires st.WhileLoop?
  {
    && LoopShape(s, entry, a, inside, b, r) && LoopInCode(m, slots, s, a, b)
    && a == Lower(st.cond, entry) && Legal(st.cond, scope) && Scoped(entry, scope, Defs(st.cond))
    && b == LowerAll(st.body, inside, BasicValue(Const(UnitValue))) && LegalAll(st.body, scope)
    && Scoped(inside, scope, DefsOfAll(st.body))
  }

  lemma LoopIsInCode(m: Machine, slots: SlotMap, st: Stmt, s: State, last: LlvmValue, scope: set<VariableId>)
    requires st.WhileLoop? && LegalStmt(st, scope) && Scoped(s, scope, DefsOf(st)) && ValueBelow(last, s.nextRegister)
    requires Final(m, slots, LowerStmt(st, s, last).state)
    ensures LoopInCode(m, slots, s, LoopCondition(st, s), LoopBody(st, s))
  {
    var n, a, b := |s.blocks|, LoopCondition(st, s), LoopBody(st, s);
    LoopGrows(st, s, last, scope);
    BranchKeeps(b.state, n, n + 2);
    FinalBefore(m, slots, b.state, LowerStmt(st, s, last).state, {});
    FinalBefore(m, slots, LoopInside(st, s), b.state, DefsOfAll(st.body));
    ForkKeeps(a.state, ExpectValue(a.value), n + 1);
    FinalBefore(m, slots, a.state, LoopInside(st, s), {});
    FinalBefore(m, slots, LoopEntry(s), a.state, Defs(st.cond));
  }

  lemma {:induction false} WhileSim(m: Machine, slots: SlotMap, st: Stmt, s: State, last: LlvmValue, v: Value,
                                    scope: set<VariableId>, mem: Memory, fuel: nat, c: Config, r: Lowered, out: Outcome)
    returns (n: nat, d: Config)
    requires st.WhileLoop? && LegalStmt(st, scope) && Scoped(s, scope, DefsOf(st)) && LastValue(m, s, last, v, c)
    requires Ready(m, slots, s, scope, mem, c) && Final(m, slots, r.state)
    requires r == LowerStmt(st, s, last) && out == EvalStmt(m.alu, Carried, st, v, mem, fuel)
    ensures Simulates(m, slots, s, c, r, out, fuel, n, d)
    decreases fuel, st, 2
  {
    LoopIsShaped(st, s, last, scope);
    LoopIsInCode(m, slots, st, s, last, scope);
    var f := BranchJump(m, c, 0, c, AppendBlocks(s), |s.blocks|);
    RepresentsSame(slots, mem, c, f);
    n, d := LoopSim(m, slots, st, s, last, v, scope, mem, fuel, f, LoopEntry(s), LoopCondition(st, s),
      LoopInside(st, s),
                    LoopBody(st, s), r, out);
    n := Earlier(m, slots, s, c, 1, f, r, out, fuel, fuel, n, d);
  }

  /** A run that goes on from f, reached from c with c's registers, is a run from c. */
  lemma Earlier(m: Machine, slots: SlotMap, s: State, c: Config, n1: nat, f: Config, r: Lowered, out: Outcome,
                inner: nat, fuel: nat, n2: nat, d: Config)
    returns (n: nat)
    requires Run(m, c, n1) == Some(f) && RegistersKept(c, f, s.nextRegister)
    requires Simulates(m, slots, s, f, r, out, inner, n2, d) && fuel <= inner + n1
    ensures Simulates(m, slots, s, c, r, out, fuel, n, d)
  {
    n := n1 + n2;
    RunOn(m, c, n1, f, n2);
    if out.Done? { KeptTrans(c, f, d, s.nextRegister, s.nextRegister); }
  }

  /** One turn of the loop and all that follow, once the test has been true. */
  ghost function LoopTurn(alu: Alu, st: Stmt, v: Value, mem: Memory, fuel: nat): Outcome
    requires st.WhileLoop?
  {
    var once := EvalAll(alu, Carried, st.body, UnitValue, mem, fuel);
    if !once.Done? then once else if fuel == 0 then OutOfFuel else EvalStmt(alu, Carried, st, v, once.mem, fuel - 1)
  }

  /** The loop from its test block. */
  lemma {:induction false} LoopSim(m: Machine, slots: SlotMap, st: Stmt, s: State, last: LlvmValue, v: Value,
                                   scope: set<VariableId>,
                                   mem: Memory, fuel: nat, c: Config, entry: State, a: Lowered, inside: State,
                                   b: Lowered, r: Lowered, out: Outcome)
    returns (n: nat, d: Config)
    requires st.WhileLoop? && LoopBuilt(m, slots, st, s, scope, entry, a, inside, b, r) && r.value == last
    requires Ready(m, slots, entry, scope, mem, c) && LastValue(m, s, last, v, c)
    requires out == EvalStmt(m.alu, Carried, st, v, mem, fuel)
    ensures Simulates(m, slots, s, c, r, out, fuel, n, d)
    decreases fuel, st, 1
  {
    var first := Eval(m.alu, Carried, st.cond, mem, fuel);
    n, d := Sim(m, slots, st.cond, entry, scope, mem, fuel, c);
    SameStart(m, slots, entry, s, c, a, first, fuel, n, d);
    if first.Done? {
      n, d := LoopTest(m, slots, st, s, last, v, scope, fuel, c, first, n, d, entry, a, inside, b, r, out);
    }
  }

  lemma {:induction false} LoopTest(m: Machine, slots: SlotMap, st: Stmt, s: State, last: LlvmValue, v: Value,
                                    scope: set<VariableId>,
                                    fuel: nat, c: Config, first: Outcome, n1: nat, c1: Config,
                                    entry: State, a: Lowered, inside: State, b: Lowered, r: Lowered, out: Outcome)
    returns (n: nat, d: Config)
    requires st.WhileLoop? && LoopBuilt(m, slots, st, s, scope, entry, a, inside, b, r) && r.value == last
    requires Simulates(m, slots, s, c, a, first, fuel, n1, c1) && first.Done?
    requires LastValue(m, s, last, v, c) && scope <= first.mem.Keys
    requires out == if !first.value.BoolValue? then Stuck
                    else if !first.value.b then Done(v, first.mem) else LoopTurn(m.alu, st, v, first.mem, fuel)
    ensures Simulates(m, slots, s, c, r, out, fuel, n, d)
    decreases fuel, st, 0, 2
  {
    var k := |s.blocks|;
    var f := TestJump(m, slots, s, c, a, first, fuel, n1, c1, a.state, k + 1, k + 2);
    if !first.value.BoolValue? { return n1, c1; }
    OperandKept(m, c, f, s.nextRegister, last.operand, v);
    if !first.value.b { return n1 + 1, f; }
    n, d := LoopTurnSim(m, slots, st, s, last, v, scope, fuel, c, first, n1 + 1, f, entry, a, inside, b, r, out);
  }

  lemma {:induction false} LoopTurnSim(m: Machine, slots: SlotMap, st: Stmt, s: State, last: LlvmValue, v: Value,
                                       scope: set<VariableId>,
                                       fuel: nat, c: Config, first: Outcome, n1: nat, f: Config,
                                       entry: State, a: Lowered, inside: State, b: Lowered, r: Lowered, out: Outcome)
    returns (n: nat, d: Config)
    requires st.WhileLoop? && LoopBuilt(m, slots, st, s, scope, entry, a, inside, b, r) && r.value == last
    requires Chosen(m, slots, s, c, first, |s.blocks| + 1, |s.blocks| + 2, n1, f) && first.value.b
    requires LastValue(m, s, last, v, f) && scope <= first.mem.Keys
    requires out == LoopTurn(m.alu, st, v, first.mem, fuel)
    ensures Simulates(m, slots, s, c, r, out, fuel, n, d)
    decreases fuel, st, 0, 1
  {
    var once := EvalAll(m.alu, Carried, st.body, UnitValue, first.mem, fuel);
    var n2, d2 := AllSim(m, slots, st.body, inside, BasicValue(Const(UnitValue)), UnitValue, scope, first.mem, fuel,
      f, b, once);
    n, d := LoopTurnRest(m, slots, st, s, last, v, scope, fuel, c, n1, f, once, n2, d2, entry, a, inside, b, r, out);
  }

  /** What follows once the body has run. */
  lemma {:induction false} LoopTurnRest(m: Machine, slots: SlotMap, st: Stmt, s: State, last: LlvmValue, v: Value,
                                        scope: set<VariableId>,
                                        fuel: nat, c: Config, n1: nat, f: Config, once: Outcome, n2: nat, d2: Config,
                                        entry: State, a: Lowered, inside: State, b: Lowered, r: Lowered, out: Outcome)
    returns (n: nat, d: Config)
    requires st.WhileLoop? && LoopBuilt(m, slots, st, s, scope, entry, a, inside, b, r) && r.value == last
    requires Run(m, c, n1) == Some(f) && RegistersKept(c, f, s.nextRegister) && LastValue(m, s, last, v, f)
    requires Simulates(m, slots, inside, f, b, once, fuel, n2, d2) && (once.Done? ==> scope <= once.mem.Keys)
    requires out == if !once.Done? then once else if fuel == 0 then OutOfFuel
                    else EvalStmt(m.alu, Carried, st, v, once.mem, fuel - 1)
    ensures Simulates(m, slots, s, c, r, out, fuel, n, d)
    decreases fuel, st, 0, 0, 1
  {
    if !once.Done? {
      EndsWhole(m, slots, s, c, n1, f, inside, b, once, fuel, n2, d2, r);
      return n1 + n2, d2;
    }
    var g := LoopBack(m, slots, s, last, v, scope, c, n1, f, entry, a, inside, b, r, once, fuel, n2, d2);
    n, d := LoopAgain(m, slots, st, s, last, v, scope, fuel, c, n1 + n2 + 1, g, once.mem, entry, a, inside, b, r, out);
  }

  lemma {:induction false} LoopAgain(m: Machine, slots: SlotMap, st: Stmt, s: State, last: LlvmValue, v: Value,
                                     scope: set<VariableId>,
                                     fuel: nat, c: Config, n1: nat, g: Config, mem: Memory,
                                     entry: State, a: Lowered, inside: State, b: Lowered, r: Lowered, out: Outcome)
    returns (n: nat, d: Config)
    requires st.WhileLoop? && LoopBuilt(m, slots, st, s, scope, entry, a, inside, b, r) && r.value == last
    requires Run(m, c, n1) == Some(g) && 0 < n1 && RegistersKept(c, g, s.nextRegister)
    requires Ready(m, slots, entry, scope, mem, g) && LastValue(m, s, last, v, g)
    requires out == if fuel == 0 then OutOfFuel else EvalStmt(m.alu, Carried, st, v, mem, fuel - 1)
    ensures Simulates(m, slots, s, c, r, out, fuel, n, d)
    decreases fuel, st, 0, 0, 0
  {
    if fuel == 0 { return n1, g; }
    n, d := LoopSim(m, slots, st, s, last, v, scope, mem, fuel - 1, g, entry, a, inside, b, r, out);
    n := Earlier(m, slots, s, c, n1, g, r, out, fuel - 1, fuel, n, d);
  }

  /** From the end of the body back to the test, where the loop can start over. */
  lemma LoopBack(m: Machine, slots: SlotMap, s: State, last: LlvmValue, v: Value, scope: set<VariableId>, c: Config,
                 n1: nat, f: Config,
                 entry: State, a: Lowered, inside: State, b: Lowered, r: Lowered, once: Outcome, fuel: nat, n2: nat,
                 d: Config)
    returns (g: Config)
    requires Run(m, c, n1) == Some(f) && RegistersKept(c, f, s.nextRegister) && LastValue(m, s, last, v, f)
    requires Simulates(m, slots, inside, f, b, once, fuel, n2, d) && once.Done? && scope <= once.mem.Keys
    requires LoopShape(s, entry, a, inside, b, r) && LoopInCode(m, slots, s, a, b)
    ensures Run(m, c, n1 + n2 + 1) == Some(g) && RegistersKept(c, g, s.nextRegister)
    ensures Ready(m, slots, entry, scope, once.mem, g) && LastValue(m, s, last, v, g)
  {
    RunOn(m, c, n1, f, n2);
    g := BranchJump(m, c, n1 + n2, d, b.state, |s.blocks|);
    RepresentsSame(slots, once.mem, d, g);
    BackKept(m, s, last, v, c, f, inside, d, g);
  }

  lemma BackKept(m: Machine, s: State, last: LlvmValue, v: Value, c: Config, f: Config, inside: State, d: Config,
                 g: Config)
    requires RegistersKept(c, f, s.nextRegister) && LastValue(m, s, last, v, f)
    requires RegistersKept(f, d, inside.nextRegister) && s.nextRegister <= inside.nextRegister && g.regs == d.regs
    ensures RegistersKept(c, g, s.nextRegister) && LastValue(m, s, last, v, g)
  {
    OperandKept(m, f, g, s.nextRegister, last.operand, v);
    KeptTrans(c, f, g, s.nextRegister, inside.nextRegister);
  }
}
