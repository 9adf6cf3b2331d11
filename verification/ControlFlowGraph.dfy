/** Basic blocks and the machine that runs them. */
module ControlFlowGraph {
  import opened Wrappers
  import opened TypedTree

  type Label = nat
  type Register = nat

  /** Names the pointer returned by one alloca instruction. */
  type Slot = nat

  datatype Operand = Const(value: Value) | Local(register: Register) | Argument(index: nat)
  datatype Incoming = Incoming(value: Operand, block: Label)

  datatype Instruction =
    | Alloca(slot: Slot)
    | Load(dst: Register, slot: Slot)
    | Store(slot: Slot, value: Operand)
    | Binary(dst: Register, kind: BinaryOpKind, lhs: Operand, rhs: Operand)
    | OrBits(dst: Register, lhs: Operand, rhs: Operand)
    | Phi(dst: Register, incoming: seq<Incoming>)
    | Branch(target: Label)
    | CondBranch(cond: Operand, onTrue: Label, onFalse: Label)
    | Ret(value: Operand)
    | Unreachable

  type BasicBlock = seq<Instruction>

  predicate IsTerminator(i: Instruction) {
    i.Branch? || i.CondBranch? || i.Ret? || i.Unreachable?
  }

  /** Pointers are heap addresses; every alloca executed makes a new cell. */
  datatype Config = Config(block: Label, index: nat, previous: Label, regs: map<Register, Value>,
                           slots: map<Slot, nat>, heap: seq<Option<Value>>)

  datatype Machine = Machine(alu: Alu, args: seq<Value>, code: seq<BasicBlock>)

  datatype StepResult = Next(config: Config) | Halt(value: Value) | Wrong

  function OperandValue(m: Machine, c: Config, op: Operand): Option<Value> {
    match op
    case Const(v) => Some(v)
    case Local(r) => if r in c.regs then Some(c.regs[r]) else None
    case Argument(i) => if i < |m.args| then Some(m.args[i]) else None
  }

  function FindIncoming(incoming: seq<Incoming>, block: Label): Option<Operand> {
    if incoming == [] then None
    else if incoming[0].block == block then Some(incoming[0].value)
    else FindIncoming(incoming[1..], block)
  }

  function Assign(c: Config, dst: Register, v: Option<Value>): StepResult {
    if v.Some? then Next(c.(index := c.index + 1, regs := c.regs[dst := v.value])) else Wrong
  }

  function Jump(c: Config, target: Label): StepResult {
    Next(c.(block := target, index := 0, previous := c.block))
  }

  function Exec(m: Machine, i: Instruction, c: Config): StepResult {
    match i
    case Alloca(slot) => Next(c.(index := c.index + 1, slots := c.slots[slot := |c.heap|], heap := c.heap + [None]))
    case Load(dst, slot) =>
      if slot in c.slots && c.slots[slot] < |c.heap| then Assign(c, dst, c.heap[c.slots[slot]]) else Wrong
    case Store(slot, op) =>
      var v := OperandValue(m, c, op);
      if v.Some? && slot in c.slots && c.slots[slot] < |c.heap|
      then Next(c.(index := c.index + 1, heap := c.heap[c.slots[slot] := v]))
      else Wrong
    case Binary(dst, kind, lhs, rhs) =>
      var a, b := OperandValue(m, c, lhs), OperandValue(m, c, rhs);
      if a.Some? && b.Some? then Assign(c, dst, m.alu(kind, a.value, b.value)) else Wrong
    case OrBits(dst, lhs, rhs) =>
      var a, b := OperandValue(m, c, lhs), OperandValue(m, c, rhs);
      if a.Some? && b.Some? && a.value.BoolValue? && b.value.BoolValue?
      then Assign(c, dst, Some(BoolValue(a.value.b || b.value.b)))
      else Wrong
    case Phi(dst, incoming) =>
      var op := FindIncoming(incoming, c.previous);
      if op.Some? then Assign(c, dst, OperandValue(m, c, op.value)) else Wrong
    case Branch(target) => Jump(c, target)
    case CondBranch(cond, onTrue, onFalse) =>
      var v := OperandValue(m, c, cond);
      if v.Some? && v.value.BoolValue? then Jump(c, if v.value.b then onTrue else onFalse) else Wrong
    case Ret(op) =>
      var v := OperandValue(m, c, op);
      if v.Some? then Halt(v.value) else Wrong
    case Unreachable => Wrong
  }

  function Step(m: Machine, c: Config): StepResult {
    if c.block < |m.code| && c.index < |m.code[c.block]| then Exec(m, m.code[c.block][c.index], c) else Wrong
  }

  /** The configuration after n steps, if the machine gets that far. */
  function Run(m: Machine, c: Config, n: nat): Option<Config>
    decreases n
  {
    if n == 0 then Some(c)
    else
      var r := Step(m, c);
      if r.Next? then Run(m, r.config, n - 1) else None
  }

  lemma {:induction false} RunOn(m: Machine, c: Config, n: nat, d: Config, k: nat)
    requires Run(m, c, n) == Some(d)
    ensures Run(m, c, n + k) == Run(m, d, k)
    decreases n
  {
    if n > 0 { RunOn(m, Step(m, c).config, n - 1, d, k); }
  }

  lemma RunStep(m: Machine, c: Config, n: nat, d: Config)
    requires Run(m, c, n) == Some(d) && Step(m, d).Next?
    ensures Run(m, c, n + 1) == Some(Step(m, d).config)
  {
    RunOn(m, c, n, d, 1);
    assert Run(m, Step(m, d).config, 0) == Some(Step(m, d).config);
  }

  /** The machine stops after n steps in d. */
  predicate StopsAt(m: Machine, c: Config, n: nat, d: Config) {
    Run(m, c, n) == Some(d) && !Step(m, d).Next?
  }

  /** A machine stops at most once. */
  lemma StopsOnce(m: Machine, c: Config, n: nat, d: Config, k: nat, e: Config)
    requires StopsAt(m, c, n, d) && Run(m, c, k) == Some(e)
    ensures k <= n && (!Step(m, e).Next? ==> k == n && e == d)
  {
    if k > n { RunOn(m, c, n, d, k - n); } else { RunOn(m, c, k, e, n - k); }
  }
}
