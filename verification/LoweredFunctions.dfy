/** Whole functions: the emitted code computes what the tree means, and is well formed. */
module LoweredFunctions {
  import opened Wrappers
  import opened TypedTree
  import opened LoopValues
  import opened TreeTyping
  import opened ControlFlowGraph
  import opened Lowering
  import opened LoweringFrame
  import opened LoweringCorrect
  import opened LoweringWellFormed

  /** Parameters are distinct variables, and the body is legal with them in scope. */
  ghost predicate LegalFunction(params: seq<VariableId>, body: seq<Stmt>) {
    && (forall i, j :: 0 <= i < j < |params| ==> params[i] != params[j])
    && LegalAll(body, ParamSet(params, |params|)) && ParamSet(params, |params|) !! DefsOfAll(body)
  }

  ghost function ParamSet(params: seq<VariableId>, n: nat): set<VariableId>
    requires n <= |params|
  {
    set i | 0 <= i < n :: params[i]
  }

  /** The first n parameters with their arguments. */
  ghost function ParamMemory(params: seq<VariableId>, args: seq<Value>, n: nat): (r: Memory)
    requires n <= |params| == |args|
    ensures r.Keys == ParamSet(params, n)
  {
    if n == 0 then map[] else ParamMemory(params, args, n - 1)[params[n - 1] := args[n - 1]]
  }

  /** What calling the function means. */
  ghost function Meaning(alu: Alu, loops: LoopValue, params: seq<VariableId>, body: seq<Stmt>, args: seq<Value>,
                         fuel: nat): Outcome
    requires |params| == |args|
  {
    EvalAll(alu, loops, body, UnitValue, ParamMemory(params, args, |params|), fuel)
  }

  ghost function Compiled(alu: Alu, params: seq<VariableId>, body: seq<Stmt>, args: seq<Value>): Machine {
    Machine(alu, args, LowerFunction(params, body).blocks)
  }

  function Start(): Config {
    Config(0, 0, 0, map[], map[], [])
  }

  // ---------- parameters ----------

  lemma {:induction false} ParamsKeep(params: seq<VariableId>, from: nat, s: State)
    requires from <= |params|
    ensures Keeps(s, LowerParams(params, from, s)) && LowerParams(params, from, s).insertBlock == s.insertBlock
    decreases |params| - from
  {
    if from < |params| {
      var t := DefineVariable(s, params[from], Argument(from));
      DefineVariableKeeps(s, params[from], Argument(from));
      ParamsKeep(params, from + 1, t);
      KeepsTrans(s, t, LowerParams(params, from + 1, t));
    }
  }

  lemma DefineVariableKeeps(s: State, x: VariableId, op: Operand)
    ensures Keeps(s, DefineVariable(s, x, op))
  {
    var t := Emit(s, Alloca(s.nextSlot));
    EmitKeeps(s, Alloca(s.nextSlot));
    EmitKeeps(t, Store(s.nextSlot, op));
    KeepsTrans(s, t, Emit(t, Store(s.nextSlot, op)));
  }

  lemma {:induction false} ParamsGrow(params: seq<VariableId>, from: nat, s: State)
    requires from <= |params| && (forall i, j :: 0 <= i < j < |params| ==> params[i] != params[j])
    requires s.variables.Keys == ParamSet(params, from)
    ensures LowerParams(params, from, s).variables.Keys == ParamSet(params, |params|)
    ensures forall x :: x in s.variables ==> LowerParams(params, from, s).variables[x] == s.variables[x]
    decreases |params| - from
  {
    if from < |params| {
      var t := DefineVariable(s, params[from], Argument(from));
      assert ParamSet(params, from + 1) == ParamSet(params, from) + {params[from]};
      ParamsGrow(params, from + 1, t);
    }
  }

  lemma {:induction false} ParamsSlots(params: seq<VariableId>, from: nat, s: State)
    requires from <= |params| && DistinctSlots(s)
    ensures DistinctSlots(LowerParams(params, from, s))
    decreases |params| - from
  {
    if from < |params| { ParamsSlots(params, from + 1, DefineVariable(s, params[from], Argument(from))); }
  }

  lemma {:induction false} ParamsSim(m: Machine, slots: SlotMap, params: seq<VariableId>, from: nat, s: State,
                                     c: Config)
    returns (n: nat, d: Config)
    requires from <= |params| == |m.args| && (forall i, j :: 0 <= i < j < |params| ==> params[i] != params[j])
    requires s.variables.Keys == ParamSet(params, from) && At(c, s)
    requires Represents(slots, ParamMemory(params, m.args, from), c)
    requires Final(m, slots, LowerParams(params, from, s))
    ensures Run(m, c, n) == Some(d) && At(d, LowerParams(params, from, s))
    ensures Represents(slots, ParamMemory(params, m.args, |params|), d)
    decreases |params| - from, 1
  {
    if from == |params| {
      n, d := 0, c;
    } else {
      var t := DefineVariable(s, params[from], Argument(from));
      OneParamFinal(m, slots, params, from, s, t);
      n, d := ParamsFrom(m, slots, params, from, s, t, c);
    }
  }

  lemma {:induction false} ParamsFrom(m: Machine, slots: SlotMap, params: seq<VariableId>, from: nat, s: State,
                                      t: State, c: Config)
    returns (n: nat, d: Config)
    requires from < |params| == |m.args| && (forall i, j :: 0 <= i < j < |params| ==> params[i] != params[j])
    requires At(c, s) && Represents(slots, ParamMemory(params, m.args, from), c)
    requires t == DefineVariable(s, params[from], Argument(from)) && t.variables.Keys == ParamSet(params, from + 1)
    requires Final(m, slots, t) && Final(m, slots, LowerParams(params, from + 1, t))
    ensures Run(m, c, n) == Some(d) && At(d, LowerParams(params, from + 1, t))
    ensures Represents(slots, ParamMemory(params, m.args, |params|), d)
    decreases |params| - from, 0
  {
    var f := OneParamSim(m, slots, params, from, s, t, c);
    var k;
    k, d := ParamsSim(m, slots, params, from + 1, t, f);
    RunOn(m, c, 2, f, k);
    n := 2 + k;
  }

  lemma OneParamFinal(m: Machine, slots: SlotMap, params: seq<VariableId>, from: nat, s: State, t: State)
    requires from < |params| && (forall i, j :: 0 <= i < j < |params| ==> params[i] != params[j])
    requires s.variables.Keys == ParamSet(params, from) && t == DefineVariable(s, params[from], Argument(from))
    requires Final(m, slots, LowerParams(params, from, s))
    ensures Final(m, slots, t) && t.variables.Keys == ParamSet(params, from + 1)
    ensures LowerParams(params, from, s) == LowerParams(params, from + 1, t)
  {
    assert ParamSet(params, from + 1) == ParamSet(params, from) + {params[from]};
    ParamsGrow(params, from + 1, t);
    ParamsKeep(params, from + 1, t);
    FinalIfKept(m, slots, t, LowerParams(params, from + 1, t));
  }

  lemma FinalIfKept(m: Machine, slots: SlotMap, t: State, last: State)
    requires Keeps(t, last) && Final(m, slots, last)
    requires forall x :: x in t.variables ==> x in last.variables && last.variables[x] == t.variables[x]
    ensures Final(m, slots, t)
  {
    KeepsWithin(t, last, m.code);
  }

  lemma OneParamSim(m: Machine, slots: SlotMap, params: seq<VariableId>, from: nat, s: State, t: State, c: Config)
    returns (f: Config)
    requires from < |params| == |m.args| && t == DefineVariable(s, params[from], Argument(from)) && Final(m, slots, t)
    requires At(c, s) && Represents(slots, ParamMemory(params, m.args, from), c)
    ensures Run(m, c, 2) == Some(f) && At(f, t) && Represents(slots, ParamMemory(params, m.args, from + 1), f)
  {
    var x, v := params[from], m.args[from];
    f := DefineVariableRun(m, s, s.nextSlot, Argument(from), c, 0, c, v);
    assert t.variables[x] == s.nextSlot;
    AllocaRepresents(slots, ParamMemory(params, m.args, from), c, f, x, v);
  }

  // ---------- the run of a function ----------

  ghost function AfterParams(params: seq<VariableId>): State {
    LowerParams(params, 0, Entry())
  }

  ghost function BodyOf(params: seq<VariableId>, body: seq<Stmt>): Lowered {
    LowerAll(body, AfterParams(params), BasicValue(Const(UnitValue)))
  }

  lemma {:induction false} ParamsWell(params: seq<VariableId>, from: nat, s: State)
    requires from <= |params| && (forall i, j :: 0 <= i < j < |params| ==> params[i] != params[j])
    requires s.variables.Keys == ParamSet(params, from) && Stage(Entry(), s, {s.insertBlock}) && s.insertBlock == 0
    ensures var r := LowerParams(params, from, s); r.insertBlock == 0 && Stage(Entry(), r, {r.insertBlock})
    decreases |params| - from
  {
    if from < |params| {
      var t := DefineVariable(s, params[from], Argument(from));
      DefineVariableWell(Entry(), s, params[from], Argument(from));
      DefineVariableGrows(s, params[from], Argument(from));
      KeepsTrans(Entry(), s, t);
      assert ParamSet(params, from + 1) == ParamSet(params, from) + {params[from]};
      ParamsWell(params, from + 1, t);
    }
  }

  lemma EntryGood()
    ensures Good(Entry()) && Open(Entry().blocks[0])
  {
  }

  lemma BodyWell(params: seq<VariableId>, body: seq<Stmt>)
    requires LegalFunction(params, body)
    ensures var s, b := AfterParams(params), BodyOf(params, body);
      && Good(s) && Open(s.blocks[0]) && |s.blocks| == 1 && s.insertBlock == 0
        && s.variables.Keys == ParamSet(params, |params|)
      && Ended(s, b) && Grows(s, b.state, DefsOfAll(body)) && DistinctSlots(b.state)
  {
    EntryGood();
    StartStage(Entry());
    ParamsWell(params, 0, Entry());
    ParamsGrow(params, 0, Entry());
    ParamsSlots(params, 0, Entry());
    ParamsOneBlock(params, 0, Entry());
    LowerAllWell(body, AfterParams(params), BasicValue(Const(UnitValue)), ParamSet(params, |params|));
    LowerAllGrows(body, AfterParams(params), BasicValue(Const(UnitValue)), ParamSet(params, |params|));
    LowerAllSlots(body, AfterParams(params), BasicValue(Const(UnitValue)));
  }

  lemma {:induction false} ParamsOneBlock(params: seq<VariableId>, from: nat, s: State)
    requires from <= |params|
    ensures |LowerParams(params, from, s).blocks| == |s.blocks|
    decreases |params| - from
  {
    if from < |params| { ParamsOneBlock(params, from + 1, DefineVariable(s, params[from], Argument(from))); }
  }

  /** Main result on shape: in the code of a function every block has exactly one terminator, at its end, and every
      phi comes first in its block and lists exactly the blocks that jump there. */
  lemma FunctionIsWellFormed(params: seq<VariableId>, body: seq<Stmt>)
    requires LegalFunction(params, body)
    ensures var code := LowerFunction(params, body).blocks;
      forall l :: 0 <= l < |code| ==> Closed(code[l]) && PhiOk(code, l)
  {
    var s, b := AfterParams(params), BodyOf(params, body);
    BodyWell(params, body);
    FinishWell(s, b);
  }

  lemma FinishWell(s: State, b: Lowered)
    requires |s.blocks| == 1 && s.insertBlock == 0 && Ended(s, b) && Keeps(s, b.state)
    ensures b.value.BasicValue? ==> Finish(b) == Emit(b.state, Ret(b.value.operand))
    ensures forall l :: 0 <= l < |Finish(b).blocks| ==> Closed(Finish(b).blocks[l]) && PhiOk(Finish(b).blocks, l)
  {
    if b.value.Never? {
      assert Finish(b) == b.state;
    } else {
      WellClose(s, b.state, Ret(b.value.operand), b.state.insertBlock, {b.state.insertBlock});
      assert PositionAtEnd(Emit(b.state, Ret(b.value.operand)), b.state.insertBlock) ==
        Emit(b.state, Ret(b.value.operand));
    }
  }

  /** What the machine does with a function whose meaning is out. */
  ghost predicate Performs(m: Machine, out: Outcome, fuel: nat, n: nat, d: Config) {
    && Run(m, Start(), n) == Some(d)
    && match out
       case Done(v, _) => Step(m, d) == Halt(v)
       case Returned(v, _) => Step(m, d) == Halt(v)
       case Stuck => Step(m, d) == Wrong
       case OutOfFuel => n >= fuel
  }

  lemma FunctionRuns(alu: Alu, params: seq<VariableId>, body: seq<Stmt>, args: seq<Value>, fuel: nat)
    returns (n: nat, d: Config)
    requires LegalFunction(params, body) && |args| == |params|
    ensures Performs(Compiled(alu, params, body, args), Meaning(alu, Carried, params, body, args, fuel), fuel, n, d)
  {
    var m, s, b := Compiled(alu, params, body, args), AfterParams(params), BodyOf(params, body);
    var slots, out := b.state.variables, Meaning(alu, Carried, params, body, args, fuel);
    BodyWell(params, body);
    FinishWell(s, b);
    FunctionFinal(m, params, body, s, b);
    var n1, c1 := ParamsSim(m, slots, params, 0, Entry(), Start());
    var n2, d2 := AllSim(m, slots, body, s, BasicValue(Const(UnitValue)), UnitValue, ParamSet(params, |params|),
                         ParamMemory(params, args, |params|), fuel, c1, b, out);
    n, d := FunctionEnds(m, slots, s, Start(), n1, c1, b, out, fuel, n2, d2);
  }

  lemma FunctionFinal(m: Machine, params: seq<VariableId>, body: seq<Stmt>, s: State, b: Lowered)
    requires LegalFunction(params, body) && s == AfterParams(params) && b == BodyOf(params, body)
    requires m.code == LowerFunction(params, body).blocks && Grows(s, b.state, DefsOfAll(body))
    requires DistinctSlots(b.state)
    ensures Final(m, b.state.variables, b.state) && Final(m, b.state.variables, s)
  {
    if Finish(b) != b.state {
      EmitKeeps(b.state, if b.value.BasicValue? then Ret(b.value.operand) else Unreachable);
      KeepsWithin(b.state, Finish(b), m.code);
    }
    FinalBefore(m, b.state.variables, s, b.state, DefsOfAll(body));
  }

  lemma FunctionEnds(m: Machine, slots: SlotMap, s: State, c: Config, n1: nat, c1: Config, b: Lowered, out: Outcome,
                     fuel: nat,
                     n2: nat, d: Config)
    returns (n: nat, e: Config)
    requires c == Start() && Run(m, c, n1) == Some(c1) && Simulates(m, slots, s, c1, b, out, fuel, n2, d)
    requires b.value.BasicValue? ==> Within(Emit(b.state, Ret(b.value.operand)), m.code)
    ensures Performs(m, out, fuel, n, e)
  {
    n, e := n1 + n2, d;
    RunOn(m, c, n1, c1, n2);
    if out.Done? { EmittedStep(m, b.state, Ret(b.value.operand), d); }
  }

  // ---------- the main results ----------

  /** The outcome of the tree that corresponds to the way the machine stopped. */
  ghost predicate Corresponds(out: Outcome, r: StepResult) {
    match r
    case Halt(v) => (out.Done? || out.Returned?) && out.value == v
    case Wrong => out.Stuck?
    case Next(_) => false
  }

  ghost predicate StopsWith(m: Machine, n: nat, r: StepResult) {
    Run(m, Start(), n).Some? && Step(m, Run(m, Start(), n).value) == r && !r.Next?
  }

  /** Main result on meaning: the machine stops with a value, or goes wrong, exactly when the tree does. */
  lemma LoweringPreservesMeaning(alu: Alu, params: seq<VariableId>, body: seq<Stmt>, args: seq<Value>, r: StepResult)
    requires LegalFunction(params, body) && |args| == |params|
    ensures (exists n: nat :: StopsWith(Compiled(alu, params, body, args), n, r))
      <==> exists fuel: nat :: Corresponds(Meaning(alu, Carried, params, body, args, fuel), r)
  {
    var m := Compiled(alu, params, body, args);
    if fuel: nat :| Corresponds(Meaning(alu, Carried, params, body, args, fuel), r) {
      var n, d := FunctionRuns(alu, params, body, args, fuel);
      assert StopsWith(m, n, r);
    }
    if n: nat :| StopsWith(m, n, r) {
      var k, d := FunctionRuns(alu, params, body, args, n + 1);
      StopsOnce(m, Start(), n, Run(m, Start(), n).value, k, d);
      assert Corresponds(Meaning(alu, Carried, params, body, args, n + 1), r);
    }
  }

  ghost predicate RunsForever(m: Machine) {
    forall n: nat :: Run(m, Start(), n).Some?
  }

  ghost predicate NeverEnds(alu: Alu, params: seq<VariableId>, body: seq<Stmt>, args: seq<Value>)
    requires |params| == |args|
  {
    forall fuel: nat :: Meaning(alu, Carried, params, body, args, fuel).OutOfFuel?
  }

  /** The machine runs forever exactly when the tree's evaluation does not end. */
  lemma LoweringPreservesDivergence(alu: Alu, params: seq<VariableId>, body: seq<Stmt>, args: seq<Value>)
    requires LegalFunction(params, body) && |args| == |params|
    ensures RunsForever(Compiled(alu, params, body, args)) <==> NeverEnds(alu, params, body, args)
  {
    var m := Compiled(alu, params, body, args);
    if RunsForever(m) {
      forall fuel: nat ensures Meaning(alu, Carried, params, body, args, fuel).OutOfFuel? {
        var n, d := FunctionRuns(alu, params, body, args, fuel);
        assert Run(m, Start(), n + 1).Some?;
        RunOn(m, Start(), n, d, 1);
      }
    }
    if NeverEnds(alu, params, body, args) {
      forall n: nat ensures Run(m, Start(), n).Some? {
        var k, d := FunctionRuns(alu, params, body, args, n);
        RunPrefix(m, Start(), n, k);
      }
    }
  }

  lemma {:induction false} RunPrefix(m: Machine, c: Config, n: nat, k: nat)
    requires n <= k && Run(m, c, k).Some?
    ensures Run(m, c, n).Some?
    decreases n
  {
    if n > 0 { RunPrefix(m, Step(m, c).config, n - 1, k - 1); }
  }

  // ---------- the types' reading of loops ----------

  ghost function ParamEnv(params: seq<VariableId>, types: seq<Ty>, n: nat): TypeEnv
    requires n <= |params| == |types|
  {
    if n == 0 then map[] else ParamEnv(params, types, n - 1)[params[n - 1] := types[n - 1]]
  }

  /** The arguments have the types of the parameters, and the body type checks. */
  ghost predicate TypedCall(params: seq<VariableId>, types: seq<Ty>, body: seq<Stmt>, args: seq<Value>) {
    && |types| == |params| == |args| && (forall k :: 0 <= k < |args| ==> TypeOfValue(args[k]) == types[k])
    && BlockType(body, ParamEnv(params, types, |params|), UnitTy).Some?
  }

  lemma {:induction false} ParamMemoryOk(params: seq<VariableId>, types: seq<Ty>, args: seq<Value>, n: nat)
    requires n <= |params| == |types| == |args| && forall k :: 0 <= k < |args| ==> TypeOfValue(args[k]) == types[k]
    ensures MemoryOk(ParamEnv(params, types, n), ParamMemory(params, args, n))
    decreases n
  {
    if n > 0 { ParamMemoryOk(params, types, args, n - 1); }
  }

  /** A function in whose blocks loops at the end come after unit does what its types say, however it ends. */
  lemma SettledFunctionsKeepTheirMeaning(alu: Alu, params: seq<VariableId>, types: seq<Ty>, body: seq<Stmt>,
                                         args: seq<Value>,
                                         r: StepResult)
    requires LegalFunction(params, body) && TypedAlu(alu) && TypedCall(params, types, body, args)
    requires Settled(Block(body), ParamEnv(params, types, |params|))
    ensures (exists n: nat :: StopsWith(Compiled(alu, params, body, args), n, r))
      <==> exists fuel: nat :: Corresponds(Meaning(alu, Fresh, params, body, args, fuel), r)
  {
    ParamMemoryOk(params, types, args, |params|);
    forall fuel: nat
      ensures Meaning(alu, Fresh, params, body, args, fuel) == Meaning(alu, Carried, params, body, args, fuel)
    {
      BlockAgreesExactlyWhen(alu, body, ParamEnv(params, types, |params|), UnitValue,
        ParamMemory(params, args, |params|), fuel);
    }
    LoweringPreservesMeaning(alu, params, body, args, r);
    if fuel: nat :| Corresponds(Meaning(alu, Fresh, params, body, args, fuel), r) {
      assert Corresponds(Meaning(alu, Carried, params, body, args, fuel), r);
    }
  }

  /** A call that reaches the end of a body of settled statements yields the value its types say exactly when the
      body's last statement that is no loop has type unit or is absent, or the body does not end in a loop. */
  lemma CompletedCallAgreesExactlyWhen(alu: Alu, params: seq<VariableId>, types: seq<Ty>, body: seq<Stmt>,
                                       args: seq<Value>,
                                       fuel: nat)
    requires LegalFunction(params, body) && TypedAlu(alu) && TypedCall(params, types, body, args)
    requires SettledParts(body, ParamEnv(params, types, |params|), UnitTy)
    requires Meaning(alu, Carried, params, body, args, fuel).Done?
    ensures Meaning(alu, Fresh, params, body, args, fuel).Done?
    ensures (exists n: nat :: StopsWith(Compiled(alu, params, body, args), n,
      Halt(Meaning(alu, Fresh, params, body, args, fuel).value)))
      <==> LoopsAfterUnit(body, ParamEnv(params, types, |params|), UnitTy)
  {
    var env, mem := ParamEnv(params, types, |params|), ParamMemory(params, args, |params|);
    var m, emitted := Compiled(alu, params, body, args), Meaning(alu, Carried, params, body, args, fuel);
    ParamMemoryOk(params, types, args, |params|);
    BlockAgreesExactlyWhen(alu, body, env, UnitValue, mem, fuel);
    PartsSame(alu, body, env, UnitValue, UnitValue, mem, fuel);
    var k, d := FunctionRuns(alu, params, body, args, fuel);
    assert StopsWith(m, k, Halt(emitted.value));
    forall n: nat, v | StopsWith(m, n, Halt(v)) ensures v == emitted.value {
      StopsOnce(m, Start(), k, d, n, Run(m, Start(), n).value);
    }
  }

  /** The function whose body is { true; while false {} } has type unit, but its code returns true. */
  lemma CarriedLoopValue(alu: Alu)
    ensures LegalFunction([], TrueThenLoop()) && TypeOf(Block(TrueThenLoop()), map[]) == Some(UnitTy)
    ensures forall fuel: nat :: Meaning(alu, Fresh, [], TrueThenLoop(), [], fuel) == Done(UnitValue, map[])
    ensures exists n: nat :: StopsWith(Compiled(alu, [], TrueThenLoop(), []), n, Halt(BoolValue(true)))
  {
    TrueThenLoopIsUnit();
    assert ParamSet([], 0) == {};
    forall fuel: nat ensures Meaning(alu, Fresh, [], TrueThenLoop(), [], fuel) == Done(UnitValue, map[]) {
      TrueThenLoopValue(alu, Fresh, map[], fuel);
    }
    TrueThenLoopValue(alu, Carried, map[], 0);
    var n, d := FunctionRuns(alu, [], TrueThenLoop(), [], 0);
    assert StopsWith(Compiled(alu, [], TrueThenLoop(), []), n, Halt(BoolValue(true)));
  }
}
