/** The compiled match runs the first matching arm and never inspects poison. */
module MatchCompilerCorrect {
  import opened Wrappers
  import opened PatternTypes
  import opened MatchCode
  import opened MatchCompiler

  /** The bindings a pattern describes; a later binding of the same name shadows an earlier one. */
  ghost function BindingsOf(p: Pattern, v: Value): map<Ident, Value>
    requires Matches(p, v)
    decreases p
  {
    match p
    case Variable(name) => map[name := v]
    case EnumPattern(_, _, Some(payload)) => BindingsOf(payload, v.payload.value)
    case StructPattern(fs) => FieldBindings(fs, v)
    case _ => map[]
  }

  ghost function FieldBindings(fs: seq<FieldPattern>, v: Value): map<Ident, Value>
    requires AllMatch(fs, v)
    decreases fs
  {
    if fs == [] then map[]
    else
      var last := fs[|fs| - 1];
      FieldBindings(fs[..|fs| - 1], v) + BindingsOf(last.pattern, Parts(v)[last.index])
  }

  // ---------- environments ----------

  ghost predicate Fresh(env: Env, next: VarId) {
    forall k :: k in env ==> k < next
  }

  ghost predicate Extends(env: Env, larger: Env) {
    forall k :: k in env ==> k in larger && larger[k] == env[k]
  }

  ghost predicate TypedR(r: RVal, t: Ty) {
    r.Good? ==> HasType(r.v, t)
  }

  /** Outside the ids lo..hi, b has everything a has. */
  ghost predicate AgreesOutside(a: Env, b: Env, lo: VarId, hi: VarId) {
    forall k :: k in a && !(lo <= k < hi) ==> k in b && b[k] == a[k]
  }

  /** x has what env has at target and at the ids lo..hi. */
  ghost predicate Covers(env: Env, x: Env, target: VarId, lo: VarId, hi: VarId) {
    forall k :: k in env && (k == target || lo <= k < hi) ==> k in x && x[k] == env[k]
  }

  ghost predicate Describes(scope: map<Ident, VarId>, env: Env, bs: map<Ident, Value>, lo: VarId, hi: VarId) {
    && scope.Keys == bs.Keys
    && forall n :: n in scope ==> lo <= scope[n] < hi && scope[n] in env && env[scope[n]] == Good(bs[n])
  }

  // ---------- the hoisted statements always run ----------

  ghost predicate PreRuns(pre: seq<Stmt>, env: Env, next: VarId, after: VarId) {
    && next <= after
    && Exec(pre, env).Some?
    && Extends(env, Exec(pre, env).value)
    && Fresh(Exec(pre, env).value, after)
  }

  lemma FieldRead(target: VarId, index: nat, env: Env, t: Ty)
    requires target in env && TypedR(env[target], t) && HasFields(t) && index < |FieldsOf(t)|
    ensures Eval(EField(EVar(target), index), env).Some?
    ensures var r := Eval(EField(EVar(target), index), env).value;
      && (env[target].Good? ==> index < |Parts(env[target].v)|)
      && TypedR(r, FieldsOf(t)[index].ty)
      && (env[target].Good? ==> r == Good(Parts(env[target].v)[index]))
  {
    assert Eval(EVar(target), env) == Some(env[target]);
    if env[target].Good? { PartsTyped(env[target].v, t); }
  }

  /** Reading another variant's payload gives poison; copying poison is defined. */
  lemma PayloadRead(target: VarId, index: nat, env: Env, t: Ty)
    requires target in env && TypedR(env[target], t)
    requires HasVariants(t) && index < |t.variants| && t.variants[index].payload.Some?
    ensures Eval(EGetPayload(EVar(target), index), env).Some?
    ensures var r := Eval(EGetPayload(EVar(target), index), env).value;
      && TypedR(r, t.variants[index].payload.value)
      && (env[target].Good? && env[target].v.tag == index ==> r == Good(env[target].v.payload.value))
  {
    assert Eval(EVar(target), env) == Some(env[target]);
  }

  lemma {:induction false} ArmPreRuns(p: Pattern, target: VarId, next: VarId, env: Env, t: Ty)
    requires WellTyped(p, t) && NonEmptyStructs(p)
    requires Fresh(env, next) && target in env && TypedR(env[target], t)
    ensures PreRuns(ArmCode(p, target, next).pre, env, next, ArmCode(p, target, next).next)
    decreases p
  {
    match p {
      case EnumPattern(index, _, payload) =>
        if payload.Some? {
          var def := ValDef(next, EGetPayload(EVar(target), index));
          PayloadRead(target, index, env, t);
          var r := Eval(def.init, env).value;
          ArmPreRuns(payload.value, next, next + 1, env[next := r], t.variants[index].payload.value);
          ExecDef(def, ArmCode(payload.value, next, next + 1).pre, env);
        }
      case StructPattern(fs) =>
        FieldsPreRuns(fs, target, next, env, t);
      case _ =>
    }
  }

  lemma ExecDef(def: Stmt, rest: seq<Stmt>, env: Env)
    requires Eval(def.init, env).Some?
    ensures Exec([def] + rest, env) == Exec(rest, env[def.id := Eval(def.init, env).value])
  {
    assert ([def] + rest)[1..] == rest;
  }

  ghost predicate FieldsTyped(fs: seq<FieldPattern>, t: Ty) {
    && HasFields(t)
    && forall i :: 0 <= i < |fs| ==>
         && NonEmptyStructs(fs[i].pattern)
         && fs[i].index < |FieldsOf(t)|
         && WellTyped(fs[i].pattern, FieldsOf(t)[fs[i].index].ty)
  }

  lemma {:induction false} FieldsPreRuns(fs: seq<FieldPattern>, target: VarId, next: VarId, env: Env, t: Ty)
    requires FieldsTyped(fs, t)
    requires Fresh(env, next) && target in env && TypedR(env[target], t)
    ensures PreRuns(AllFieldsCode(fs, target, next).pre, env, next, AllFieldsCode(fs, target, next).next)
    decreases fs
  {
    if fs != [] {
      var last := fs[|fs| - 1];
      var front := AllFieldsCode(fs[..|fs| - 1], target, next);
      FieldsPreRuns(fs[..|fs| - 1], target, next, env, t);
      var mid := Exec(front.pre, env).value;
      var def := ValDef(front.next, EField(EVar(target), last.index));
      var inner := ArmCode(last.pattern, front.next, front.next + 1);
      FieldRead(target, last.index, mid, t);
      ArmPreRuns(last.pattern, front.next, front.next + 1, mid[front.next := Eval(def.init, mid).value],
                 FieldsOf(t)[last.index].ty);
      ExecDef(def, inner.pre, mid);
      ExecAppend(front.pre, [def] + inner.pre, env);
      assert front.pre + [def] + inner.pre == front.pre + ([def] + inner.pre);
    }
  }

  // ---------- the condition decides, the bindings bind ----------

  ghost predicate BindsRun(binds: seq<Stmt>, scope: map<Ident, VarId>, x: Env, bs: map<Ident, Value>, lo: VarId,
                           hi: VarId) {
    && Exec(binds, x).Some?
    && AgreesOutside(x, Exec(binds, x).value, lo, hi)
    && Describes(scope, Exec(binds, x).value, bs, lo, hi)
  }

  ghost predicate ArmDecided(c: Code, p: Pattern, next: VarId, x: Env, v: Value) {
    && Eval(c.cond, x) == Some(Good(BoolV(Matches(p, v))))
    && (Matches(p, v) ==> BindsRun(c.binds, c.scope, x, BindingsOf(p, v), next, c.next))
  }

  lemma {:induction false} ArmDecides(p: Pattern, target: VarId, next: VarId, env: Env, x: Env, v: Value, t: Ty)
    requires WellTyped(p, t) && NonEmptyStructs(p) && HasType(v, t)
    requires Fresh(env, next) && target in env && env[target] == Good(v)
    requires PreRuns(ArmCode(p, target, next).pre, env, next, ArmCode(p, target, next).next)
    requires Covers(Exec(ArmCode(p, target, next).pre, env).value, x, target, next, ArmCode(p, target, next).next)
    ensures ArmDecided(ArmCode(p, target, next), p, next, x, v)
    decreases p, 1
  {
    match p {
      case Variable(name) =>
        VariableDecided(name, target, next, x, v);
      case EnumPattern(_, _, payload) =>
        if payload.Some? {
          PayloadDecides(p, target, next, env, x, v, t);
        }
      case StructPattern(fs) =>
        StructDecides(p, target, next, env, x, v, t);
      case _ =>
    }
  }

  lemma VariableDecided(name: Ident, target: VarId, next: VarId, x: Env, v: Value)
    requires target in x && x[target] == Good(v)
    ensures ArmDecided(Code([], EBool(true), [ValDef(next, EVar(target))], map[name := next], next + 1),
      Variable(name), next, x, v)
  {
    assert [ValDef(next, EVar(target))][1..] == [];
    assert Exec([ValDef(next, EVar(target))], x) == Some(x[next := x[target]]);
  }

  lemma {:induction false} StructDecides(p: Pattern, target: VarId, next: VarId, env: Env, x: Env, v: Value, t: Ty)
    requires p.StructPattern?
    requires WellTyped(p, t) && NonEmptyStructs(p) && HasType(v, t)
    requires Fresh(env, next) && target in env && env[target] == Good(v)
    requires PreRuns(ArmCode(p, target, next).pre, env, next, ArmCode(p, target, next).next)
    requires Covers(Exec(ArmCode(p, target, next).pre, env).value, x, target, next, ArmCode(p, target, next).next)
    ensures ArmDecided(ArmCode(p, target, next), p, next, x, v)
    decreases p, 0
  {
    var f := AllFieldsCode(p.fields, target, next);
    PartsTyped(v, t);
    FieldsDecide(p.fields, target, next, env, x, v, t, f);
    StructDecided(p.fields, f, next, x, v);
  }

  lemma StructDecided(fs: seq<FieldPattern>, f: FieldsCode, next: VarId, x: Env, v: Value)
    requires HasParts(v) && fs != [] && |f.conds| == |fs| && forall i :: 0 <= i < |fs| ==> fs[i].index < |Parts(v)|
    requires FieldsDecided(f, fs, next, x, v)
    ensures ArmDecided(Code(f.pre, Conjoin(f.conds), f.binds, f.scope, f.next), StructPattern(fs), next, x, v)
  {
    ConjoinDecides(f.conds, x,
      seq(|fs|, i requires 0 <= i < |fs| => Matches(fs[i].pattern, Parts(v)[fs[i].index])));
  }

  lemma {:induction false} PayloadDecides(p: Pattern, target: VarId, next: VarId, env: Env, x: Env, v: Value, t: Ty)
    requires p.EnumPattern? && p.payload.Some?
    requires WellTyped(p, t) && NonEmptyStructs(p) && HasType(v, t)
    requires Fresh(env, next) && target in env && env[target] == Good(v)
    requires PreRuns(ArmCode(p, target, next).pre, env, next, ArmCode(p, target, next).next)
    requires Covers(Exec(ArmCode(p, target, next).pre, env).value, x, target, next, ArmCode(p, target, next).next)
    ensures ArmDecided(ArmCode(p, target, next), p, next, x, v)
    decreases p, 0
  {
    var payload, pt := p.payload.value, t.variants[p.index].payload;
    var def := ValDef(next, EGetPayload(EVar(target), p.index));
    var inner := ArmCode(payload, next, next + 1);
    PayloadRead(target, p.index, env, t);
    var env1 := env[next := Eval(def.init, env).value];
    ExecDef(def, inner.pre, env);
    ArmPreRuns(payload, next, next + 1, env1, pt.value);
    assert target in x && x[target] == Good(v);
    if v.tag == p.index {
      ArmDecides(payload, next, next + 1, env1, x, v.payload.value, pt.value);
    }
    PayloadDecided(p, inner, target, next, x, v);
  }

  lemma PayloadDecided(p: Pattern, inner: Code, target: VarId, next: VarId, x: Env, v: Value)
    requires p.EnumPattern? && p.payload.Some? && v.EnumV? && target in x && x[target] == Good(v)
    requires v.tag == p.index ==> v.payload.Some? && ArmDecided(inner, p.payload.value, next + 1, x, v.payload.value)
    ensures ArmDecided(Code([ValDef(next, EGetPayload(EVar(target), p.index))] + inner.pre,
      EAnd(EIsVariant(EVar(target), p.index), inner.cond), inner.binds, inner.scope, inner.next), p, next, x, v)
  {
    assert Eval(EVar(target), x) == Some(Good(v));
    assert Eval(EIsVariant(EVar(target), p.index), x) == Some(Good(BoolV(v.tag == p.index)));
  }

  lemma {:induction false} ConjoinDecides(conds: seq<TExpr>, x: Env, bs: seq<bool>)
    requires |conds| == |bs| > 0
    requires forall i :: 0 <= i < |conds| ==> Eval(conds[i], x) == Some(Good(BoolV(bs[i])))
    ensures Eval(Conjoin(conds), x) == Some(Good(BoolV(forall i :: 0 <= i < |bs| ==> bs[i])))
    decreases |conds|
  {
    if |conds| > 1 {
      ConjoinDecides(conds[..|conds| - 1], x, bs[..|bs| - 1]);
    }
  }

  ghost predicate AllMatch(fs: seq<FieldPattern>, v: Value) {
    HasParts(v) && forall i :: 0 <= i < |fs| ==>
      fs[i].index < |Parts(v)| && Matches(fs[i].pattern, Parts(v)[fs[i].index])
  }

  ghost predicate FieldsDecided(f: FieldsCode, fs: seq<FieldPattern>, next: VarId, x: Env, v: Value)
    requires HasParts(v) && |f.conds| == |fs| && forall i :: 0 <= i < |fs| ==> fs[i].index < |Parts(v)|
  {
    && (forall i :: 0 <= i < |fs| ==>
         Eval(f.conds[i], x) == Some(Good(BoolV(Matches(fs[i].pattern, Parts(v)[fs[i].index])))))
    && (AllMatch(fs, v) ==> BindsRun(f.binds, f.scope, x, FieldBindings(fs, v), next, f.next))
  }

  lemma {:induction false} FieldsDecide(fs: seq<FieldPattern>, target: VarId, next: VarId, env: Env, x: Env, v: Value,
                                        t: Ty,
                                        r: FieldsCode)
    requires FieldsTyped(fs, t) && HasType(v, t) && r == AllFieldsCode(fs, target, next)
    requires Fresh(env, next) && target in env && env[target] == Good(v)
    requires PreRuns(r.pre, env, next, r.next) && Covers(Exec(r.pre, env).value, x, target, next, r.next)
    ensures FieldsDecided(r, fs, next, x, v)
    decreases fs, 3
  {
    if fs != [] {
      var front, inner := LastCode(fs, target, next, r);
      LastDecides(fs, front, inner, target, next, env, x, v, t, r);
    }
  }

  /** The code of all fields is that of the fields before the last, a read, and that of the last field's pattern. */
  ghost predicate SplitsInto(fs: seq<FieldPattern>, r: FieldsCode, front: FieldsCode, inner: Code, target: VarId)
    requires fs != []
  {
    r == FieldsCode(front.pre + [ValDef(front.next, EField(EVar(target), fs[|fs| - 1].index))] + inner.pre,
                    front.conds + [inner.cond], front.binds + inner.binds, front.scope + inner.scope, inner.next)
  }

  lemma LastCode(fs: seq<FieldPattern>, target: VarId, next: VarId, r: FieldsCode) returns (front: FieldsCode,
                 inner: Code)
    requires fs != [] && forall i :: 0 <= i < |fs| ==> NonEmptyStructs(fs[i].pattern)
    requires r == AllFieldsCode(fs, target, next)
    ensures front == AllFieldsCode(fs[..|fs| - 1], target, next)
    ensures inner == ArmCode(fs[|fs| - 1].pattern, front.next, front.next + 1)
    ensures SplitsInto(fs, r, front, inner, target)
  {
    front := AllFieldsCode(fs[..|fs| - 1], target, next);
    inner := ArmCode(fs[|fs| - 1].pattern, front.next, front.next + 1);
    FieldsCodeStep(fs, |fs| - 1, target, next);
    assert fs[..|fs|] == fs;
  }

  lemma {:induction false} LastDecides(fs: seq<FieldPattern>, front: FieldsCode, inner: Code, target: VarId,
                                       next: VarId,
                                       env: Env, x: Env, v: Value, t: Ty, r: FieldsCode)
    requires fs != [] && FieldsTyped(fs, t) && HasType(v, t)
    requires Fresh(env, next) && target in env && env[target] == Good(v)
    requires front == AllFieldsCode(fs[..|fs| - 1], target, next)
    requires inner == ArmCode(fs[|fs| - 1].pattern, front.next, front.next + 1)
    requires SplitsInto(fs, r, front, inner, target)
    requires PreRuns(r.pre, env, next, r.next) && Covers(Exec(r.pre, env).value, x, target, next, r.next)
    ensures FieldsDecided(r, fs, next, x, v)
    decreases fs, 2
  {
    var env1 := LastFieldBegins(fs, front, inner, target, next, env, x, v, t, r);
    FieldsDecide(fs[..|fs| - 1], target, next, env, x, v, t, front);
    LastFieldDecides(fs, front, inner, target, next, env1, x, v, t, r);
  }

  lemma LastFieldBegins(fs: seq<FieldPattern>, front: FieldsCode, inner: Code, target: VarId, next: VarId,
                        env: Env, x: Env, v: Value, t: Ty, r: FieldsCode)
    returns (env1: Env)
    requires fs != [] && FieldsTyped(fs, t) && HasType(v, t)
    requires Fresh(env, next) && target in env && env[target] == Good(v)
    requires front == AllFieldsCode(fs[..|fs| - 1], target, next)
    requires inner == ArmCode(fs[|fs| - 1].pattern, front.next, front.next + 1)
    requires SplitsInto(fs, r, front, inner, target)
    requires PreRuns(r.pre, env, next, r.next) && Covers(Exec(r.pre, env).value, x, target, next, r.next)
    ensures PreRuns(front.pre, env, next, front.next) && Covers(Exec(front.pre, env).value, x, target, next, front.next)
    ensures LastFieldReady(fs, inner, front.next, env1, x, v)
  {
    FrontTyped(fs, t);
    PartsTyped(v, t);
    FieldsPreRuns(fs[..|fs| - 1], target, next, env, t);
    env1 := LastFieldStarts(fs[|fs| - 1], front.pre, inner, target, next, front.next, env, x, v, t, r.pre);
  }

  lemma FrontTyped(fs: seq<FieldPattern>, t: Ty)
    requires fs != [] && FieldsTyped(fs, t)
    ensures FieldsTyped(fs[..|fs| - 1], t)
    ensures var last := fs[|fs| - 1];
      NonEmptyStructs(last.pattern) && last.index < |FieldsOf(t)| && WellTyped(last.pattern, FieldsOf(t)[last.index].ty)
  {
  }

  lemma {:induction false} LastFieldDecides(fs: seq<FieldPattern>, front: FieldsCode, inner: Code, target: VarId,
                                            next: VarId,
                                            env1: Env, x: Env, v: Value, t: Ty, r: FieldsCode)
    requires fs != [] && FieldsTyped(fs, t) && HasType(v, t)
    requires |front.conds| == |fs| - 1 && next <= front.next && FieldsDecided(front, fs[..|fs| - 1], next, x, v)
    requires inner == ArmCode(fs[|fs| - 1].pattern, front.next, front.next + 1)
    requires SplitsInto(fs, r, front, inner, target)
    requires LastFieldReady(fs, inner, front.next, env1, x, v)
    ensures FieldsDecided(r, fs, next, x, v)
    decreases fs, 1
  {
    var last := fs[|fs| - 1];
    PartsTyped(v, t);
    ArmDecides(last.pattern, front.next, front.next + 1, env1, x, Parts(v)[last.index], FieldsOf(t)[last.index].ty);
    if AllMatch(fs, v) {
      FieldsBind(fs, front, inner, env1, x, v, t, next);
    }
    FieldsDecidedStep(fs, front, inner, target, next, x, v);
  }

  /** env1 holds a field's value under id `at`, and x has all that the code for its pattern hoists. */
  ghost predicate FieldReady(inner: Code, at: VarId, env1: Env, x: Env, part: Value) {
    && Fresh(env1, at + 1)
    && at in env1 && env1[at] == Good(part)
    && PreRuns(inner.pre, env1, at + 1, inner.next)
    && Covers(Exec(inner.pre, env1).value, x, at, at + 1, inner.next)
  }

  ghost predicate LastFieldReady(fs: seq<FieldPattern>, inner: Code, at: VarId, env1: Env, x: Env, v: Value)
    requires fs != []
  {
    fs[|fs| - 1].index < |Parts(v)| && FieldReady(inner, at, env1, x, Parts(v)[fs[|fs| - 1].index])
  }

  lemma FieldsDecidedStep(fs: seq<FieldPattern>, front: FieldsCode, inner: Code, target: VarId, next: VarId, x: Env,
                          v: Value)
    requires HasParts(v) && fs != [] && |front.conds| == |fs| - 1 && forall i :: 0 <= i < |fs| ==>
      fs[i].index < |Parts(v)|
    requires FieldsDecided(front, fs[..|fs| - 1], next, x, v)
    requires Eval(inner.cond, x) ==
      Some(Good(BoolV(Matches(fs[|fs| - 1].pattern, Parts(v)[fs[|fs| - 1].index]))))
    requires AllMatch(fs, v) ==>
      BindsRun(front.binds + inner.binds, front.scope + inner.scope, x, FieldBindings(fs, v), next, inner.next)
    ensures FieldsDecided(
      FieldsCode(front.pre + [ValDef(front.next, EField(EVar(target), fs[|fs| - 1].index))] + inner.pre,
                 front.conds + [inner.cond], front.binds + inner.binds, front.scope + inner.scope, inner.next),
      fs, next, x, v)
  {
    var conds := front.conds + [inner.cond];
    forall i | 0 <= i < |fs|
      ensures Eval(conds[i], x) == Some(Good(BoolV(Matches(fs[i].pattern, Parts(v)[fs[i].index]))))
    {
      if i < |fs| - 1 { assert fs[..|fs| - 1][i] == fs[i]; }
    }
  }

  /** The environment in which the last field's own hoisted statements start. */
  lemma LastFieldStarts(last: FieldPattern, pre: seq<Stmt>, inner: Code, target: VarId, next: VarId, at: VarId,
                        env: Env, x: Env, v: Value, t: Ty,
                        whole: seq<Stmt>)
    returns (env1: Env)
    requires HasFields(t) && HasType(v, t) && NonEmptyStructs(last.pattern) && last.index < |FieldsOf(t)|
    requires WellTyped(last.pattern, FieldsOf(t)[last.index].ty) && HasParts(v) && last.index < |Parts(v)|
    requires target in env && env[target] == Good(v) && PreRuns(pre, env, next, at)
    requires inner == ArmCode(last.pattern, at, at + 1)
    requires whole == pre + [ValDef(at, EField(EVar(target), last.index))] + inner.pre
    requires Exec(whole, env).Some? ==> Covers(Exec(whole, env).value, x, target, next, inner.next)
    ensures Covers(Exec(pre, env).value, x, target, next, at) && FieldReady(inner, at, env1, x, Parts(v)[last.index])
  {
    var mid := Exec(pre, env).value;
    var def := ValDef(at, EField(EVar(target), last.index));
    FieldRead(target, last.index, mid, t);
    env1 := mid[at := Eval(def.init, mid).value];
    ArmPreRuns(last.pattern, at, at + 1, env1, FieldsOf(t)[last.index].ty);
    ExecDef(def, inner.pre, mid);
    ExecAppend(pre, [def] + inner.pre, env);
    AppendAssociates(pre, [def], inner.pre);
    LastFieldCovers(mid, env1, Exec(inner.pre, env1).value, x, target, next, at, inner.next);
  }

  lemma LastFieldCovers(mid: Env, env1: Env, after: Env, x: Env, target: VarId, lo: VarId, at: VarId, hi: VarId)
    requires lo <= at < hi && Extends(mid, env1) && Extends(env1, after) && Covers(after, x, target, lo, hi)
    ensures Covers(mid, x, target, lo, at) && Covers(after, x, at, at + 1, hi)
  {
  }

  /** Running the last field's bindings after the others' keeps both. */
  lemma {:induction false} FieldsBind(fs: seq<FieldPattern>, front: FieldsCode, inner: Code, env1: Env, x: Env,
                                      v: Value, t: Ty,
                                      next: VarId)
    requires fs != [] && FieldsTyped(fs, t) && HasType(v, t) && next <= front.next
    requires AllMatch(fs, v)
    requires inner == ArmCode(fs[|fs| - 1].pattern, front.next, front.next + 1)
    requires LastFieldReady(fs, inner, front.next, env1, x, v)
    requires BindsRun(front.binds, front.scope, x, FieldBindings(fs[..|fs| - 1], v), next, front.next)
    ensures BindsRun(front.binds + inner.binds, front.scope + inner.scope, x, FieldBindings(fs, v), next, inner.next)
    decreases fs, 0
  {
    var last := fs[|fs| - 1];
    FrontTyped(fs, t);
    PartsTyped(v, t);
    LastBinds(last.pattern, Parts(v)[last.index], FieldsOf(t)[last.index].ty, front, inner, env1, x,
              FieldBindings(fs[..|fs| - 1], v), next);
    FieldBindingsStep(fs, v);
  }

  lemma {:induction false} FieldBindingsStep(fs: seq<FieldPattern>, v: Value)
    requires fs != [] && AllMatch(fs, v)
    ensures AllMatch(fs[..|fs| - 1], v)
    ensures FieldBindings(fs, v) ==
      FieldBindings(fs[..|fs| - 1], v) + BindingsOf(fs[|fs| - 1].pattern, Parts(v)[fs[|fs| - 1].index])
  {
    var front := fs[..|fs| - 1];
    assert forall i :: 0 <= i < |front| ==> front[i] == fs[i];
  }

  lemma {:induction false} LastBinds(p: Pattern, part: Value, ty: Ty, front: FieldsCode, inner: Code, env1: Env, x: Env,
                                     bs: map<Ident, Value>, next: VarId)
    requires WellTyped(p, ty) && NonEmptyStructs(p) && HasType(part, ty) && Matches(p, part) && next <= front.next
    requires inner == ArmCode(p, front.next, front.next + 1) && FieldReady(inner, front.next, env1, x, part)
    requires BindsRun(front.binds, front.scope, x, bs, next, front.next)
    ensures BindsRun(front.binds + inner.binds, front.scope + inner.scope, x, bs + BindingsOf(p, part), next,
      inner.next)
    decreases p, 2
  {
    var at, x1 := front.next, Exec(front.binds, x).value;
    CoversLater(Exec(inner.pre, env1).value, x, x1, at, next, inner.next);
    ArmDecides(p, at, at + 1, env1, x1, part, ty);
    BindsCompose(front.binds, inner.binds, front.scope, inner.scope, x, bs, BindingsOf(p, part), next, at, inner.next);
  }

  lemma CoversLater(after: Env, x: Env, x1: Env, at: VarId, lo: VarId, hi: VarId)
    requires lo <= at && Covers(after, x, at, at + 1, hi) && AgreesOutside(x, x1, lo, at)
    ensures Covers(after, x1, at, at + 1, hi)
  {
  }

  lemma BindsCompose(a: seq<Stmt>, b: seq<Stmt>, sa: map<Ident, VarId>, sb: map<Ident, VarId>, x: Env,
                     bsa: map<Ident, Value>, bsb: map<Ident, Value>, lo: VarId, mid: VarId, hi: VarId)
    requires lo <= mid < hi
    requires BindsRun(a, sa, x, bsa, lo, mid) && BindsRun(b, sb, Exec(a, x).value, bsb, mid + 1, hi)
    ensures BindsRun(a + b, sa + sb, x, bsa + bsb, lo, hi)
  {
    ExecAppend(a, b, x);
  }

  // ---------- all arms ----------

  ghost predicate ArmsTyped(arms: seq<Arm>, t: Ty) {
    forall i :: 0 <= i < |arms| ==> WellTyped(arms[i].pattern, t) && NonEmptyStructs(arms[i].pattern)
  }

  lemma {:induction false} CasesPreRuns(arms: seq<Arm>, target: VarId, next: VarId, env: Env, t: Ty)
    requires ArmsTyped(arms, t)
    requires Fresh(env, next) && target in env && TypedR(env[target], t)
    ensures PreRuns(AllPre(CasesCode(arms, target, next).0), env, next, CasesCode(arms, target, next).1)
    decreases |arms|
  {
    if arms != [] {
      var n := |arms| - 1;
      var (front, mid) := CasesCode(arms[..n], target, next);
      CasesPreRuns(arms[..n], target, next, env, t);
      var env1 := Exec(AllPre(front), env).value;
      ArmPreRuns(arms[n].pattern, target, mid, env1, t);
      CasesPreSplit(arms, target, next, env);
    }
  }

  lemma CasesPreSplit(arms: seq<Arm>, target: VarId, next: VarId, env: Env)
    requires arms != [] && forall i :: 0 <= i < |arms| ==> NonEmptyStructs(arms[i].pattern)
    ensures var n := |arms| - 1;
      var front := CasesCode(arms[..n], target, next);
      var c := ArmCode(arms[n].pattern, target, front.1);
      Exec(AllPre(CasesCode(arms, target, next).0), env) ==
        match Exec(AllPre(front.0), env) { case Some(mid) => Exec(c.pre, mid) case None => None }
  {
    var n := |arms| - 1;
    var cases := CasesCode(arms, target, next).0;
    var front := CasesCode(arms[..n], target, next);
    assert cases[..n] == front.0;
    ExecAppend(AllPre(front.0), cases[n].pre, env);
  }

  ghost function GoodMap(bs: map<Ident, Value>): map<Ident, RVal> {
    map n | n in bs :: Good(bs[n])
  }

  /** In the environment left by all hoisted statements, case k behaves as its pattern says. */
  ghost predicate CaseBehaves(c: Case, k: nat, p: Pattern, env: Env, v: Value) {
    && Eval(c.cond, env) == Some(Good(BoolV(Matches(p, v))))
    && (Matches(p, v) ==> RunBlock(c.block, env) == Ran(k, GoodMap(BindingsOf(p, v))))
  }

  /** The hoisted statements of these arms have run on the way to x. */
  ghost predicate HoistedInto(arms: seq<Arm>, target: VarId, next: VarId, env: Env, x: Env)
    requires forall i :: 0 <= i < |arms| ==> NonEmptyStructs(arms[i].pattern)
  {
    var cases := CasesCode(arms, target, next).0;
    Exec(AllPre(cases), env).Some? && Extends(Exec(AllPre(cases), env).value, x)
  }

  /** The first n arms' hoisted statements have run on the way too. */
  lemma {:induction false} HoistedPrefix(arms: seq<Arm>, n: nat, target: VarId, next: VarId, env: Env, x: Env,
                                         v: Value, t: Ty)
    requires ArmsTyped(arms, t) && HasType(v, t) && n <= |arms|
    requires Fresh(env, next) && target in env && env[target] == Good(v) && HoistedInto(arms, target, next, env, x)
    ensures HoistedInto(arms[..n], target, next, env, x)
    decreases |arms|
  {
    if n == |arms| {
      assert arms[..n] == arms;
    } else {
      var front := arms[..|arms| - 1];
      FrontHoisted(arms, target, next, env, x, v, t);
      assert front[..n] == arms[..n];
      HoistedPrefix(front, n, target, next, env, x, v, t);
    }
  }

  /** The first n arms' code is a prefix of the code. */
  lemma {:induction false} CasesPrefix(arms: seq<Arm>, n: nat, target: VarId, next: VarId)
    requires n <= |arms| && forall i :: 0 <= i < |arms| ==> NonEmptyStructs(arms[i].pattern)
    ensures CasesCode(arms[..n], target, next).0 == CasesCode(arms, target, next).0[..n]
    decreases |arms|
  {
    if n == |arms| {
      assert arms[..n] == arms;
    } else {
      var m := |arms| - 1;
      CasesPrefix(arms[..m], n, target, next);
      assert arms[..m][..n] == arms[..n];
      TakeTake(CasesCode(arms, target, next).0, m, n);
    }
  }

  lemma TakeTake<T>(s: seq<T>, m: nat, n: nat)
    requires n <= m <= |s|
    ensures s[..m][..n] == s[..n]
  {
  }

  lemma FrontHoisted(arms: seq<Arm>, target: VarId, next: VarId, env: Env, x: Env, v: Value, t: Ty)
    requires ArmsTyped(arms, t) && HasType(v, t) && arms != []
    requires Fresh(env, next) && target in env && env[target] == Good(v) && HoistedInto(arms, target, next, env, x)
    ensures HoistedInto(arms[..|arms| - 1], target, next, env, x)
  {
    var front, at := LastCaseReady(arms, target, next, env, x, v, t, CasesCode(arms, target, next).0);
  }

  lemma CasesBehave(arms: seq<Arm>, k: nat, target: VarId, next: VarId, env: Env, x: Env, v: Value, t: Ty)
    requires ArmsTyped(arms, t) && HasType(v, t) && k < |arms|
    requires Fresh(env, next) && target in env && env[target] == Good(v) && HoistedInto(arms, target, next, env, x)
    ensures CaseBehaves(CasesCode(arms, target, next).0[k], k, arms[k].pattern, x, v)
  {
    HoistedPrefix(arms, k + 1, target, next, env, x, v, t);
    CasesPrefix(arms, k + 1, target, next);
    LastBehaves(arms[..k + 1], target, next, env, x, v, t);
  }

  lemma LastBehaves(arms: seq<Arm>, target: VarId, next: VarId, env: Env, x: Env, v: Value, t: Ty)
    requires ArmsTyped(arms, t) && HasType(v, t) && arms != []
    requires Fresh(env, next) && target in env && env[target] == Good(v) && HoistedInto(arms, target, next, env, x)
    ensures CaseBehaves(CasesCode(arms, target, next).0[|arms| - 1], |arms| - 1, arms[|arms| - 1].pattern, x, v)
  {
    var n := |arms| - 1;
    var front, at := LastCaseReady(arms, target, next, env, x, v, t, CasesCode(arms, target, next).0);
    LastCaseBehaves(arms[n].pattern, n, target, at, Exec(AllPre(front), env).value, x, v, t);
  }

  lemma LastCaseReady(arms: seq<Arm>, target: VarId, next: VarId, env: Env, x: Env, v: Value, t: Ty, cases: seq<Case>)
    returns (front: seq<Case>, at: VarId)
    requires ArmsTyped(arms, t) && HasType(v, t) && arms != [] && cases == CasesCode(arms, target, next).0
    requires Fresh(env, next) && target in env && env[target] == Good(v)
    requires Exec(AllPre(cases), env).Some? && Extends(Exec(AllPre(cases), env).value, x)
    ensures (front, at) == CasesCode(arms[..|arms| - 1], target, next)
    ensures var c := ArmCode(arms[|arms| - 1].pattern, target, at);
      cases == front + [Case(c.pre, c.cond, Block(c.binds, c.scope, |arms| - 1))]
    ensures Exec(AllPre(front), env).Some? && Extends(Exec(AllPre(front), env).value, x)
    ensures LastArmReady(arms[|arms| - 1].pattern, target, at, Exec(AllPre(front), env).value, x, v)
  {
    var c;
    front, at, c := LastCase(arms, target, next, env, cases);
    FrontRuns(arms, front, c.pre, at, target, next, env, x, v, t);
  }

  lemma LastCase(arms: seq<Arm>, target: VarId, next: VarId, env: Env, cases: seq<Case>)
    returns (front: seq<Case>, at: VarId, c: Code)
    requires arms != [] && (forall i :: 0 <= i < |arms| ==> NonEmptyStructs(arms[i].pattern))
    requires cases == CasesCode(arms, target, next).0
    ensures (front, at) == CasesCode(arms[..|arms| - 1], target, next)
    ensures c == ArmCode(arms[|arms| - 1].pattern, target, at)
    ensures cases == front + [Case(c.pre, c.cond, Block(c.binds, c.scope, |arms| - 1))]
    ensures Exec(AllPre(cases), env) ==
      match Exec(AllPre(front), env) { case Some(mid) => Exec(c.pre, mid) case None => None }
  {
    front, at := CasesCode(arms[..|arms| - 1], target, next).0, CasesCode(arms[..|arms| - 1], target, next).1;
    c := ArmCode(arms[|arms| - 1].pattern, target, at);
    CasesPreSplit(arms, target, next, env);
  }

  /** What the hoisted statements of the arms before the last leave, and that the last arm's run on from there. */
  lemma FrontRuns(arms: seq<Arm>, front: seq<Case>, pre: seq<Stmt>, at: VarId, target: VarId, next: VarId, env: Env,
                  x: Env, v: Value, t: Ty)
    requires ArmsTyped(arms, t) && HasType(v, t) && arms != []
    requires Fresh(env, next) && target in env && env[target] == Good(v)
    requires (front, at) == CasesCode(arms[..|arms| - 1], target, next)
    requires pre == ArmCode(arms[|arms| - 1].pattern, target, at).pre
    requires Exec(AllPre(front), env).Some? ==>
      Exec(pre, Exec(AllPre(front), env).value).Some? ==> Extends(Exec(pre, Exec(AllPre(front), env).value).value, x)
    ensures Exec(AllPre(front), env).Some? && Extends(Exec(AllPre(front), env).value, x)
    ensures LastArmReady(arms[|arms| - 1].pattern, target, at, Exec(AllPre(front), env).value, x, v)
  {
    CasesPreRuns(arms[..|arms| - 1], target, next, env, t);
    ArmPreRuns(arms[|arms| - 1].pattern, target, at, Exec(AllPre(front), env).value, t);
  }

  ghost predicate LastArmReady(p: Pattern, target: VarId, at: VarId, env1: Env, x: Env, v: Value)
    requires NonEmptyStructs(p)
  {
    var c := ArmCode(p, target, at);
    && Fresh(env1, at) && target in env1 && env1[target] == Good(v)
    && PreRuns(c.pre, env1, at, c.next) && Extends(Exec(c.pre, env1).value, x)
  }

  lemma LastCaseBehaves(p: Pattern, k: nat, target: VarId, at: VarId, env1: Env, x: Env, v: Value, t: Ty)
    requires WellTyped(p, t) && NonEmptyStructs(p) && HasType(v, t) && LastArmReady(p, target, at, env1, x, v)
    ensures var c := ArmCode(p, target, at); CaseBehaves(Case(c.pre, c.cond, Block(c.binds, c.scope, k)), k, p, x, v)
  {
    ArmDecides(p, target, at, env1, x, v, t);
    var c := ArmCode(p, target, at);
    if Matches(p, v) { BlockRuns(c.binds, c.scope, k, x, BindingsOf(p, v), at, c.next); }
  }

  lemma BlockRuns(binds: seq<Stmt>, scope: map<Ident, VarId>, k: nat, x: Env, bs: map<Ident, Value>, lo: VarId,
                  hi: VarId)
    requires BindsRun(binds, scope, x, bs, lo, hi)
    ensures RunBlock(Block(binds, scope, k), x) == Ran(k, GoodMap(bs))
  {
    var after := Exec(binds, x).value;
    assert forall n | n in scope :: scope[n] in after;
    assert (map n | n in scope :: after[scope[n]]) == GoodMap(bs);
  }

  /** In env, the cases behave as the patterns say; the first of them is arm `offset`. */
  ghost predicate AllBehave(cases: seq<Case>, ps: seq<Pattern>, offset: nat, env: Env, v: Value) {
    |cases| == |ps| && forall k :: 0 <= k < |cases| ==> CaseBehaves(cases[k], offset + k, ps[k], env, v)
  }

  /** First-match semantics: the first matching arm with its bindings, or the crash call. */
  ghost function FirstMatchOutcome(ps: seq<Pattern>, offset: nat, v: Value): Outcome {
    var i := FirstMatch(ps, v);
    if i == |ps| then Crashed else Ran(offset + i, GoodMap(BindingsOf(ps[i], v)))
  }

  lemma {:induction false} ChainPicksFirst(cases: seq<Case>, ps: seq<Pattern>, offset: nat, env: Env, v: Value)
    requires AllBehave(cases, ps, offset, env, v)
    ensures RunChain(ChainCases(cases), env) == FirstMatchOutcome(ps, offset, v)
    decreases |cases|
  {
    if cases != [] {
      HeadBehaves(cases, ps, offset, env, v);
      ChainStep(cases, env, Matches(ps[0], v));
      FirstMatchStep(ps, offset, v);
      if !Matches(ps[0], v) { ChainPicksFirst(cases[1..], ps[1..], offset + 1, env, v); }
    }
  }

  lemma HeadBehaves(cases: seq<Case>, ps: seq<Pattern>, offset: nat, env: Env, v: Value)
    requires cases != [] && AllBehave(cases, ps, offset, env, v)
    ensures CaseBehaves(cases[0], offset, ps[0], env, v) && AllBehave(cases[1..], ps[1..], offset + 1, env, v)
  {
    assert CaseBehaves(cases[0], offset + 0, ps[0], env, v);
    forall k | 0 <= k < |cases| - 1 ensures CaseBehaves(cases[1..][k], offset + 1 + k, ps[1..][k], env, v) {
      assert CaseBehaves(cases[k + 1], offset + (k + 1), ps[k + 1], env, v);
    }
  }

  /** The head of the chain, whether or not its condition is a literal. */
  lemma ChainStep(cases: seq<Case>, env: Env, taken: bool)
    requires cases != [] && Eval(cases[0].cond, env) == Some(Good(BoolV(taken)))
    ensures RunChain(ChainCases(cases), env) ==
      if taken then RunBlock(cases[0].block, env) else RunChain(ChainCases(cases[1..]), env)
  {
  }

  lemma {:induction false} FirstMatchStep(ps: seq<Pattern>, offset: nat, v: Value)
    requires ps != []
    ensures FirstMatchOutcome(ps, offset, v) ==
      if Matches(ps[0], v) then Ran(offset, GoodMap(BindingsOf(ps[0], v)))
        else FirstMatchOutcome(ps[1..], offset + 1, v)
  {
    FirstMatchHead(ps, v);
    if !Matches(ps[0], v) { FirstMatchLater(ps, offset, v); }
  }

  lemma {:induction false} FirstMatchLater(ps: seq<Pattern>, offset: nat, v: Value)
    requires ps != [] && !Matches(ps[0], v) && FirstMatch(ps, v) == FirstMatch(ps[1..], v) + 1
    ensures FirstMatchOutcome(ps, offset, v) == FirstMatchOutcome(ps[1..], offset + 1, v)
  {
    var i := FirstMatch(ps[1..], v);
    if i < |ps| - 1 { assert ps[1..][i] == ps[i + 1]; }
  }

  lemma {:induction false} FirstMatchHead(ps: seq<Pattern>, v: Value)
    requires ps != []
    ensures FirstMatch(ps, v) == if Matches(ps[0], v) then 0 else FirstMatch(ps[1..], v) + 1
  {
  }

  ghost function PatternsOf(arms: seq<Arm>): (ps: seq<Pattern>)
    ensures |ps| == |arms| && forall i :: 0 <= i < |arms| ==> ps[i] == arms[i].pattern
  {
    seq(|arms|, i requires 0 <= i < |arms| => arms[i].pattern)
  }

  lemma {:induction false} TypedStructsNonEmpty(p: Pattern, t: Ty)
    requires WellTyped(p, t)
    ensures NonEmptyStructs(p)
    decreases p
  {
    match p {
      case EnumPattern(index, _, payload) =>
        if payload.Some? { TypedStructsNonEmpty(payload.value, t.variants[index].payload.value); }
      case StructPattern(fs) =>
        forall i | 0 <= i < |fs| ensures NonEmptyStructs(fs[i].pattern) {
          TypedStructsNonEmpty(fs[i].pattern, FieldsOf(t)[fs[i].index].ty);
        }
      case _ =>
    }
  }

  /** Main result: for every target value the compiled match enters the first arm whose pattern
      matches, with the bindings that pattern describes, or crashes when no arm matches.
      The run is never Undefined, so no poison is ever inspected. */
  lemma CompiledMatchIsFirstMatch(arms: seq<Arm>, next: VarId, v: Value, t: Ty)
    requires arms != [] && HasType(v, t) && forall i :: 0 <= i < |arms| ==> WellTyped(arms[i].pattern, t)
    ensures forall i :: 0 <= i < |arms| ==> NonEmptyStructs(arms[i].pattern)
    ensures RunMatch(MatchCodeFor(arms, next), v) ==
      var i := FirstMatch(PatternsOf(arms), v);
      if i == |arms| then Crashed else Ran(i, GoodMap(BindingsOf(arms[i].pattern, v)))
  {
    forall i | 0 <= i < |arms| ensures NonEmptyStructs(arms[i].pattern) {
      TypedStructsNonEmpty(arms[i].pattern, t);
    }
    var x := MatchEnv(arms, next, v, t);
    CasesRun(arms, CasesCode(arms, next, next + 1).0, PatternsOf(arms), next, v, x);
  }

  lemma CasesRun(arms: seq<Arm>, cases: seq<Case>, ps: seq<Pattern>, target: VarId, v: Value, x: Env)
    requires ps == PatternsOf(arms) && |cases| == |arms| && Exec(AllPre(cases), map[target := Good(v)]) == Some(x)
    requires AllBehave(cases, ps, 0, x, v)
    ensures RunMatch(MatchBlock(target, AllPre(cases), ChainCases(cases)), v) ==
      var i := FirstMatch(ps, v);
      if i == |arms| then Crashed else Ran(i, GoodMap(BindingsOf(arms[i].pattern, v)))
  {
    ChainPicksFirst(cases, ps, 0, x, v);
    MatchRuns(MatchBlock(target, AllPre(cases), ChainCases(cases)), v, x);
  }

  lemma MatchRuns(m: MatchBlock, v: Value, x: Env)
    requires Exec(m.statements, map[m.target := Good(v)]) == Some(x)
    ensures RunMatch(m, v) == RunChain(m.chain, x)
  {
  }

  /** The environment in which the if-chain of a compiled match runs. */
  lemma MatchEnv(arms: seq<Arm>, next: VarId, v: Value, t: Ty) returns (x: Env)
    requires ArmsTyped(arms, t) && HasType(v, t)
    ensures var cases := CasesCode(arms, next, next + 1).0;
      && Exec(AllPre(cases), map[next := Good(v)]) == Some(x)
      && AllBehave(cases, PatternsOf(arms), 0, x, v)
  {
    var env: Env := map[next := Good(v)];
    var cases := CasesCode(arms, next, next + 1).0;
    CasesPreRuns(arms, next, next + 1, env, t);
    x := Exec(AllPre(cases), env).value;
    forall k | 0 <= k < |cases| ensures CaseBehaves(cases[k], 0 + k, PatternsOf(arms)[k], x, v) {
      CasesBehave(arms, k, next, next + 1, env, x, v, t);
    }
  }
}
