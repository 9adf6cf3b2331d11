/** The variables of a compiled match, those of the arms' own expressions included, all have ids of their own. */
module MatchVariables {
  import opened PatternTypes
  import opened MatchCode
  import opened MatchCompiler

  /** How often statements define an id. */
  function Times(stmts: seq<Stmt>, id: VarId): nat {
    if stmts == [] then 0 else Times(stmts[..|stmts| - 1], id) + if stmts[|stmts| - 1].id == id then 1 else 0
  }

  /** How often an id is handed out while the next free id moves from one number to another. */
  function HandedOut(id: VarId, from: VarId, end: VarId): nat {
    if from <= id < end then 1 else 0
  }

  lemma {:induction false} TimesAppend(a: seq<Stmt>, b: seq<Stmt>, id: VarId)
    ensures Times(a + b, id) == Times(a, id) + Times(b, id)
    decreases |b|
  {
    if b == [] {
      assert a + b == a;
    } else {
      assert (a + b)[..|a + b| - 1] == a + b[..|b| - 1];
      TimesAppend(a, b[..|b| - 1], id);
    }
  }

  // ---------- one arm ----------

  /** The hoisted reads and the bindings together define each id handed out for the pattern once. */
  lemma {:induction false} ArmDefinesOnce(p: Pattern, target: VarId, next: VarId, id: VarId)
    requires NonEmptyStructs(p)
    ensures var c := ArmCode(p, target, next);
      next <= c.next && Times(c.pre, id) + Times(c.binds, id) == HandedOut(id, next, c.next)
    decreases p
  {
    match p {
      case EnumPattern(index, _, Some(payload)) =>
        var read := ValDef(next, EGetPayload(EVar(target), index));
        ArmDefinesOnce(payload, next, next + 1, id);
        TimesAppend([read], ArmCode(payload, next, next + 1).pre, id);
      case StructPattern(fs) => FieldsDefineOnce(fs, target, next, id);
      case _ =>
    }
  }

  lemma {:induction false} FieldsDefineOnce(fs: seq<FieldPattern>, target: VarId, next: VarId, id: VarId)
    requires forall i :: 0 <= i < |fs| ==> NonEmptyStructs(fs[i].pattern)
    ensures var f := AllFieldsCode(fs, target, next);
      next <= f.next && Times(f.pre, id) + Times(f.binds, id) == HandedOut(id, next, f.next)
    decreases fs
  {
    if fs != [] {
      var n := |fs| - 1;
      var front := AllFieldsCode(fs[..n], target, next);
      var inner := ArmCode(fs[n].pattern, front.next, front.next + 1);
      var read := ValDef(front.next, EField(EVar(target), fs[n].index));
      FieldsDefineOnce(fs[..n], target, next, id);
      ArmDefinesOnce(fs[n].pattern, front.next, front.next + 1, id);
      OneMoreField(front, read, inner, next, id);
    }
  }

  /** The ids of the fields so far, of the next field's read, and of its pattern follow each other. */
  lemma {:induction false} OneMoreField(front: FieldsCode, read: Stmt, inner: Code, next: VarId, id: VarId)
    requires next <= front.next == read.id < inner.next
    requires Times(front.pre, id) + Times(front.binds, id) == HandedOut(id, next, front.next)
    requires Times(inner.pre, id) + Times(inner.binds, id) == HandedOut(id, front.next + 1, inner.next)
    ensures Times(front.pre + [read] + inner.pre, id) + Times(front.binds + inner.binds, id) ==
      HandedOut(id, next, inner.next)
  {
    TimesAppend(front.pre, [read], id);
    TimesAppend(front.pre + [read], inner.pre, id);
    TimesAppend(front.binds, inner.binds, id);
  }

  // ---------- all arms ----------

  /** How often the arms define an id: by their hoisted reads, by their bindings, and among the variables that each
      arm's expression is given after its bindings. */
  function ArmsDefine(arms: seq<Arm>, target: VarId, next: VarId, id: VarId): nat
    requires forall i :: 0 <= i < |arms| ==> NonEmptyStructs(arms[i].pattern)
    decreases |arms|
  {
    if arms == [] then 0
    else
      var n := |arms| - 1;
      var c := ArmCode(arms[n].pattern, target, CasesCode(arms[..n], target, next).1);
      ArmsDefine(arms[..n], target, next, id) + Times(c.pre, id) + Times(c.binds, id)
        + HandedOut(id, c.next, c.next + arms[n].locals)
  }

  lemma {:induction false} ArmsDefineOnce(arms: seq<Arm>, target: VarId, next: VarId, id: VarId)
    requires forall i :: 0 <= i < |arms| ==> NonEmptyStructs(arms[i].pattern)
    ensures var end := CasesCode(arms, target, next).1;
      next <= end && ArmsDefine(arms, target, next, id) == HandedOut(id, next, end)
    decreases |arms|
  {
    if arms != [] {
      var n := |arms| - 1;
      ArmsDefineOnce(arms[..n], target, next, id);
      ArmDefinesOnce(arms[n].pattern, target, CasesCode(arms[..n], target, next).1, id);
    }
  }

  /** Main result: the target and everything that the arms define have different ids, and those are exactly the ids
      handed out for the match. */
  lemma AllVariablesDiffer(arms: seq<Arm>, next: VarId, id: VarId)
    requires forall i :: 0 <= i < |arms| ==> NonEmptyStructs(arms[i].pattern)
    ensures var end := CasesCode(arms, next, next + 1).1;
      (if id == next then 1 else 0) + ArmsDefine(arms, next, next + 1, id) == (if next <= id < end then 1 else 0)
  {
    ArmsDefineOnce(arms, next, next + 1, id);
  }
}
