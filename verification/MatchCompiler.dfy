/** Compilation of `when` arms: hoisted reads, one condition per arm, an if-chain. */
module MatchCompiler {
  import opened PatternTypes
  import opened MatchCode

  // ---------- specification ----------

  /** What compiling one arm produces: the hoisted statements, the condition, the
      bindings pushed on the arm's block with their names, the next free variable id. */
  datatype Code = Code(pre: seq<Stmt>, cond: TExpr, binds: seq<Stmt>, scope: map<Ident, VarId>, next: VarId)

  datatype FieldsCode =
    FieldsCode(pre: seq<Stmt>, conds: seq<TExpr>, binds: seq<Stmt>, scope: map<Ident, VarId>, next: VarId)

  ghost predicate NonEmptyStructs(p: Pattern)
    decreases p
  {
    match p
    case EnumPattern(_, _, payload) => payload.Some? ==> NonEmptyStructs(payload.value)
    case StructPattern(fs) => fs != [] && forall i :: 0 <= i < |fs| ==> NonEmptyStructs(fs[i].pattern)
    case _ => true
  }

  function Conjoin(conds: seq<TExpr>): TExpr
    requires conds != []
  {
    if |conds| == 1 then conds[0] else EAnd(Conjoin(conds[..|conds| - 1]), conds[|conds| - 1])
  }

  function ArmCode(p: Pattern, target: VarId, next: VarId): Code
    requires NonEmptyStructs(p)
    decreases p
  {
    match p
    case Wildcard => Code([], EBool(true), [], map[], next)
    case LiteralUnit => Code([], EBool(true), [], map[], next)
    case Variable(name) => Code([], EBool(true), [ValDef(next, EVar(target))], map[name := next], next + 1)
    case LiteralChar(c) => Code([], EEquals(EVar(target), CharV(c)), [], map[], next)
    case LiteralInteger(i) => Code([], EEquals(EVar(target), IntV(i)), [], map[], next)
    case LiteralBool(b) => Code([], EEquals(EVar(target), BoolV(b)), [], map[], next)
    case LiteralString(s) => Code([], EEquals(EVar(target), StringV(s, 0)), [], map[], next)
    case EnumPattern(index, _, None) => Code([], EIsVariant(EVar(target), index), [], map[], next)
    case EnumPattern(index, _, Some(payload)) =>
      var inner := ArmCode(payload, next, next + 1);
      Code([ValDef(next, EGetPayload(EVar(target), index))] + inner.pre,
           EAnd(EIsVariant(EVar(target), index), inner.cond), inner.binds, inner.scope, inner.next)
    case StructPattern(fs) =>
      var f := AllFieldsCode(fs, target, next);
      Code(f.pre, Conjoin(f.conds), f.binds, f.scope, f.next)
  }

  function AllFieldsCode(fs: seq<FieldPattern>, target: VarId, next: VarId): (r: FieldsCode)
    requires forall i :: 0 <= i < |fs| ==> NonEmptyStructs(fs[i].pattern)
    ensures |r.conds| == |fs|
    decreases fs
  {
    if fs == [] then FieldsCode([], [], [], map[], next)
    else
      var last := fs[|fs| - 1];
      var front := AllFieldsCode(fs[..|fs| - 1], target, next);
      var inner := ArmCode(last.pattern, front.next, front.next + 1);
      FieldsCode(front.pre + [ValDef(front.next, EField(EVar(target), last.index))] + inner.pre,
                 front.conds + [inner.cond], front.binds + inner.binds, front.scope + inner.scope, inner.next)
  }

  lemma FieldsCodeStep(fs: seq<FieldPattern>, k: nat, target: VarId, next: VarId)
    requires k < |fs| && forall i :: 0 <= i < |fs| ==> NonEmptyStructs(fs[i].pattern)
    ensures var front := AllFieldsCode(fs[..k], target, next);
      var inner := ArmCode(fs[k].pattern, front.next, front.next + 1);
      AllFieldsCode(fs[..k + 1], target, next) ==
        FieldsCode(front.pre + [ValDef(front.next, EField(EVar(target), fs[k].index))] + inner.pre,
                   front.conds + [inner.cond], front.binds + inner.binds, front.scope + inner.scope, inner.next)
  {
    assert fs[..k + 1][..k] == fs[..k];
  }

  lemma AppendAssociates<T>(a: seq<T>, b: seq<T>, c: seq<T>)
    ensures a + b + c == a + (b + c)
  {
  }

  lemma MergeAssociates<K, V>(a: map<K, V>, b: map<K, V>, c: map<K, V>)
    ensures a + b + c == a + (b + c)
  {
  }

  /** The same step, appended to what was there before. */
  lemma FieldsCodeGrow(fs: seq<FieldPattern>, k: nat, target: VarId, next: VarId, f: FieldsCode, inner: Code,
                       statements: seq<Stmt>, scope: map<Ident, VarId>)
    requires k < |fs| && forall i :: 0 <= i < |fs| ==> NonEmptyStructs(fs[i].pattern)
    requires f == AllFieldsCode(fs[..k], target, next) && inner == ArmCode(fs[k].pattern, f.next, f.next + 1)
    ensures var g := AllFieldsCode(fs[..k + 1], target, next);
      && g.pre == f.pre + ([ValDef(f.next, EField(EVar(target), fs[k].index))] + inner.pre)
      && g.conds == f.conds + [inner.cond] && g.next == inner.next
      && statements + g.binds == statements + f.binds + inner.binds && scope + g.scope == scope + f.scope + inner.scope
  {
    FieldsCodeStep(fs, k, target, next);
    AppendAssociates(f.pre, [ValDef(f.next, EField(EVar(target), fs[k].index))], inner.pre);
    AppendAssociates(statements, f.binds, inner.binds);
    MergeAssociates(scope, f.scope, inner.scope);
  }

  // ---------- the compiler ----------

  class ArmBlock {
    var statements: seq<Stmt>
    var scope: map<Ident, VarId>

    constructor ()
      ensures statements == [] && scope == map[]
    {
      statements, scope := [], map[];
    }
  }

  datatype Arm = Arm(pattern: Pattern, locals: nat)
  datatype Case = Case(pre: seq<Stmt>, cond: TExpr, block: Block)

  class Typer {
    var nextVariable: VarId

    constructor ()
      ensures nextVariable == 0
    {
      nextVariable := 0;
    }

    method FreshVariable() returns (id: VarId)
      modifies this
      ensures id == old(nextVariable) && nextVariable == id + 1
    {
      id := nextVariable;
      nextVariable := nextVariable + 1;
    }

    method EvalMatchArm(p: Pattern, target: VarId, arm: ArmBlock) returns (stmts: seq<Stmt>, cond: TExpr)
      requires NonEmptyStructs(p)
      modifies this, arm
      ensures var c := ArmCode(p, target, old(nextVariable));
        && stmts == c.pre && cond == c.cond && nextVariable == c.next
        && arm.statements == old(arm.statements) + c.binds && arm.scope == old(arm.scope) + c.scope
      decreases p
    {
      match p {
        case Wildcard => return [], EBool(true);
        case LiteralUnit => return [], EBool(true);
        case Variable(name) =>
          var id := FreshVariable();
          arm.statements := arm.statements + [ValDef(id, EVar(target))];
          arm.scope := arm.scope[name := id];
          return [], EBool(true);
        case LiteralChar(c) => return [], EEquals(EVar(target), CharV(c));
        case LiteralInteger(i) => return [], EEquals(EVar(target), IntV(i));
        case LiteralBool(b) => return [], EEquals(EVar(target), BoolV(b));
        case LiteralString(s) => return [], EEquals(EVar(target), StringV(s, 0));
        case EnumPattern(index, _, payload) =>
          cond := EIsVariant(EVar(target), index);
          stmts := [];
          if payload.Some? {
            var id := FreshVariable();
            var innerStmts, innerCond := EvalMatchArm(payload.value, id, arm);
            stmts := [ValDef(id, EGetPayload(EVar(target), index))] + innerStmts;
            cond := EAnd(cond, innerCond);
          }
        case StructPattern(fs) =>
          var conds;
          stmts, conds := EvalFields(fs, target, arm);
          cond := Conjoin(conds);
      }
    }

    method EvalFields(fs: seq<FieldPattern>, target: VarId, arm: ArmBlock) returns (stmts: seq<Stmt>, conds: seq<TExpr>)
      requires forall i :: 0 <= i < |fs| ==> NonEmptyStructs(fs[i].pattern)
      modifies this, arm
      ensures var f := AllFieldsCode(fs, target, old(nextVariable));
        && stmts == f.pre && conds == f.conds && nextVariable == f.next
        && arm.statements == old(arm.statements) + f.binds && arm.scope == old(arm.scope) + f.scope
      decreases fs
    {
      stmts, conds := [], [];
      ghost var f := AllFieldsCode(fs[..0], target, nextVariable);
      for k := 0 to |fs|
        invariant f == AllFieldsCode(fs[..k], target, old(nextVariable))
        invariant FieldsSoFar(f, stmts, conds, arm, old(arm.statements), old(arm.scope))
      {
        ghost var inner := ArmCode(fs[k].pattern, f.next, f.next + 1);
        var read, cond := EvalField(fs[k], target, arm);
        stmts := stmts + read;
        conds := conds + [cond];
        FieldsCodeGrow(fs, k, target, old(nextVariable), f, inner, old(arm.statements), old(arm.scope));
        f := AllFieldsCode(fs[..k + 1], target, old(nextVariable));
      }
      assert fs[..|fs|] == fs;
    }

    /** Reads one field into a fresh variable and compiles the field's pattern against it. */
    method EvalField(f: FieldPattern, target: VarId, arm: ArmBlock) returns (stmts: seq<Stmt>, cond: TExpr)
      requires NonEmptyStructs(f.pattern)
      modifies this, arm
      ensures var at := old(nextVariable);
        var inner := ArmCode(f.pattern, at, at + 1);
        && stmts == [ValDef(at, EField(EVar(target), f.index))] + inner.pre && cond == inner.cond
          && nextVariable == inner.next
        && arm.statements == old(arm.statements) + inner.binds && arm.scope == old(arm.scope) + inner.scope
      decreases f
    {
      var id := FreshVariable();
      var innerStmts, innerCond := EvalMatchArm(f.pattern, id, arm);
      stmts := [ValDef(id, EField(EVar(target), f.index))] + innerStmts;
      cond := innerCond;
    }

    ghost predicate FieldsSoFar(f: FieldsCode, stmts: seq<Stmt>, conds: seq<TExpr>, arm: ArmBlock,
                                statements: seq<Stmt>, scope: map<Ident, VarId>)
      reads this, arm
    {
      && stmts == f.pre && conds == f.conds && nextVariable == f.next
      && arm.statements == statements + f.binds && arm.scope == scope + f.scope
    }

    /** Every arm in turn; the arm's own expression allocates `locals` further variables. */
    method EvalMatchArms(arms: seq<Arm>, target: VarId) returns (cases: seq<Case>)
      requires forall i :: 0 <= i < |arms| ==> NonEmptyStructs(arms[i].pattern)
      modifies this
      ensures cases == CasesCode(arms, target, old(nextVariable)).0
      ensures nextVariable == CasesCode(arms, target, old(nextVariable)).1
    {
      cases := [];
      for k := 0 to |arms|
        invariant cases == CasesCode(arms[..k], target, old(nextVariable)).0
        invariant nextVariable == CasesCode(arms[..k], target, old(nextVariable)).1
      {
        assert arms[..k + 1][..k] == arms[..k];
        var block := new ArmBlock();
        var pre, cond := EvalMatchArm(arms[k].pattern, target, block);
        ghost var c := ArmCode(arms[k].pattern, target, CasesCode(arms[..k], target, old(nextVariable)).1);
        assert block.statements == c.binds && block.scope == c.scope;
        nextVariable := nextVariable + arms[k].locals;
        cases := cases + [Case(pre, cond, Block(block.statements, block.scope, k))];
      }
      assert arms[..|arms|] == arms;
    }

    method EvalMatchExpr(arms: seq<Arm>) returns (m: MatchBlock)
      requires arms != [] && forall i :: 0 <= i < |arms| ==> NonEmptyStructs(arms[i].pattern)
      modifies this
      ensures m == MatchCodeFor(arms, old(nextVariable))
      ensures nextVariable == CasesCode(arms, old(nextVariable), old(nextVariable) + 1).1
    {
      var target := FreshVariable();
      var cases := EvalMatchArms(arms, target);
      var pre: seq<Stmt> := [];
      for k := 0 to |cases|
        invariant pre == AllPre(cases[..k])
      {
        assert cases[..k + 1][..k] == cases[..k];
        pre := pre + cases[k].pre;
      }
      assert cases[..|cases|] == cases;
      m := MatchBlock(target, pre, ChainCases(cases));
    }
  }

  function CasesCode(arms: seq<Arm>, target: VarId, next: VarId): (r: (seq<Case>, VarId))
    requires forall i :: 0 <= i < |arms| ==> NonEmptyStructs(arms[i].pattern)
    ensures |r.0| == |arms|
    decreases |arms|
  {
    if arms == [] then ([], next)
    else
      var n := |arms| - 1;
      var (front, mid) := CasesCode(arms[..n], target, next);
      var c := ArmCode(arms[n].pattern, target, mid);
      (front + [Case(c.pre, c.cond, Block(c.binds, c.scope, n))], c.next + arms[n].locals)
  }

  function AllPre(cases: seq<Case>): seq<Stmt> {
    if cases == [] then [] else AllPre(cases[..|cases| - 1]) + cases[|cases| - 1].pre
  }

  /** `if true` and `if false` conditions are dropped, as are the arms after an `if true`. */
  function ChainCases(cases: seq<Case>): Chain {
    if cases == [] then CrashCall
    else if cases[0].cond.EBool? then
      if cases[0].cond.b then Body(cases[0].block) else ChainCases(cases[1..])
    else If(cases[0].cond, cases[0].block, ChainCases(cases[1..]))
  }

  function MatchCodeFor(arms: seq<Arm>, next: VarId): MatchBlock
    requires forall i :: 0 <= i < |arms| ==> NonEmptyStructs(arms[i].pattern)
  {
    var cases := CasesCode(arms, next, next + 1).0;
    MatchBlock(next, AllPre(cases), ChainCases(cases))
  }
}
