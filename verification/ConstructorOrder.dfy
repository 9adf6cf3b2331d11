/** The order in which trial constructors are tried, which decides the one that a rejected match is reported for. */
module ConstructorOrder {
  import opened PatternTypes
  import opened Constructors
  import opened ConstructorPartition
  import opened MatchChecker

  /** False comes before true, an earlier variant before a later one, and of two structs the one whose first
      differing field comes first. */
  ghost predicate Earlier(a: Ctor, b: Ctor, t: Ty)
    decreases t, 0
  {
    match t
    case Bool => a == CFalse && b == CTrue
    case Enum(vs) => EarlierVariant(a, b, vs)
    case Struct(fs) => a.CStruct? && b.CStruct? && EarlierRow(a.fields, b.fields, fs)
    case _ => false
  }

  ghost predicate EarlierVariant(a: Ctor, b: Ctor, vs: seq<VariantTy>)
    decreases vs, 1
  {
    && a.CEnum? && b.CEnum?
    && exists i, j :: 0 <= i <= j < |vs| && vs[i].name == a.tag && vs[j].name == b.tag && (i == j ==>
         && a.inner.Some? && b.inner.Some? && vs[i].payload.Some?
         && Earlier(a.inner.value, b.inner.value, vs[i].payload.value))
  }

  ghost predicate EarlierRow(r: seq<FieldCtor>, s: seq<FieldCtor>, fs: seq<FieldTy>)
    decreases fs, 2
  {
    |r| == |s| == |fs| && exists k :: 0 <= k < |fs| && DiffersFirst(r, s, fs, k)
  }

  ghost predicate DiffersFirst(r: seq<FieldCtor>, s: seq<FieldCtor>, fs: seq<FieldTy>, k: nat)
    requires k < |fs| == |r| == |s|
    decreases fs, 1
  {
    r[..k] == s[..k] && Earlier(r[k].ctor, s[k].ctor, fs[k].ty)
  }

  lemma FirstDifference(r: seq<FieldCtor>, s: seq<FieldCtor>, fs: seq<FieldTy>) returns (k: nat)
    requires EarlierRow(r, s, fs)
    ensures k < |fs| == |r| == |s| && DiffersFirst(r, s, fs, k)
  {
    k :| 0 <= k < |fs| && DiffersFirst(r, s, fs, k);
  }

  ghost predicate InOrder(cs: seq<Ctor>, t: Ty) {
    forall i, j :: 0 <= i < j < |cs| ==> Earlier(cs[i], cs[j], t)
  }

  ghost predicate VariantsInOrder(cs: seq<Ctor>, vs: seq<VariantTy>) {
    forall i, j :: 0 <= i < j < |cs| ==> EarlierVariant(cs[i], cs[j], vs)
  }

  ghost predicate RowsInOrder(rows: seq<seq<FieldCtor>>, fs: seq<FieldTy>) {
    forall i, j :: 0 <= i < j < |rows| ==> EarlierRow(rows[i], rows[j], fs)
  }

  // ---------- the generated list is in order ----------

  lemma EarlierVariantOn(a: Ctor, b: Ctor, vs: seq<VariantTy>, more: seq<VariantTy>)
    requires vs <= more && EarlierVariant(a, b, vs)
    ensures EarlierVariant(a, b, more)
  {
    var i, j :| 0 <= i <= j < |vs| && vs[i].name == a.tag && vs[j].name == b.tag && (i == j ==>
      && a.inner.Some? && b.inner.Some? && vs[i].payload.Some?
      && Earlier(a.inner.value, b.inner.value, vs[i].payload.value));
    assert more[i] == vs[i] && more[j] == vs[j];
  }

  lemma VariantInOrder(vs: seq<VariantTy>, n: nat)
    requires n < |vs| && (vs[n].payload.Some? ==> InOrder(Ctors(vs[n].payload.value), vs[n].payload.value))
    ensures VariantsInOrder(VariantCtors(vs[n]), vs)
  {
    var made := VariantCtors(vs[n]);
    forall i, j | 0 <= i < j < |made| ensures EarlierVariant(made[i], made[j], vs) {
      var inner := Ctors(vs[n].payload.value);
      assert made[i].inner.value == inner[i] && made[j].inner.value == inner[j];
    }
  }

  lemma {:induction false} EnumCtorsInOrder(vs: seq<VariantTy>)
    requires forall k :: 0 <= k < |vs| && vs[k].payload.Some? ==>
      InOrder(Ctors(vs[k].payload.value), vs[k].payload.value)
    ensures VariantsInOrder(EnumCtors(vs), vs)
    decreases |vs|
  {
    if vs != [] {
      var n := |vs| - 1;
      var front, back := EnumCtors(vs[..n]), VariantCtors(vs[n]);
      EnumCtorsInOrder(vs[..n]);
      VariantInOrder(vs, n);
      forall i, j | 0 <= i < j < |front| ensures EarlierVariant(front[i], front[j], vs) {
        EarlierVariantOn(front[i], front[j], vs[..n], vs);
      }
      forall i, j | 0 <= i < |front| && 0 <= j < |back| ensures EarlierVariant(front[i], back[j], vs) {
        LaterVariant(vs, n, front[i], back[j]);
      }
    }
  }

  lemma LaterVariant(vs: seq<VariantTy>, n: nat, a: Ctor, b: Ctor)
    requires n < |vs| && a in EnumCtors(vs[..n]) && b in VariantCtors(vs[n])
    ensures EarlierVariant(a, b, vs)
  {
    InEnumCtors(vs[..n], a);
    var k :| 0 <= k < n && a in VariantCtors(vs[..n][k]);
    InVariantCtors(vs[k], a);
    InVariantCtors(vs[n], b);
    assert vs[k].name == a.tag && vs[n].name == b.tag;
  }

  /** A row that comes earlier still does with one more field. */
  lemma EarlierRowOn(r: seq<FieldCtor>, s: seq<FieldCtor>, c: FieldCtor, d: FieldCtor, fs: seq<FieldTy>)
    requires fs != [] && EarlierRow(r, s, fs[..|fs| - 1])
    ensures EarlierRow(r + [c], s + [d], fs)
  {
    var k := FirstDifference(r, s, fs[..|fs| - 1]);
    assert (r + [c])[..k] == r[..k] && (s + [d])[..k] == s[..k];
    assert DiffersFirst(r + [c], s + [d], fs, k);
  }

  lemma ExtendInOrder(row: seq<FieldCtor>, fs: seq<FieldTy>)
    requires |row| + 1 == |fs| && InOrder(Ctors(fs[|row|].ty), fs[|row|].ty)
    ensures RowsInOrder(Extend(row, Tagged(fs[|row|].name, Ctors(fs[|row|].ty))), fs)
  {
    var n := |row|;
    var cs := Tagged(fs[n].name, Ctors(fs[n].ty));
    var made := Extend(row, cs);
    forall i, j | 0 <= i < j < |made| ensures EarlierRow(made[i], made[j], fs) {
      assert made[i][..n] == row && made[j][..n] == row;
      assert made[i][n] == cs[i] && made[j][n] == cs[j];
      assert DiffersFirst(made[i], made[j], fs, n);
    }
  }

  lemma LaterRow(rows: seq<seq<FieldCtor>>, n: nat, cs: seq<FieldCtor>, fs: seq<FieldTy>, r: seq<FieldCtor>,
                 c: FieldCtor)
    requires fs != [] && n < |rows| && RowsInOrder(rows, fs[..|fs| - 1]) && r in Cross(rows[..n], cs)
    ensures EarlierRow(r, rows[n] + [c], fs)
  {
    InCross(rows[..n], cs, r);
    var front := r[..|r| - 1];
    var k :| 0 <= k < n && rows[..n][k] == front;
    assert r == rows[k] + [r[|r| - 1]];
    EarlierRowOn(rows[k], rows[n], r[|r| - 1], c, fs);
  }

  /** The rows with one more field: the new field varies fastest. */
  lemma {:induction false} CrossInOrder(rows: seq<seq<FieldCtor>>, fs: seq<FieldTy>)
    requires fs != [] && RowsInOrder(rows, fs[..|fs| - 1]) && (forall k :: 0 <= k < |rows| ==> |rows[k]| + 1 == |fs|)
    requires InOrder(Ctors(fs[|fs| - 1].ty), fs[|fs| - 1].ty)
    ensures RowsInOrder(Cross(rows, Tagged(fs[|fs| - 1].name, Ctors(fs[|fs| - 1].ty))), fs)
    decreases |rows|
  {
    if rows != [] {
      var n, cs := |rows| - 1, Tagged(fs[|fs| - 1].name, Ctors(fs[|fs| - 1].ty));
      CrossInOrder(rows[..n], fs);
      ExtendInOrder(rows[n], fs);
      var front, back := Cross(rows[..n], cs), Extend(rows[n], cs);
      forall i, j | 0 <= i < |front| && 0 <= j < |back| ensures EarlierRow(front[i], back[j], fs) {
        assert back[j] == rows[n] + [cs[j]];
        LaterRow(rows, n, cs, fs, front[i], cs[j]);
      }
    }
  }

  lemma {:induction false} RowsGeneratedInOrder(fs: seq<FieldTy>)
    requires forall k :: 0 <= k < |fs| ==> InOrder(Ctors(fs[k].ty), fs[k].ty)
    ensures RowsInOrder(Rows(fs), fs)
    decreases |fs|
  {
    if fs != [] {
      var n := |fs| - 1;
      RowsGeneratedInOrder(fs[..n]);
      forall k | 0 <= k < |Rows(fs[..n])| ensures |Rows(fs[..n])[k]| == n { InRows(fs[..n], Rows(fs[..n])[k]); }
      CrossInOrder(Rows(fs[..n]), fs);
    }
  }

  /** Main result on order: every trial constructor comes before all those after it in the list. */
  lemma {:induction false} CtorsInOrder(t: Ty)
    ensures InOrder(Ctors(t), t)
    decreases t
  {
    match t {
      case Enum(vs) =>
        forall k | 0 <= k < |vs| && vs[k].payload.Some?
          ensures InOrder(Ctors(vs[k].payload.value), vs[k].payload.value)
        {
          CtorsInOrder(vs[k].payload.value);
        }
        EnumCtorsInOrder(vs);
      case Struct(fs) =>
        forall k | 0 <= k < |fs| ensures InOrder(Ctors(fs[k].ty), fs[k].ty) { CtorsInOrder(fs[k].ty); }
        RowsGeneratedInOrder(fs);
        assert forall i :: 0 <= i < |Rows(fs)| ==> Ctors(t)[i] == CStruct(Rows(fs)[i]);
      case _ =>
    }
  }

  // ---------- it is an order ----------

  /** No two constructors come before each other. */
  lemma {:induction false} EarlierIsAsymmetric(a: Ctor, b: Ctor, t: Ty)
    requires WellFormed(t) && Earlier(a, b, t)
    ensures a != b && !Earlier(b, a, t)
    decreases t
  {
    match t {
      case Enum(vs) => VariantsAsymmetric(a, b, vs);
      case Struct(fs) => RowsAsymmetric(a.fields, b.fields, fs);
      case _ =>
    }
  }

  lemma {:induction false} VariantsAsymmetric(a: Ctor, b: Ctor, vs: seq<VariantTy>)
    requires WellFormed(Enum(vs)) && EarlierVariant(a, b, vs)
    ensures a != b && !EarlierVariant(b, a, vs)
    decreases vs
  {
    if a.tag == b.tag {
      var i, j :| 0 <= i <= j < |vs| && vs[i].name == a.tag && vs[j].name == b.tag && (i == j ==>
        && a.inner.Some? && b.inner.Some? && vs[i].payload.Some?
        && Earlier(a.inner.value, b.inner.value, vs[i].payload.value));
      assert i == j;
      EarlierIsAsymmetric(a.inner.value, b.inner.value, vs[i].payload.value);
    }
  }

  lemma PrefixSame(r: seq<FieldCtor>, s: seq<FieldCtor>, k: nat)
    requires k <= |r| && k <= |s| && r[..k] == s[..k]
    ensures forall i :: 0 <= i < k ==> r[i] == s[i]
  {
    assert forall i :: 0 <= i < k ==> r[i] == r[..k][i] == s[..k][i] == s[i];
  }

  lemma {:induction false} RowsAsymmetric(r: seq<FieldCtor>, s: seq<FieldCtor>, fs: seq<FieldTy>)
    requires WellFormed(Struct(fs)) && EarlierRow(r, s, fs)
    ensures r != s && !EarlierRow(s, r, fs)
    decreases fs
  {
    var k := FirstDifference(r, s, fs);
    EarlierIsAsymmetric(r[k].ctor, s[k].ctor, fs[k].ty);
    if EarlierRow(s, r, fs) {
      var m := FirstDifference(s, r, fs);
      EarlierIsAsymmetric(s[m].ctor, r[m].ctor, fs[m].ty);
      PrefixSame(r, s, k);
      PrefixSame(s, r, m);
    }
  }

  // ---------- what a rejection names ----------

  /** The trial that "Unhandled pattern" names comes before every other one that no arm claims. */
  lemma UnhandledIsEarliest(ps: seq<Pattern>, t: Ty, scores: seq<nat>, alive: seq<bool>, named: nat, c: Ctor)
    requires AllPresent(ps, Ctors(t)) && Tallied(|ps|, Claims(ps, Ctors(t)), scores, alive)
    requires Explains(Unhandled(named), ps, scores, alive)
    requires c in Ctors(t) && forall i :: 0 <= i < |ps| ==> !PatternMatches(ps[i], c)
    ensures named < |Ctors(t)| && forall i :: 0 <= i < |ps| ==> !PatternMatches(ps[i], Ctors(t)[named])
    ensures c == Ctors(t)[named] || Earlier(Ctors(t)[named], c, t)
  {
    var trials := Ctors(t);
    assert Claimant(ps, trials[named]) == |ps|;
    var k :| 0 <= k < |trials| && trials[k] == c;
    assert Claimant(ps, trials[k]) == |ps|;
    assert alive[k];
    CtorsInOrder(t);
  }
}
