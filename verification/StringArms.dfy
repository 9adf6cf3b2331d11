/** Arms on a string target: literals, tests of the length, and patterns that take every string. */
module StringArms {
  import opened PatternTypes
  import opened MatchChecker
  import opened Powers

  /** The lengths that a struct pattern's `len` sub-patterns name. */
  function Lengths(fs: seq<FieldPattern>): set<int> {
    if fs == [] then {}
    else Lengths(fs[1..]) + if fs[0].index == 0 && fs[0].pattern.LiteralInteger? then {fs[0].pattern.i} else {}
  }

  /** The pattern takes every string. */
  predicate TakesAll(p: Pattern) {
    p.Wildcard? || p.Variable? || (p.StructPattern? && Lengths(p.fields) == {})
  }

  /** The pattern takes the strings of length n. */
  predicate TakesLength(p: Pattern, n: nat) {
    p.StructPattern? && Lengths(p.fields) == {n}
  }

  lemma {:induction false} InLengths(fs: seq<FieldPattern>, n: int)
    ensures n in Lengths(fs) <==> exists k :: 0 <= k < |fs| && fs[k].index == 0 && fs[k].pattern == LiteralInteger(n)
  {
    if fs != [] {
      InLengths(fs[1..], n);
      assert forall k :: 1 <= k < |fs| ==> fs[k] == fs[1..][k - 1];
    }
  }

  ghost predicate AllEqual(lengths: set<int>, n: int) {
    forall k :: k in lengths ==> k == n
  }

  /** A struct pattern on a string decides by the length alone. */
  lemma {:induction false} StructMatchesByLength(p: Pattern, s: Bytes, data: nat)
    requires p.StructPattern? && WellTyped(p, String)
    ensures Matches(p, StringV(s, data)) <==> AllEqual(Lengths(p.fields), |s|)
  {
    if AllEqual(Lengths(p.fields), |s|) { EqualLengthsMatch(p, s, data); }
    if Matches(p, StringV(s, data)) { MatchedLengths(p, s, data); }
  }

  lemma {:induction false} EqualLengthsMatch(p: Pattern, s: Bytes, data: nat)
    requires p.StructPattern? && WellTyped(p, String) && AllEqual(Lengths(p.fields), |s|)
    ensures Matches(p, StringV(s, data))
  {
    var fs, v := p.fields, StringV(s, data);
    forall k | 0 <= k < |fs| ensures fs[k].index < |Parts(v)| && Matches(fs[k].pattern, Parts(v)[fs[k].index]) {
      FieldMatches(fs[k], s, data);
      if fs[k].index == 0 && fs[k].pattern.LiteralInteger? { InLengths(fs, fs[k].pattern.i); }
    }
  }

  lemma {:induction false} MatchedLengths(p: Pattern, s: Bytes, data: nat)
    requires p.StructPattern? && WellTyped(p, String) && Matches(p, StringV(s, data))
    ensures AllEqual(Lengths(p.fields), |s|)
  {
    var fs, v := p.fields, StringV(s, data);
    forall n | n in Lengths(fs) ensures n == |s| {
      InLengths(fs, n);
      var k :| 0 <= k < |fs| && fs[k].index == 0 && fs[k].pattern == LiteralInteger(n);
      assert Matches(fs[k].pattern, Parts(v)[0]);
    }
  }

  lemma {:induction false} FieldMatches(f: FieldPattern, s: Bytes, data: nat)
    requires f.index < |FieldsOf(String)| && WellTyped(f.pattern, FieldsOf(String)[f.index].ty)
    ensures Matches(f.pattern, Parts(StringV(s, data))[f.index]) <==>
      !(f.index == 0 && f.pattern.LiteralInteger?) || f.pattern.i == |s|
  {
  }

  lemma {:induction false} Element<T>(s: set<T>) returns (k: T)
    requires s != {}
    ensures k in s
  {
    k :| k in s;
  }

  lemma {:induction false} OneLength(lengths: set<int>, n: int)
    ensures AllEqual(lengths, n) <==> lengths == {} || lengths == {n}
  {
    if AllEqual(lengths, n) && lengths != {} {
      var k := Element(lengths);
      if lengths - {n} != {} { k := Element(lengths - {n}); }
      assert lengths == {n} + (lengths - {n});
    }
  }

  /** What an arm on a string takes: all strings, those of one length, a single one, or none. */
  lemma {:induction false} ArmTakes(p: Pattern, s: Bytes, data: nat)
    requires WellTyped(p, String)
    ensures Matches(p, StringV(s, data)) <==> TakesAll(p) || TakesLength(p, |s|) || p == LiteralString(s)
  {
    if p.StructPattern? {
      StructMatchesByLength(p, s, data);
      OneLength(Lengths(p.fields), |s|);
    }
  }

  // ---------- how many strings there are of a length ----------

  function WithLast(ss: set<seq<Byte>>, b: Byte): set<seq<Byte>> {
    set s | s in ss :: s + [b]
  }

  /** The given strings followed by one of the first m bytes. */
  function WithLastBelow(ss: set<seq<Byte>>, m: nat): set<seq<Byte>>
    requires m <= 256
  {
    if m == 0 then {} else WithLastBelow(ss, m - 1) + WithLast(ss, m - 1)
  }

  function Strings(n: nat): set<seq<Byte>> {
    if n == 0 then {[]} else WithLastBelow(Strings(n - 1), 256)
  }

  lemma {:induction false} WithLastCount(ss: set<seq<Byte>>, b: Byte)
    ensures |WithLast(ss, b)| == |ss|
    decreases |ss|
  {
    if ss != {} {
      var s :| s in ss;
      WithLastCount(ss - {s}, b);
      assert s + [b] !in WithLast(ss - {s}, b) by {
        forall r | r in ss - {s} ensures r + [b] != s + [b] {
          assert (r + [b])[..|r|] == r && (s + [b])[..|s|] == s;
        }
      }
      assert WithLast(ss, b) == WithLast(ss - {s}, b) + {s + [b]};
    }
  }

  lemma {:induction false} InWithLastBelow(ss: set<seq<Byte>>, m: nat, t: seq<Byte>)
    requires m <= 256
    ensures t in WithLastBelow(ss, m) <==> t != [] && t[..|t| - 1] in ss && t[|t| - 1] < m
  {
    if m > 0 {
      InWithLastBelow(ss, m - 1, t);
      if t != [] && t[..|t| - 1] in ss && t[|t| - 1] == m - 1 { assert t == t[..|t| - 1] + [t[|t| - 1]]; }
      if t in WithLast(ss, m - 1) {
        var s :| s in ss && t == s + [m - 1];
        assert t[..|t| - 1] == s;
      }
    }
  }

  lemma {:induction false} LastApart(ss: set<seq<Byte>>, m: nat)
    requires 0 < m <= 256
    ensures WithLastBelow(ss, m - 1) * WithLast(ss, m - 1) == {}
  {
    if WithLastBelow(ss, m - 1) * WithLast(ss, m - 1) != {} {
      var t :| t in WithLastBelow(ss, m - 1) * WithLast(ss, m - 1);
      InWithLastBelow(ss, m - 1, t);
    }
  }

  lemma {:induction false} DisjointCount<T>(a: set<T>, b: set<T>)
    requires a * b == {}
    ensures |a + b| == |a| + |b|
  {
  }

  lemma {:induction false} WithLastBelowCount(ss: set<seq<Byte>>, m: nat)
    requires m <= 256
    ensures |WithLastBelow(ss, m)| == m * |ss|
  {
    if m > 0 {
      WithLastBelowCount(ss, m - 1);
      WithLastCount(ss, m - 1);
      LastApart(ss, m);
      DisjointCount(WithLastBelow(ss, m - 1), WithLast(ss, m - 1));
      OneMoreTime(m, |ss|);
    }
  }

  lemma OneMoreTime(m: nat, n: nat)
    requires m > 0
    ensures (m - 1) * n + n == m * n
  {
  }

  lemma {:induction false} StringsCount(n: nat)
    ensures |Strings(n)| == Power(256, n)
  {
    if n > 0 {
      StringsCount(n - 1);
      WithLastBelowCount(Strings(n - 1), 256);
    }
  }

  lemma {:induction false} InStrings(n: nat, t: seq<Byte>)
    ensures t in Strings(n) <==> |t| == n
  {
    if n > 0 {
      InWithLastBelow(Strings(n - 1), 256, t);
      if t != [] { InStrings(n - 1, t[..|t| - 1]); }
    }
  }

  // ---------- which arms are reached ----------

  /** The strings of length n that the arms list. */
  function Listed(ps: seq<Pattern>, n: nat): set<seq<Byte>> {
    if ps == [] then {}
    else if ps[0].LiteralString? && |ps[0].s| == n then
      var s: seq<Byte> := ps[0].s;
      Listed(ps[1..], n) + {s}
    else Listed(ps[1..], n)
  }

  lemma {:induction false} InListed(ps: seq<Pattern>, n: nat, s: Bytes)
    ensures s in Listed(ps, n) <==> |s| == n && LiteralString(s) in ps
    ensures |Listed(ps, n)| <= |ps| && Listed(ps, n) <= Strings(n)
  {
    if ps != [] {
      InListed(ps[1..], n, s);
      assert LiteralString(s) in ps <==> LiteralString(s) == ps[0] || LiteralString(s) in ps[1..];
      if ps[0].LiteralString? && |ps[0].s| == n { InStrings(n, ps[0].s); }
    }
  }

  /** No earlier arm takes every string, or all of this length. */
  predicate LengthOpen(before: seq<Pattern>, n: nat) {
    forall j :: 0 <= j < |before| ==> !TakesAll(before[j]) && !TakesLength(before[j], n)
  }

  /** Arm i adds something to those before it: a new string, a length not tested and not used up by literals, or all
      strings where no arm took them all. */
  ghost predicate AddsStrings(ps: seq<Pattern>, i: nat)
    requires i < |ps|
  {
    var p, before := ps[i], ps[..i];
    if p.LiteralString? then LengthOpen(before, |p.s|) && p !in before
    else if TakesAll(p) then forall j :: 0 <= j < i ==> !TakesAll(ps[j])
    else
      exists n: nat :: TakesLength(p, n) && LengthOpen(before, n) && |Listed(before, n)| < Power(256, n)
  }

  lemma SubsetCount<T>(a: set<T>, b: set<T>)
    requires a <= b
    ensures |a| <= |b|
  {
    assert b == a + (b - a);
  }

  /** A bigger set has something that a smaller one lacks. */
  lemma {:induction false} Surplus<T>(a: set<T>, b: set<T>) returns (k: T)
    requires |a| > |b|
    ensures k in a && k !in b
  {
    SubsetCount(a * b, b);
    assert a == (a - b) + (a * b);
    assert |a| == |a - b| + |a * b|;
    k := Element(a - b);
  }

  ghost predicate NoneTakes(before: seq<Pattern>, s: Bytes) {
    forall j :: 0 <= j < |before| ==>
      !TakesAll(before[j]) && !TakesLength(before[j], |s|) && before[j] != LiteralString(s)
  }

  lemma {:induction false} FirstTaken(ps: seq<Pattern>, i: nat, s: Bytes, data: nat)
    requires AllTyped(ps, String) && i < |ps|
    ensures FirstMatch(ps, StringV(s, data)) == i <==>
      NoneTakes(ps[..i], s) && (TakesAll(ps[i]) || TakesLength(ps[i], |s|) || ps[i] == LiteralString(s))
  {
    forall j | 0 <= j < |ps|
      ensures Matches(ps[j], StringV(s, data)) <==>
        TakesAll(ps[j]) || TakesLength(ps[j], |s|) || ps[j] == LiteralString(s)
    {
      ArmTakes(ps[j], s, data);
    }
    assert forall j :: 0 <= j < i ==> ps[..i][j] == ps[j];
  }

  /** Main result on strings: an arm is the first match of some string exactly when it adds something. */
  lemma {:induction false} ArmReachedExactlyWhen(ps: seq<Pattern>, i: nat)
    requires AllTyped(ps, String) && i < |ps| <= MAX_LENGTH
    ensures (exists v :: Reaches(ps, String, i, v)) <==> AddsStrings(ps, i)
  {
    if AddsStrings(ps, i) {
      var s := AddedString(ps, i);
      FirstTaken(ps, i, s, 0);
      assert Reaches(ps, String, i, StringV(s, 0));
    }
    if exists v :: Reaches(ps, String, i, v) {
      var v :| Reaches(ps, String, i, v);
      FirstTaken(ps, i, v.s, v.data);
      TakenAdds(ps, i, v.s);
    }
  }

  lemma {:induction false} TakenAdds(ps: seq<Pattern>, i: nat, s: Bytes)
    requires i < |ps| && NoneTakes(ps[..i], s)
    requires TakesAll(ps[i]) || TakesLength(ps[i], |s|) || ps[i] == LiteralString(s)
    ensures AddsStrings(ps, i)
  {
    var p, before := ps[i], ps[..i];
    assert forall j :: 0 <= j < i ==> ps[j] == before[j];
    if !p.LiteralString? && !TakesAll(p) {
      InListed(before, |s|, s);
      InStrings(|s|, s);
      SubsetCount(Listed(before, |s|), Strings(|s|) - {s});
      StringsCount(|s|);
      assert TakesLength(p, |s|) && LengthOpen(before, |s|);
    }
  }

  lemma {:induction false} AddedString(ps: seq<Pattern>, i: nat) returns (s: Bytes)
    requires AllTyped(ps, String) && i < |ps| <= MAX_LENGTH && AddsStrings(ps, i)
    ensures NoneTakes(ps[..i], s) && (TakesAll(ps[i]) || TakesLength(ps[i], |s|) || ps[i] == LiteralString(s))
  {
    var p, before := ps[i], ps[..i];
    if p.LiteralString? {
      s := p.s;
    } else if TakesAll(p) {
      var n := FreeLength(before);
      s := Zeros(n);
    } else {
      var n: nat :| TakesLength(p, n) && LengthOpen(before, n) && |Listed(before, n)| < Power(256, n);
      assert WellTyped(p, String);
      TestedLengthFits(p, n);
      s := UnlistedString(before, n);
    }
  }

  lemma {:induction false} TestedLengthFits(p: Pattern, n: nat)
    requires WellTyped(p, String) && TakesLength(p, n)
    ensures n <= MAX_LENGTH
  {
    InLengths(p.fields, n);
    assert n in Lengths(p.fields);
    var k :| 0 <= k < |p.fields| && p.fields[k].index == 0 && p.fields[k].pattern == LiteralInteger(n);
    assert WellTyped(p.fields[k].pattern, FieldsOf(String)[0].ty);
  }

  lemma {:induction false} UnlistedString(before: seq<Pattern>, n: nat) returns (s: Bytes)
    requires LengthOpen(before, n) && |Listed(before, n)| < Power(256, n) && n <= MAX_LENGTH
    ensures |s| == n && NoneTakes(before, s)
  {
    StringsCount(n);
    var t := Surplus(Strings(n), Listed(before, n));
    InStrings(n, t);
    s := t;
    InListed(before, n, s);
  }

  function Zeros(k: nat): (s: Bytes)
    ensures k <= MAX_LENGTH ==> |s| == k
  {
    if k <= MAX_LENGTH then seq(k, _ => 0) else []
  }

  /** The lengths at which an arm takes some but perhaps not all other strings. */
  function Touched(ps: seq<Pattern>): set<int> {
    if ps == [] then {}
    else if ps[0].LiteralString? then Touched(ps[1..]) + {|ps[0].s|}
    else if ps[0].StructPattern? && |Lengths(ps[0].fields)| == 1 then Touched(ps[1..]) + Lengths(ps[0].fields)
    else Touched(ps[1..])
  }

  lemma {:induction false} InTouched(ps: seq<Pattern>, j: nat, n: nat)
    requires j < |ps| && ((ps[j].LiteralString? && |ps[j].s| == n) || TakesLength(ps[j], n))
    ensures n in Touched(ps)
  {
    if j > 0 { InTouched(ps[1..], j - 1, n); }
  }

  lemma {:induction false} FewTouched(ps: seq<Pattern>)
    ensures |Touched(ps)| <= |ps|
  {
    if ps != [] { FewTouched(ps[1..]); }
  }

  function UpTo(n: nat): set<int> {
    if n == 0 then {0} else UpTo(n - 1) + {n as int}
  }

  lemma {:induction false} UpToCount(n: nat)
    ensures |UpTo(n)| == n + 1 && forall k :: k in UpTo(n) <==> 0 <= k <= n
  {
    if n > 0 { UpToCount(n - 1); }
  }

  /** Fewer arms than lengths leave one that none of them looks at. */
  lemma {:induction false} FreeLength(before: seq<Pattern>) returns (n: nat)
    requires |before| <= MAX_LENGTH && forall j :: 0 <= j < |before| ==> !TakesAll(before[j])
    ensures n <= MAX_LENGTH && NoneTakes(before, Zeros(n))
  {
    FewTouched(before);
    UpToCount(|before|);
    n := Surplus(UpTo(|before|), Touched(before));
    forall j | 0 <= j < |before| ensures !TakesLength(before[j], n) && before[j] != LiteralString(Zeros(n)) {
      if TakesLength(before[j], n) || before[j] == LiteralString(Zeros(n)) { InTouched(before, j, n); }
    }
  }
}
