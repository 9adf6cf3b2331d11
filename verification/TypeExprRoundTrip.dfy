/** The parsing function is exactly the grammar. */
module TypeExprRoundTrip {
  import opened Wrappers
  import opened TypeExprGrammar

  /** Nothing in rest would extend a bare name spelled by n segments. */
  ghost predicate NameStops(namespaces: seq<string>, rest: seq<Token>) {
    && !At(rest, 0).kind.OpenBracket?
    && !(At(rest, 0).kind.Colon? && At(rest, 1).kind.Colon? && (namespaces == [] ==> !At(rest, 0).ws))
  }

  /** The innermost application is spelled without brackets and rest does not extend it. */
  ghost predicate BareStops(t: TypeExpr, ts: seq<Token>, rest: seq<Token>) {
    t.App? && |ts| == NameLength(t.namespaces) ==> NameStops(t.namespaces, rest)
  }

  /** Nothing in rest would extend the last variant or be a comma before another one. */
  ghost predicate EnumStops(variants: seq<Variant>, rest: seq<Token>) {
    && !At(rest, 0).kind.Comma?
    && (variants != [] && variants[|variants| - 1].payload.None? ==> !At(rest, 0).kind.OpenParen?)
  }

  ghost predicate BaseStops(t: TypeExpr, ts: seq<Token>, rest: seq<Token>) {
    BareStops(t, ts, rest) && (t.Enum? ==> EnumStops(t.variants, rest))
  }

  /** The parser stops between the spelling ts of t and rest. */
  ghost predicate Stops(t: TypeExpr, ts: seq<Token>, rest: seq<Token>) {
    !Modified(t) ==>
      && BaseStops(t, ts, rest)
      && !At(rest, 0).kind.Dot? && !At(rest, 0).kind.QuestionMark? && !At(rest, 0).kind.Asterisk?
  }

  // ---------- completeness: every spelling is parsed ----------

  lemma {:induction false} SegmentsComplete(seen: seq<string>, namespaces: seq<string>, name: string,
                                            ts: seq<Token>, rest: seq<Token>)
    requires SpellsSegments(namespaces, name, ts)
    requires !(At(rest, 0).kind.Colon? && At(rest, 1).kind.Colon?)
    ensures ParseSegments(seen, ts + rest) == Got((seen + namespaces, name), rest)
    decreases |namespaces|
  {
    var all := ts + rest;
    if namespaces == [] {
      assert all[1..] == rest && seen + namespaces == seen;
      assert At(all, 1) == At(rest, 0) && At(all, 2) == At(rest, 1);
    } else {
      SegmentsComplete(seen + [namespaces[0]], namespaces[1..], name, ts[3..], rest);
      assert all[3..] == ts[3..] + rest;
      assert seen + [namespaces[0]] + namespaces[1..] == seen + namespaces;
    }
  }

  lemma NameComplete(namespaces: seq<string>, name: string, ts: seq<Token>, rest: seq<Token>)
    requires SpellsName(namespaces, name, ts)
    requires NameStops(namespaces, rest) || At(rest, 0).kind.OpenBracket?
    ensures At(ts + rest, 0).kind.Ident? && IntegerKeyword(At(ts + rest, 0).kind.name).None?
    ensures ParseName(ts + rest) == Got((namespaces, name), rest)
  {
    var all := ts + rest;
    if namespaces == [] {
      assert all[1..] == rest && At(all, 1) == At(rest, 0) && At(all, 2) == At(rest, 1);
    } else {
      SegmentsComplete([namespaces[0]], namespaces[1..], name, ts[3..], rest);
      assert all[3..] == ts[3..] + rest;
      assert [namespaces[0]] + namespaces[1..] == namespaces;
    }
  }

  lemma {:induction false} TypeStartsProperly(t: TypeExpr, ts: seq<Token>)
    requires Spells(t, ts)
    ensures ts != [] && !ts[0].kind.CloseBracket?
    decreases t
  {
    match t {
      case App(namespaces, name, _) =>
        assert ts[..NameLength(namespaces)][0] == ts[0];
      case DotAccess(base, _) => TypeStartsProperly(base, ts[..|ts| - 2]);
      case Optional(base) => TypeStartsProperly(base, ts[..|ts| - 1]);
      case Reference(base) => TypeStartsProperly(base, ts[..|ts| - 1]);
      case _ =>
    }
  }

  /** Parsing a spelling of an unmodified type leaves the postfix loop at rest. */
  lemma {:induction false} BaseComplete(t: TypeExpr, ts: seq<Token>, rest: seq<Token>)
    requires Spells(t, ts) && !Modified(t) && BaseStops(t, ts, rest)
    ensures ParseType(ts + rest) == ParsePostfix(t, rest)
    decreases t, 1
  {
    var all := ts + rest;
    match t {
      case Integer(_, _) => assert all[1..] == rest;
      case Builtin => assert all[1..] == rest;
      case App(_, _, _) => AppComplete(t, ts, rest);
      case Struct(_) => StructComplete(t, ts, rest);
      case Enum(_) => EnumComplete(t, ts, rest);
      case DotAccess(base, member) =>
        var front, tail := ts[..|ts| - 2], ts[|ts| - 2..] + rest;
        assert all == front + tail;
        BaseComplete(base, front, tail);
        assert tail[2..] == rest;
    }
  }

  lemma {:induction false} StructComplete(t: TypeExpr, ts: seq<Token>, rest: seq<Token>)
    requires t.Struct? && Spells(t, ts)
    ensures ParseBase(ts + rest) == Got(t, rest)
    decreases t, 0
  {
    DropHead(ts, rest);
    DelimitedComplete(true, [], t.fields, ts[1..], rest);
    assert [] + t.fields == t.fields;
  }

  lemma {:induction false} EnumComplete(t: TypeExpr, ts: seq<Token>, rest: seq<Token>)
    requires t.Enum? && Spells(t, ts) && EnumStops(t.variants, rest)
    ensures ParseBase(ts + rest) == Got(t, rest)
    decreases t, 0
  {
    DropHead(ts, rest);
    VariantsComplete([], t.variants, ts[1..], rest);
    assert [] + t.variants == t.variants;
  }

  lemma {:induction false} AppComplete(t: TypeExpr, ts: seq<Token>, rest: seq<Token>)
    requires t.App? && Spells(t, ts) && BareStops(t, ts, rest)
    ensures ParseBase(ts + rest) == Got(t, rest)
    decreases t, 0
  {
    var n := NameLength(t.namespaces);
    var afterName := ts[n..] + rest;
    assert ts + rest == ts[..n] + afterName;
    if ts[n..] == [] {
      assert afterName == rest;
      NameComplete(t.namespaces, t.name, ts[..n], afterName);
    } else {
      assert At(afterName, 0) == ts[n];
      NameComplete(t.namespaces, t.name, ts[..n], afterName);
      assert afterName[1..] == ts[n..][1..] + rest;
      DelimitedComplete(false, [], t.params, ts[n..][1..], rest);
      assert [] + t.params == t.params;
    }
    assert ParseArgs(afterName) == Got(t.params, rest);
  }

  lemma {:induction false} TypeComplete(t: TypeExpr, ts: seq<Token>, rest: seq<Token>)
    requires Spells(t, ts) && Stops(t, ts, rest)
    ensures ParseType(ts + rest) == Got(t, rest)
    decreases t, 2
  {
    if Modified(t) {
      ModifiedComplete(t, ts, rest);
    } else {
      BaseComplete(t, ts, rest);
      assert ParsePostfix(t, rest) == Got(t, rest);
    }
  }

  lemma {:induction false} ModifiedComplete(t: TypeExpr, ts: seq<Token>, rest: seq<Token>)
    requires Spells(t, ts) && Modified(t)
    ensures ParseType(ts + rest) == Got(t, rest)
    decreases t, 0
  {
    var front, last := ts[..|ts| - 1], ts[|ts| - 1];
    BeforeModifier(t, t.base, front, last, rest);
    assert front + ([last] + rest) == ts + rest;
  }

  /** A modifier ends a type. */
  lemma {:induction false} BeforeModifier(t: TypeExpr, base: TypeExpr, front: seq<Token>, last: Token,
                                          rest: seq<Token>)
    requires (t == Optional(base) && last.kind.QuestionMark?) || (t == Reference(base) && last.kind.Asterisk?)
    requires !Modified(base) && Spells(base, front)
    ensures ParseType(front + ([last] + rest)) == Got(t, rest)
    decreases base, 2
  {
    var tail := [last] + rest;
    assert At(tail, 0) == last && tail[1..] == rest;
    BaseComplete(base, front, tail);
  }

  lemma {:induction false} DelimitedComplete(fields: bool, done: seq<Element>, elems: seq<Element>, ts: seq<Token>,
                                             rest: seq<Token>)
    requires SpellsDelimited(fields, elems, ts)
    ensures ParseDelimited(fields, done, ts + rest) == Got(done + elems, rest)
    decreases elems, 0
  {
    var all := ts + rest;
    if elems == [] {
      assert all[1..] == rest && done + elems == done;
    } else {
      var k :| 0 <= k < |ts| && SpellsElement(fields, elems[0], ts[..k])
        && SpellsAfter(fields, elems[0].ty, elems[1..], ts[k..]);
      var after := ts[k..];
      Regroup(ts[..k], after, rest);
      assert ts[..k] + after == ts;
      DelimitedHead(fields, done, elems[0], ts[..k], after + rest);
      DropHead(after, rest);
      ConsAppend(done, elems);
      if after[0].kind.Comma? {
        DelimitedComplete(fields, done + [elems[0]], elems[1..], after[1..], rest);
      } else {
        assert after[1..] == [] && [] + rest == rest;
        assert elems[1..] == [] && done + [elems[0]] + [] == done + [elems[0]];
      }
    }
  }

  lemma Regroup<T>(a: seq<T>, b: seq<T>, c: seq<T>)
    ensures a + b + c == a + (b + c)
  {
  }

  lemma DropHead<T>(a: seq<T>, b: seq<T>)
    requires a != []
    ensures (a + b)[0] == a[0] && (a + b)[1..] == a[1..] + b
  {
  }

  lemma ConsAppend<T>(done: seq<T>, more: seq<T>)
    requires more != []
    ensures done + [more[0]] + more[1..] == done + more
  {
  }

  lemma {:induction false} DelimitedHead(fields: bool, done: seq<Element>, e: Element, ts: seq<Token>,
                                         tail: seq<Token>)
    requires SpellsElement(fields, e, ts)
    requires At(tail, 0).kind == Closer(fields) || (At(tail, 0).kind.Comma? && !e.ty.Enum?)
    ensures ParseDelimited(fields, done, ts + tail) ==
      if At(tail, 0).kind == Closer(fields) then Got(done + [e], tail[1..])
      else ParseDelimited(fields, done + [e], tail[1..])
    decreases e, 3
  {
    if fields {
      var spelled := ts[2..];
      assert (ts + tail)[2..] == spelled + tail && At(ts + tail, 0) == ts[0] && At(ts + tail, 1) == ts[1];
      TypeComplete(e.ty, spelled, tail);
    } else {
      TypeStartsProperly(e.ty, ts);
      assert At(ts + tail, 0) == ts[0];
      TypeComplete(e.ty, ts, tail);
    }
  }

  lemma {:induction false} VariantsComplete(done: seq<Variant>, variants: seq<Variant>, ts: seq<Token>,
                                            rest: seq<Token>)
    requires SpellsVariants(variants, ts) && EnumStops(variants, rest)
    ensures ParseVariants(done, ts + rest) == Got(done + variants, rest)
    decreases variants
  {
    var k :| 0 <= k <= |ts| && SpellsVariant(variants[0], ts[..k]) && SpellsMoreVariants(variants[1..], ts[k..]);
    var after := ts[k..];
    Regroup(ts[..k], after, rest);
    assert ts[..k] + after == ts;
    ConsAppend(done, variants);
    if variants[1..] == [] {
      assert after + rest == rest;
      VariantComplete(variants[0], ts[..k], rest);
      assert done + [variants[0]] + [] == done + [variants[0]];
    } else {
      DropHead(after, rest);
      VariantComplete(variants[0], ts[..k], after + rest);
      VariantsComplete(done + [variants[0]], variants[1..], after[1..], rest);
    }
  }

  lemma {:induction false} VariantComplete(v: Variant, ts: seq<Token>, tail: seq<Token>)
    requires SpellsVariant(v, ts) && (v.payload.None? ==> !At(tail, 0).kind.OpenParen?)
    ensures At(ts + tail, 0).kind.Ident? && ParseVariant(ts + tail) == Got(v, tail)
    decreases v
  {
    var all := ts + tail;
    assert At(all, 0) == ts[0];
    if v.payload.None? {
      assert all[1..] == tail && At(all, 1) == At(tail, 0);
    } else {
      var spelled, after := ts[2..|ts| - 1], [ts[|ts| - 1]] + tail;
      assert all[2..] == spelled + after && At(all, 1) == ts[1];
      TypeComplete(v.payload.value, spelled, after);
      assert after[1..] == tail;
    }
  }

  // ---------- soundness: whatever is parsed was spelled ----------

  lemma {:induction false} SegmentsSound(seen: seq<string>, ts: seq<Token>)
    requires ParseSegments(seen, ts).Got?
    ensures var (namespaces, name) := ParseSegments(seen, ts).value;
      var rest := ParseSegments(seen, ts).rest;
      && seen <= namespaces
      && |rest| < |ts| && rest == ts[|ts| - |rest|..]
      && SpellsSegments(namespaces[|seen|..], name, ts[..|ts| - |rest|])
    decreases |ts|
  {
    if At(ts, 1).kind.Colon? && At(ts, 2).kind.Colon? {
      SegmentsSound(seen + [ts[0].kind.name], ts[3..]);
      var (namespaces, name) := ParseSegments(seen, ts).value;
      var rest := ParseSegments(seen, ts).rest;
      var consumed := ts[..|ts| - |rest|];
      assert consumed[3..] == ts[3..][..|ts[3..]| - |rest|];
      assert namespaces[|seen|..][1..] == namespaces[|seen| + 1..];
    }
  }

  lemma NameSound(ts: seq<Token>)
    requires At(ts, 0).kind.Ident? && IntegerKeyword(ts[0].kind.name).None? && ParseName(ts).Got?
    ensures var (namespaces, name) := ParseName(ts).value;
      var rest := ParseName(ts).rest;
      && |rest| < |ts| && rest == ts[|ts| - |rest|..]
      && SpellsName(namespaces, name, ts[..|ts| - |rest|])
      && (!At(rest, 0).kind.OpenBracket? ==> NameStops(namespaces, rest))
  {
    if At(ts, 1).kind.Colon? && At(ts, 2).kind.Colon? && !At(ts, 1).ws {
      SegmentsSound([ts[0].kind.name], ts[3..]);
      var (namespaces, name) := ParseName(ts).value;
      var rest := ParseName(ts).rest;
      var consumed := ts[..|ts| - |rest|];
      assert consumed[3..] == ts[3..][..|ts[3..]| - |rest|];
      SegmentsStop([ts[0].kind.name], ts[3..]);
    }
  }

  lemma {:induction false} SegmentsStop(seen: seq<string>, ts: seq<Token>)
    requires ParseSegments(seen, ts).Got?
    ensures var rest := ParseSegments(seen, ts).rest;
      !(At(rest, 0).kind.Colon? && At(rest, 1).kind.Colon?)
    decreases |ts|
  {
    if At(ts, 1).kind.Colon? && At(ts, 2).kind.Colon? {
      SegmentsStop(seen + [ts[0].kind.name], ts[3..]);
    }
  }

  /** ts is a spelling of t followed by rest, and the parser stops there. */
  ghost predicate Splits(t: TypeExpr, ts: seq<Token>, rest: seq<Token>) {
    && |rest| <= |ts| && rest == ts[|ts| - |rest|..]
    && Spells(t, ts[..|ts| - |rest|])
    && Stops(t, ts[..|ts| - |rest|], rest)
  }

  /** As Splits, for a type whose postfix operators may still follow. */
  ghost predicate SplitsBase(t: TypeExpr, ts: seq<Token>, rest: seq<Token>) {
    && |rest| <= |ts| && rest == ts[|ts| - |rest|..]
    && Spells(t, ts[..|ts| - |rest|])
    && !Modified(t) && BaseStops(t, ts[..|ts| - |rest|], rest)
  }

  lemma {:induction false} DotExtends(t: TypeExpr, ts: seq<Token>, rest: seq<Token>)
    requires SplitsBase(t, ts, rest) && At(rest, 0).kind.Dot? && At(rest, 1).kind.Ident?
    ensures SplitsBase(DotAccess(t, rest[1].kind.name), ts, rest[2..])
  {
    var head := ts[..|ts| - |rest[2..]|];
    assert head[..|head| - 2] == ts[..|ts| - |rest|];
    assert head[|head| - 2] == rest[0] && head[|head| - 1] == rest[1];
  }

  lemma {:induction false} ModifierExtends(t: TypeExpr, ts: seq<Token>, rest: seq<Token>)
    requires SplitsBase(t, ts, rest) && (At(rest, 0).kind.QuestionMark? || At(rest, 0).kind.Asterisk?)
    ensures Splits(if At(rest, 0).kind.QuestionMark? then Optional(t) else Reference(t), ts, rest[1..])
  {
    var head := ts[..|ts| - |rest[1..]|];
    assert head[..|head| - 1] == ts[..|ts| - |rest|];
    assert head[|head| - 1] == rest[0];
  }

  /** Soundness of the postfix loop. */
  lemma {:induction false} PostfixSound(t: TypeExpr, ts: seq<Token>, rest: seq<Token>)
    requires SplitsBase(t, ts, rest)
    ensures ParsePostfix(t, rest).Got? ==> Splits(ParsePostfix(t, rest).value, ts, ParsePostfix(t, rest).rest)
    decreases |rest|
  {
    match At(rest, 0).kind {
      case Dot =>
        if At(rest, 1).kind.Ident? {
          DotExtends(t, ts, rest);
          PostfixSound(DotAccess(t, rest[1].kind.name), ts, rest[2..]);
        }
      case QuestionMark => ModifierExtends(t, ts, rest);
      case Asterisk => ModifierExtends(t, ts, rest);
      case _ => NothingExtends(t, ts, rest);
    }
  }

  lemma {:induction false} NothingExtends(t: TypeExpr, ts: seq<Token>, rest: seq<Token>)
    requires SplitsBase(t, ts, rest)
    requires !At(rest, 0).kind.Dot? && !At(rest, 0).kind.QuestionMark? && !At(rest, 0).kind.Asterisk?
    ensures Splits(t, ts, rest)
  {
  }

  lemma {:induction false} TypeSound(ts: seq<Token>)
    ensures ParseType(ts).Got? ==> Splits(ParseType(ts).value, ts, ParseType(ts).rest)
    decreases |ts|, 3
  {
    var b := ParseBase(ts);
    if b.Got? {
      BaseSound(ts);
      PostfixSound(b.value, ts, b.rest);
    }
  }

  lemma {:induction false} BaseSound(ts: seq<Token>)
    requires ParseBase(ts).Got?
    ensures SplitsBase(ParseBase(ts).value, ts, ParseBase(ts).rest)
    decreases |ts|, 2
  {
    var r := ParseBase(ts);
    match At(ts, 0).kind {
      case Ident(first) =>
        IntegerNameUnique(first);
        if IntegerKeyword(first).None? { ArgsSound(ts); }
      case OpenBrace =>
        DelimitedSound(true, [], ts[1..]);
        assert r.value.fields[0..] == r.value.fields;
        TailSpelled(ts, r.rest);
      case KeywordEnum =>
        VariantsSound([], ts[1..]);
        assert r.value.variants[0..] == r.value.variants;
        TailSpelled(ts, r.rest);
      case _ =>
    }
  }

  lemma TailSpelled(ts: seq<Token>, rest: seq<Token>)
    requires |rest| < |ts|
    ensures ts[1..][..|ts[1..]| - |rest|] == ts[..|ts| - |rest|][1..]
    ensures ts[1..][|ts[1..]| - |rest|..] == ts[|ts| - |rest|..]
  {
  }

  lemma {:induction false} ArgsSound(ts: seq<Token>)
    requires At(ts, 0).kind.Ident? && IntegerKeyword(ts[0].kind.name).None? && ParseBase(ts).Got?
    ensures SplitsBase(ParseBase(ts).value, ts, ParseBase(ts).rest)
    decreases |ts|, 1
  {
    NameSound(ts);
    var (namespaces, name) := ParseName(ts).value;
    var afterName := ParseName(ts).rest;
    if At(afterName, 0).kind.OpenBracket? {
      DelimitedSound(false, [], afterName[1..]);
      BracketedApp(namespaces, name, ParseArgs(afterName).value, ts, afterName, ParseBase(ts).rest);
    } else {
      BareApp(namespaces, name, ts, afterName);
    }
  }

  ghost predicate SplitsName(namespaces: seq<string>, name: string, ts: seq<Token>, rest: seq<Token>) {
    && |rest| < |ts| && rest == ts[|ts| - |rest|..]
    && SpellsName(namespaces, name, ts[..|ts| - |rest|])
  }

  lemma BareApp(namespaces: seq<string>, name: string, ts: seq<Token>, rest: seq<Token>)
    requires SplitsName(namespaces, name, ts, rest) && NameStops(namespaces, rest)
    ensures SplitsBase(App(namespaces, name, []), ts, rest)
  {
    var spelled, n := ts[..|ts| - |rest|], NameLength(namespaces);
    assert spelled[..n] == spelled && spelled[n..] == [];
  }

  lemma BracketedApp(namespaces: seq<string>, name: string, params: seq<Element>,
                     ts: seq<Token>, afterName: seq<Token>, rest: seq<Token>)
    requires SplitsName(namespaces, name, ts, afterName)
    requires At(afterName, 0).kind.OpenBracket? && SplitsDelimited(false, [], params, afterName[1..], rest)
    ensures SplitsBase(App(namespaces, name, params), ts, rest)
  {
    var spelled, n := ts[..|ts| - |rest|], NameLength(namespaces);
    assert spelled[..n] == ts[..|ts| - |afterName|];
    assert spelled[n..][0] == afterName[0];
    assert spelled[n..][1..] == afterName[1..][..|afterName[1..]| - |rest|];
    assert params[0..] == params;
  }

  /** After `done`, ts spells the further elements of `all` and what closes the list, then rest. */
  ghost predicate SplitsDelimited(fields: bool, done: seq<Element>, all: seq<Element>, ts: seq<Token>,
                                  rest: seq<Token>)
  {
    && done <= all
    && |rest| <= |ts| && rest == ts[|ts| - |rest|..]
    && SpellsDelimited(fields, all[|done|..], ts[..|ts| - |rest|])
  }

  /** As Splits, for an element of a list. */
  ghost predicate SplitsElement(fields: bool, e: Element, ts: seq<Token>, rest: seq<Token>) {
    && |rest| < |ts| && rest == ts[|ts| - |rest|..]
    && SpellsElement(fields, e, ts[..|ts| - |rest|]) && (e.ty.Enum? ==> EnumStops(e.ty.variants, rest))
  }

  lemma {:induction false} DelimitedSound(fields: bool, done: seq<Element>, ts: seq<Token>)
    ensures ParseDelimited(fields, done, ts).Got? ==>
      SplitsDelimited(fields, done, ParseDelimited(fields, done, ts).value, ts, ParseDelimited(fields, done, ts).rest)
    decreases |ts|, 5
  {
    var r := ParseDelimited(fields, done, ts);
    if At(ts, 0).kind == Closer(fields) {
      assert ts[..|ts| - |r.rest|] == [ts[0]];
    } else if r.Got? {
      ElementSound(fields, ts);
      var e := ParseElement(fields, ts);
      if At(e.rest, 0).kind == Closer(fields) {
        LastElement(fields, done, e.value, ts, e.rest);
      } else {
        DelimitedSound(fields, done + [e.value], e.rest[1..]);
        NextElement(fields, done, e.value, r.value, ts, e.rest, r.rest);
      }
    }
  }

  lemma {:induction false} ElementSound(fields: bool, ts: seq<Token>)
    requires ParseElement(fields, ts).Got?
    ensures SplitsElement(fields, ParseElement(fields, ts).value, ts, ParseElement(fields, ts).rest)
    decreases |ts|, 4
  {
    if fields {
      TypeSound(ts[2..]);
      FieldSpelled(ParseType(ts[2..]).value, ts, ParseType(ts[2..]).rest);
    } else {
      TypeSound(ts);
    }
  }

  lemma {:induction false} FieldSpelled(t: TypeExpr, ts: seq<Token>, rest: seq<Token>)
    requires |ts| >= 2 && ts[0].kind.Ident? && ts[1].kind.Colon? && Splits(t, ts[2..], rest)
    ensures SplitsElement(true, Element(Some(ts[0].kind.name), t), ts, rest)
  {
    var spelled := ts[..|ts| - |rest|];
    assert spelled[2..] == ts[2..][..|ts[2..]| - |rest|];
    assert ts[2..][|ts[2..]| - |rest|..] == ts[|ts| - |rest|..];
  }

  lemma LastElement(fields: bool, done: seq<Element>, e: Element, ts: seq<Token>, rest: seq<Token>)
    requires SplitsElement(fields, e, ts, rest) && At(rest, 0).kind == Closer(fields)
    ensures SplitsDelimited(fields, done, done + [e], ts, rest[1..])
  {
    var consumed, k := ts[..|ts| - |rest[1..]|], |ts| - |rest|;
    assert consumed[..k] == ts[..k] && consumed[k..] == [rest[0]];
    DelimitedCons(fields, e, [], consumed, k);
    assert (done + [e])[|done|..] == [e] + [];
  }

  lemma NextElement(fields: bool, done: seq<Element>, e: Element, all: seq<Element>, ts: seq<Token>, mid: seq<Token>,
                    rest: seq<Token>)
    requires SplitsElement(fields, e, ts, mid) && At(mid, 0).kind.Comma?
    requires SplitsDelimited(fields, done + [e], all, mid[1..], rest)
    ensures SplitsDelimited(fields, done, all, ts, rest)
  {
    var consumed, k := ts[..|ts| - |rest|], |ts| - |mid|;
    assert consumed[..k] == ts[..k];
    assert consumed[k..][1..] == mid[1..][..|mid[1..]| - |rest|];
    DelimitedCons(fields, e, all[|done| + 1..], consumed, k);
    assert all[|done|..] == [e] + all[|done| + 1..];
  }

  lemma DelimitedCons(fields: bool, e: Element, more: seq<Element>, ts: seq<Token>, k: nat)
    requires k < |ts| && SpellsElement(fields, e, ts[..k]) && SpellsAfter(fields, e.ty, more, ts[k..])
    ensures SpellsDelimited(fields, [e] + more, ts)
  {
    assert ([e] + more)[1..] == more;
  }

  /** After `done`, ts spells the further variants of `all`, then rest, where the enum ends. */
  ghost predicate SplitsVariants(done: seq<Variant>, all: seq<Variant>, ts: seq<Token>, rest: seq<Token>) {
    && done <= all && EnumStops(all, rest)
    && |rest| < |ts| && rest == ts[|ts| - |rest|..]
    && SpellsVariants(all[|done|..], ts[..|ts| - |rest|])
  }

  ghost predicate SplitsVariant(v: Variant, ts: seq<Token>, rest: seq<Token>) {
    && |rest| < |ts| && rest == ts[|ts| - |rest|..]
    && SpellsVariant(v, ts[..|ts| - |rest|])
    && (v.payload.None? ==> !At(rest, 0).kind.OpenParen?)
  }

  lemma {:induction false} VariantsSound(done: seq<Variant>, ts: seq<Token>)
    ensures ParseVariants(done, ts).Got? ==>
      SplitsVariants(done, ParseVariants(done, ts).value, ts, ParseVariants(done, ts).rest)
    decreases |ts|, 5
  {
    var r := ParseVariants(done, ts);
    if r.Got? {
      VariantSound(ts);
      var v := ParseVariant(ts);
      VariantsStep(done, ts);
      if At(v.rest, 0).kind.Comma? {
        VariantsSound(done + [v.value], v.rest[1..]);
        NextVariant(done, v.value, r.value, ts, v.rest, r.rest);
      } else {
        LastVariant(done, v.value, ts, v.rest);
      }
    }
  }

  lemma {:induction false} VariantsStep(done: seq<Variant>, ts: seq<Token>)
    requires At(ts, 0).kind.Ident? && ParseVariant(ts).Got?
    ensures var v := ParseVariant(ts);
      ParseVariants(done, ts) ==
        if At(v.rest, 0).kind.Comma? then ParseVariants(done + [v.value], v.rest[1..])
        else Got(done + [v.value], v.rest)
  {
    var v := ParseVariant(ts);
    assert ParseVariants(done, ts) == MoreVariants(done + [v.value], v.rest);
  }

  lemma {:induction false} LastVariant(done: seq<Variant>, v: Variant, ts: seq<Token>, rest: seq<Token>)
    requires SplitsVariant(v, ts, rest) && !At(rest, 0).kind.Comma?
    ensures SplitsVariants(done, done + [v], ts, rest)
  {
    var consumed := ts[..|ts| - |rest|];
    assert consumed[..|consumed|] == consumed && consumed[|consumed|..] == [];
    VariantsCons(v, [], consumed, |consumed|);
    assert (done + [v])[|done|..] == [v] + [];
  }

  lemma {:induction false} NextVariant(done: seq<Variant>, v: Variant, all: seq<Variant>, ts: seq<Token>,
                                       mid: seq<Token>, rest: seq<Token>)
    requires SplitsVariant(v, ts, mid)
    requires At(mid, 0).kind.Comma? && SplitsVariants(done + [v], all, mid[1..], rest)
    ensures SplitsVariants(done, all, ts, rest)
  {
    var consumed, k := ts[..|ts| - |rest|], |ts| - |mid|;
    assert consumed[..k] == ts[..k];
    assert consumed[k..][1..] == mid[1..][..|mid[1..]| - |rest|];
    VariantsCons(v, all[|done| + 1..], consumed, k);
    assert all[|done|..] == [v] + all[|done| + 1..];
  }

  lemma VariantsCons(v: Variant, more: seq<Variant>, ts: seq<Token>, k: nat)
    requires k <= |ts| && SpellsVariant(v, ts[..k]) && SpellsMoreVariants(more, ts[k..])
    ensures SpellsVariants([v] + more, ts)
  {
    assert ([v] + more)[1..] == more;
  }

  lemma {:induction false} VariantSound(ts: seq<Token>)
    requires At(ts, 0).kind.Ident? && ParseVariant(ts).Got?
    ensures SplitsVariant(ParseVariant(ts).value, ts, ParseVariant(ts).rest)
    decreases |ts|, 4
  {
    var r := ParseVariant(ts);
    if At(ts, 1).kind.OpenParen? {
      TypeSound(ts[2..]);
      var inner := ParseType(ts[2..]);
      var consumed := ts[..|ts| - |r.rest|];
      assert consumed[2..|consumed| - 1] == ts[2..][..|ts[2..]| - |inner.rest|];
      assert consumed[|consumed| - 1] == inner.rest[0];
    }
  }

  /** Main result: the parser returns t and leaves rest exactly when the tokens before rest
      spell t and rest does not extend them. */
  lemma ParserIsGrammar(t: TypeExpr, ts: seq<Token>, rest: seq<Token>)
    ensures ParseType(ts + rest) == Got(t, rest) <==> Spells(t, ts) && Stops(t, ts, rest)
  {
    if Spells(t, ts) && Stops(t, ts, rest) {
      TypeComplete(t, ts, rest);
    }
    if ParseType(ts + rest) == Got(t, rest) {
      TypeSound(ts + rest);
      assert (ts + rest)[..|ts|] == ts;
    }
  }
}
