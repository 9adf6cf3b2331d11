/** The printer of type expressions: when it ends, and when what it prints is read back as the same type. */
module TypeExprPrinter {
  import opened Wrappers
  import opened TypeExprGrammar
  import opened TypeExprRoundTrip

  /** How the lexer reads a word: as an identifier of that name, or as a keyword. */
  ghost predicate IsLexer(word: string -> Kind) {
    forall s :: word(s) == Ident(s) || word(s).KeywordEnum? || word(s).KeywordBuiltin? || word(s).OtherKind?
  }

  ghost predicate IsName(word: string -> Kind, s: string) {
    s != "" && word(s) == Ident(s)
  }

  /** The identifiers among the tokens were read by the lexer. */
  ghost predicate FromLexer(word: string -> Kind, ts: seq<Token>) {
    forall i :: 0 <= i < |ts| && ts[i].kind.Ident? ==> IsName(word, ts[i].kind.name)
  }

  // ---------- the printer ----------

  function Joined(a: Option<seq<Token>>, b: Option<seq<Token>>): Option<seq<Token>> {
    if a.Some? && b.Some? then Some(a.value + b.value) else None
  }

  /** The tokens of what is printed, if that takes no more than the given depth of recursion. For each field of a struct
      the printer calls itself on the struct. Variants follow each other without a separator, so tags run together. ws
      says whether the first token follows a space. */
  function Display(t: TypeExpr, ws: bool, word: string -> Kind, depth: nat): Option<seq<Token>>
    decreases depth, 1, 0
  {
    if depth == 0 then None
    else
      match t
      case Integer(width, signed) => Some([Token(Ident(IntegerName(width, signed)), ws)])
      case Builtin => Some([Token(KeywordBuiltin, ws)])
      case App(namespaces, name, params) =>
        if params == [] then Some(PrintName(namespaces, name, ws))
        else
          Joined(Joined(Some(PrintName(namespaces, name, ws) + [Token(OpenBracket, false)]),
                        DisplayParams(params, false, word, depth - 1)), Some([Token(CloseBracket, true)]))
      case Struct(fields) =>
        Joined(Joined(Some([Token(OpenBrace, ws)]), DisplayFields(t, fields, word, depth - 1)),
               Some([Token(CloseBrace, true)]))
      case Enum(variants) =>
        Joined(Some([Token(KeywordEnum, ws)]), DisplayVariants("", variants, true, word, depth - 1))
      case DotAccess(base, member) =>
        Joined(Display(base, ws, word, depth - 1), Some([Token(Dot, false), Token(Ident(member), false)]))
      case Optional(base) => Joined(Display(base, ws, word, depth - 1), Some([Token(QuestionMark, false)]))
      case Reference(base) => Joined(Display(base, ws, word, depth - 1), Some([Token(Asterisk, false)]))
  }

  function PrintName(namespaces: seq<string>, name: string, ws: bool): seq<Token>
    decreases |namespaces|
  {
    if namespaces == [] then [Token(Ident(name), ws)]
    else
      [Token(Ident(namespaces[0]), ws), Token(Colon, false), Token(Colon, false)]
        + PrintName(namespaces[1..], name, false)
  }

  function DisplayParams(params: seq<Element>, ws: bool, word: string -> Kind, depth: nat): Option<seq<Token>>
    decreases depth, 2, |params|
  {
    if params == [] then Some([])
    else
      Joined(Joined(Display(params[0].ty, ws, word, depth), Some([Token(Comma, false)])),
             DisplayParams(params[1..], true, word, depth))
  }

  function DisplayFields(t: TypeExpr, fields: seq<Element>, word: string -> Kind, depth: nat): Option<seq<Token>>
    decreases depth, 2, |fields|
  {
    if fields == [] then Some([])
    else
      var name := if fields[0].field.Some? then fields[0].field.value else "";
      Joined(Joined(Joined(Some([Token(Ident(name), true), Token(Colon, false)]), Display(t, true, word, depth)),
                    Some([Token(Comma, false)])),
             DisplayFields(t, fields[1..], word, depth))
  }

  function DisplayVariants(text: string, variants: seq<Variant>, ws: bool, word: string -> Kind, depth: nat):
    Option<seq<Token>>
    decreases depth, 2, |variants|
  {
    if variants == [] then Some(if text == "" then [] else [Token(word(text), ws)])
    else
      var all := text + variants[0].tag;
      match variants[0].payload
      case None => DisplayVariants(all, variants[1..], ws, word, depth)
      case Some(t) =>
        Joined(Joined(Joined(Some([Token(word(all), ws), Token(OpenParen, false)]), Display(t, false, word, depth)),
                      Some([Token(CloseParen, false)])),
               DisplayVariants("", variants[1..], false, word, depth))
  }

  // ---------- when it ends ----------

  /** There is no struct with fields in the type. */
  ghost predicate Ends(t: TypeExpr)
    decreases t
  {
    match t
    case App(_, _, params) => forall i :: 0 <= i < |params| ==> Ends(params[i].ty)
    case Struct(fields) => fields == []
    case Enum(variants) =>
      forall i :: 0 <= i < |variants| && variants[i].payload.Some? ==> Ends(variants[i].payload.value)
    case DotAccess(base, _) => Ends(base)
    case Optional(base) => Ends(base)
    case Reference(base) => Ends(base)
    case _ => true
  }

  /** What is printed in the end. */
  ghost function Print(t: TypeExpr, ws: bool, word: string -> Kind): seq<Token>
    requires Ends(t)
    decreases t
  {
    match t
    case Integer(width, signed) => [Token(Ident(IntegerName(width, signed)), ws)]
    case Builtin => [Token(KeywordBuiltin, ws)]
    case App(namespaces, name, params) =>
      if params == [] then PrintName(namespaces, name, ws)
      else
        PrintName(namespaces, name, ws) + [Token(OpenBracket, false)] + PrintParams(params, false, word) +
        [Token(CloseBracket, true)]
    case Struct(fields) => [Token(OpenBrace, ws)] + [] + [Token(CloseBrace, true)]
    case Enum(variants) => [Token(KeywordEnum, ws)] + PrintVariants("", variants, true, word)
    case DotAccess(base, member) => Print(base, ws, word) + [Token(Dot, false), Token(Ident(member), false)]
    case Optional(base) => Print(base, ws, word) + [Token(QuestionMark, false)]
    case Reference(base) => Print(base, ws, word) + [Token(Asterisk, false)]
  }

  ghost function PrintParams(params: seq<Element>, ws: bool, word: string -> Kind): seq<Token>
    requires forall i :: 0 <= i < |params| ==> Ends(params[i].ty)
    decreases params
  {
    if params == [] then []
    else
      assert params decreases to params[0];
      Print(params[0].ty, ws, word) + [Token(Comma, false)] + PrintParams(params[1..], true, word)
  }

  ghost function PrintVariants(text: string, variants: seq<Variant>, ws: bool, word: string -> Kind): seq<Token>
    requires forall i :: 0 <= i < |variants| && variants[i].payload.Some? ==> Ends(variants[i].payload.value)
    decreases variants
  {
    if variants == [] then if text == "" then [] else [Token(word(text), ws)]
    else
      var all := text + variants[0].tag;
      if variants[0].payload.None? then PrintVariants(all, variants[1..], ws, word)
      else
        [Token(word(all), ws), Token(OpenParen, false)] + Print(variants[0].payload.value, false, word) +
        [Token(CloseParen, false)] + PrintVariants("", variants[1..], false, word)
  }

  lemma {:induction false} DisplayedEnds(t: TypeExpr, ws: bool, word: string -> Kind, depth: nat)
    requires Display(t, ws, word, depth).Some?
    ensures Ends(t) && Display(t, ws, word, depth).value == Print(t, ws, word)
    decreases depth, 1, 0
  {
    match t {
      case App(_, _, params) => if params != [] { ParamsDisplayed(params, false, word, depth - 1); }
      case Struct(fields) => if fields != [] { NeverDisplayed(t, true, word, depth - 1); }
      case Enum(variants) => VariantsDisplayed("", variants, true, word, depth - 1);
      case DotAccess(base, _) => DisplayedEnds(base, ws, word, depth - 1);
      case Optional(base) => DisplayedEnds(base, ws, word, depth - 1);
      case Reference(base) => DisplayedEnds(base, ws, word, depth - 1);
      case _ =>
    }
  }

  /** A struct with a field is printed within no depth. */
  lemma {:induction false} NeverDisplayed(t: TypeExpr, ws: bool, word: string -> Kind, depth: nat)
    requires t.Struct? && t.fields != []
    ensures Display(t, ws, word, depth).None?
    decreases depth
  {
    if depth > 0 { NeverDisplayed(t, true, word, depth - 1); }
  }

  lemma {:induction false} ParamsDisplayed(params: seq<Element>, ws: bool, word: string -> Kind, depth: nat)
    requires DisplayParams(params, ws, word, depth).Some?
    ensures forall i :: 0 <= i < |params| ==> Ends(params[i].ty)
    ensures DisplayParams(params, ws, word, depth).value == PrintParams(params, ws, word)
    decreases depth, 2, |params|
  {
    if params != [] {
      DisplayedEnds(params[0].ty, ws, word, depth);
      ParamsDisplayed(params[1..], true, word, depth);
      assert forall i :: 0 < i < |params| ==> params[i] == params[1..][i - 1];
    }
  }

  lemma {:induction false} VariantsDisplayed(text: string, variants: seq<Variant>, ws: bool, word: string -> Kind,
                                             depth: nat)
    requires DisplayVariants(text, variants, ws, word, depth).Some?
    ensures forall i :: 0 <= i < |variants| && variants[i].payload.Some? ==> Ends(variants[i].payload.value)
    ensures DisplayVariants(text, variants, ws, word, depth).value == PrintVariants(text, variants, ws, word)
    decreases depth, 2, |variants|
  {
    if variants != [] {
      var all := text + variants[0].tag;
      if variants[0].payload.None? {
        VariantsDisplayed(all, variants[1..], ws, word, depth);
      } else {
        DisplayedEnds(variants[0].payload.value, false, word, depth);
        VariantsDisplayed("", variants[1..], false, word, depth);
      }
      assert forall i :: 0 < i < |variants| ==> variants[i] == variants[1..][i - 1];
    }
  }

  // ---------- a depth that suffices ----------

  ghost function Depth(t: TypeExpr): nat
    decreases t
  {
    match t
    case App(_, _, params) => 1 + ParamsDepth(params)
    case Enum(variants) => 1 + VariantsDepth(variants)
    case DotAccess(base, _) => 1 + Depth(base)
    case Optional(base) => 1 + Depth(base)
    case Reference(base) => 1 + Depth(base)
    case _ => 1
  }

  ghost function ParamsDepth(params: seq<Element>): nat
    decreases params
  {
    if params == [] then 0
    else
      assert params decreases to params[0];
      Depth(params[0].ty) + ParamsDepth(params[1..])
  }

  ghost function VariantsDepth(variants: seq<Variant>): nat
    decreases variants
  {
    if variants == [] then 0
    else (if variants[0].payload.Some? then Depth(variants[0].payload.value) else 0) + VariantsDepth(variants[1..])
  }

  lemma {:induction false} EndsWithin(t: TypeExpr, ws: bool, word: string -> Kind, depth: nat)
    requires Ends(t) && depth >= Depth(t)
    ensures Display(t, ws, word, depth).Some?
    decreases t
  {
    match t {
      case App(_, _, params) => if params != [] { ParamsWithin(params, false, word, depth - 1); }
      case Enum(variants) => VariantsWithin("", variants, true, word, depth - 1);
      case DotAccess(base, _) => EndsWithin(base, ws, word, depth - 1);
      case Optional(base) => EndsWithin(base, ws, word, depth - 1);
      case Reference(base) => EndsWithin(base, ws, word, depth - 1);
      case _ =>
    }
  }

  lemma {:induction false} ParamsWithin(params: seq<Element>, ws: bool, word: string -> Kind, depth: nat)
    requires (forall i :: 0 <= i < |params| ==> Ends(params[i].ty)) && depth >= ParamsDepth(params)
    ensures DisplayParams(params, ws, word, depth).Some?
    decreases params
  {
    if params != [] {
      assert params decreases to params[0];
      EndsWithin(params[0].ty, ws, word, depth);
      ParamsWithin(params[1..], true, word, depth);
    }
  }

  lemma {:induction false} VariantsWithin(text: string, variants: seq<Variant>, ws: bool, word: string -> Kind,
                                          depth: nat)
    requires forall i :: 0 <= i < |variants| && variants[i].payload.Some? ==> Ends(variants[i].payload.value)
    requires depth >= VariantsDepth(variants)
    ensures DisplayVariants(text, variants, ws, word, depth).Some?
    decreases variants
  {
    if variants != [] {
      if variants[0].payload.None? {
        VariantsWithin(text + variants[0].tag, variants[1..], ws, word, depth);
      } else {
        EndsWithin(variants[0].payload.value, false, word, depth);
        VariantsWithin("", variants[1..], false, word, depth);
      }
    }
  }

  /** Main result on ending: printing ends if and only if there is no struct with a field in the type. */
  lemma {:induction false} PrintingEndsExactlyWhen(t: TypeExpr, ws: bool, word: string -> Kind)
    ensures (exists depth :: Display(t, ws, word, depth).Some?) <==> Ends(t)
    ensures forall depth :: Display(t, ws, word, depth).Some? ==>
      Ends(t) && Display(t, ws, word, depth).value == Print(t, ws, word)
  {
    forall depth | Display(t, ws, word, depth).Some?
      ensures Ends(t) && Display(t, ws, word, depth).value == Print(t, ws, word)
    {
      DisplayedEnds(t, ws, word, depth);
    }
    if Ends(t) { EndsWithin(t, ws, word, Depth(t)); }
  }

  // ---------- what is read back ----------

  /** No struct with fields, no enum with two variants, and no enum as a type argument. */
  ghost predicate Faithful(t: TypeExpr)
    decreases t
  {
    match t
    case App(_, _, params) => forall i :: 0 <= i < |params| ==> Faithful(params[i].ty) && !params[i].ty.Enum?
    case Struct(fields) => fields == []
    case Enum(variants) =>
      |variants| == 1 && (variants[0].payload.Some? ==> Faithful(variants[0].payload.value))
    case DotAccess(base, _) => Faithful(base)
    case Optional(base) => Faithful(base)
    case Reference(base) => Faithful(base)
    case _ => true
  }

  /** The trees that have a spelling made by the lexer. */
  ghost predicate Producible(t: TypeExpr, word: string -> Kind)
    decreases t
  {
    match t
    case App(namespaces, name, params) =>
      && IntegerKeyword(if namespaces == [] then name else namespaces[0]).None?
      && forall i :: 0 <= i < |params| ==> params[i].field.None? && Producible(params[i].ty, word)
    case Struct(fields) => forall i :: 0 <= i < |fields| ==> fields[i].field.Some? && Producible(fields[i].ty, word)
    case Enum(variants) =>
      && variants != []
      && forall i :: 0 <= i < |variants| ==>
        && IsName(word, variants[i].tag)
        && (variants[i].payload.Some? ==> Producible(variants[i].payload.value, word))
    case DotAccess(base, _) => !Modified(base) && Producible(base, word)
    case Optional(base) => !Modified(base) && Producible(base, word)
    case Reference(base) => !Modified(base) && Producible(base, word)
    case _ => true
  }

  lemma {:induction false} FaithfulEnds(t: TypeExpr)
    requires Faithful(t)
    ensures Ends(t)
    decreases t
  {
    match t {
      case App(_, _, params) =>
        forall i | 0 <= i < |params| ensures Ends(params[i].ty) { FaithfulEnds(params[i].ty); }
      case Enum(variants) => if variants[0].payload.Some? { FaithfulEnds(variants[0].payload.value); }
      case DotAccess(base, _) => FaithfulEnds(base);
      case Optional(base) => FaithfulEnds(base);
      case Reference(base) => FaithfulEnds(base);
      case _ =>
    }
  }

  lemma {:induction false} PrintNameSpells(namespaces: seq<string>, name: string, ws: bool)
    ensures SpellsSegments(namespaces, name, PrintName(namespaces, name, ws))
    ensures namespaces != [] ==> !PrintName(namespaces, name, ws)[1].ws
    decreases |namespaces|
  {
    if namespaces != [] {
      PrintNameSpells(namespaces[1..], name, false);
      assert PrintName(namespaces, name, ws)[3..] == PrintName(namespaces[1..], name, false);
    }
  }

  /** What is printed of such a type spells it. */
  lemma {:induction false} PrintSpells(t: TypeExpr, ws: bool, word: string -> Kind)
    requires Producible(t, word) && Faithful(t)
    ensures Ends(t) && Spells(t, Print(t, ws, word))
    decreases t, 1
  {
    FaithfulEnds(t);
    match t {
      case App(namespaces, name, params) =>
        PrintNameSpells(namespaces, name, ws);
        if params != [] { PrintParamsSpell(params, false, word); }
        PrintedApp(namespaces, name, params, ws, word);
      case Struct(_) => assert Print(t, ws, word)[1..] == [Token(CloseBrace, true)];
      case Enum(variants) => PrintedEnum(t, ws, word);
      case DotAccess(base, member) =>
        PrintSpells(base, ws, word);
        SpelledDot(base, member, Print(base, ws, word));
      case Optional(base) =>
        PrintSpells(base, ws, word);
        SpelledModified(t, base, Print(base, ws, word), Token(QuestionMark, false));
      case Reference(base) =>
        PrintSpells(base, ws, word);
        SpelledModified(t, base, Print(base, ws, word), Token(Asterisk, false));
      case _ =>
    }
  }

  lemma {:induction false} SpelledDot(base: TypeExpr, member: string, front: seq<Token>)
    requires !Modified(base) && Spells(base, front)
    ensures Spells(DotAccess(base, member), front + [Token(Dot, false), Token(Ident(member), false)])
  {
    TakeFront(front, [Token(Dot, false), Token(Ident(member), false)]);
  }

  lemma {:induction false} SpelledModified(t: TypeExpr, base: TypeExpr, front: seq<Token>, last: Token)
    requires !Modified(base) && Spells(base, front)
    requires (t == Optional(base) && last.kind.QuestionMark?) || (t == Reference(base) && last.kind.Asterisk?)
    ensures Spells(t, front + [last])
  {
    TakeFront(front, [last]);
  }

  lemma TakeFront<T>(a: seq<T>, b: seq<T>)
    ensures (a + b)[..|a + b| - |b|] == a
  {
  }

  lemma {:induction false} PrintedApp(namespaces: seq<string>, name: string, params: seq<Element>, ws: bool,
                                      word: string -> Kind)
    requires SpellsName(namespaces, name, PrintName(namespaces, name, ws)) && Ends(App(namespaces, name, params))
    requires params != [] ==>
      SpellsDelimited(false, params, PrintParams(params, false, word) + [Token(CloseBracket, true)])
    ensures Spells(App(namespaces, name, params), Print(App(namespaces, name, params), ws, word))
  {
    var ts, n := Print(App(namespaces, name, params), ws, word), NameLength(namespaces);
    assert ts[..n] == PrintName(namespaces, name, ws);
    if params != [] {
      assert ts[n..][1..] == PrintParams(params, false, word) + [Token(CloseBracket, true)];
    } else {
      assert ts[n..] == [];
    }
  }

  lemma {:induction false} PrintParamsSpell(params: seq<Element>, ws: bool, word: string -> Kind)
    requires forall i :: 0 <= i < |params| ==>
      params[i].field.None? && Producible(params[i].ty, word) && Faithful(params[i].ty) && !params[i].ty.Enum?
    ensures forall i :: 0 <= i < |params| ==> Ends(params[i].ty)
    ensures SpellsDelimited(false, params, PrintParams(params, ws, word) + [Token(CloseBracket, true)])
    decreases params, 0
  {
    forall i | 0 <= i < |params| ensures Ends(params[i].ty) { FaithfulEnds(params[i].ty); }
    if params != [] {
      assert params decreases to params[0];
      PrintSpells(params[0].ty, ws, word);
      PrintParamsSpell(params[1..], true, word);
      SpelledParam(params[0], params[1..], Print(params[0].ty, ws, word),
                   PrintParams(params[1..], true, word) + [Token(CloseBracket, true)]);
      assert [params[0]] + params[1..] == params;
      assert PrintParams(params, ws, word) + [Token(CloseBracket, true)] ==
        Print(params[0].ty, ws, word) + [Token(Comma, false)] +
        (PrintParams(params[1..], true, word) + [Token(CloseBracket, true)]);
    }
  }

  lemma {:induction false} SpelledParam(e: Element, more: seq<Element>, first: seq<Token>, rest: seq<Token>)
    requires e.field.None? && Spells(e.ty, first) && !e.ty.Enum? && SpellsDelimited(false, more, rest)
    ensures SpellsDelimited(false, [e] + more, first + [Token(Comma, false)] + rest)
  {
    var ts := first + [Token(Comma, false)] + rest;
    assert ts[..|first|] == first && ts[|first|..][1..] == rest;
    DelimitedCons(false, e, more, ts, |first|);
  }

  lemma {:induction false} PrintedEnum(t: TypeExpr, ws: bool, word: string -> Kind)
    requires t.Enum? && Producible(t, word) && Faithful(t) && Ends(t)
    ensures Spells(t, Print(t, ws, word))
    decreases t, 0
  {
    var v, ts := t.variants[0], Print(t, ws, word)[1..];
    assert t.variants == [v];
    PrintedVariant(v, true, word);
    OneVariant(v, [], true, word);
    assert [v] + [] == t.variants;
    assert ts == PrintVariants("", t.variants, true, word);
    assert PrintVariant(v, true, word) + [] == PrintVariant(v, true, word);
    assert ts[..|ts|] == ts && ts[|ts|..] == [];
    VariantsCons(v, [], ts, |ts|);
  }

  /** A variant on its own. */
  ghost function PrintVariant(v: Variant, ws: bool, word: string -> Kind): seq<Token>
    requires v.payload.Some? ==> Ends(v.payload.value)
  {
    if v.payload.None? then [Token(word(v.tag), ws)]
    else
      [Token(word(v.tag), ws), Token(OpenParen, false)] + Print(v.payload.value, false, word) +
      [Token(CloseParen, false)]
  }

  /** The first variant is printed as it would be on its own if it is the only one or has a payload. */
  lemma {:induction false} OneVariant(v: Variant, more: seq<Variant>, ws: bool, word: string -> Kind)
    requires v.tag != "" && (v.payload.Some? ==> Ends(v.payload.value)) && (more == [] || v.payload.Some?)
    requires forall i :: 0 <= i < |more| && more[i].payload.Some? ==> Ends(more[i].payload.value)
    ensures forall i :: 0 <= i < |[v] + more| && ([v] + more)[i].payload.Some? ==> Ends(([v] + more)[i].payload.value)
    ensures PrintVariants("", [v] + more, ws, word) ==
      PrintVariant(v, ws, word) + PrintVariants("", more, false, word)
  {
    var all := [v] + more;
    assert all[1..] == more && all[0] == v && "" + v.tag == v.tag;
    if v.payload.None? {
      assert PrintVariants(v.tag, [], ws, word) == [Token(word(v.tag), ws)];
      assert PrintVariants("", all, ws, word) == PrintVariants(v.tag, more, ws, word);
      assert PrintVariant(v, ws, word) + [] == PrintVariant(v, ws, word);
    }
  }

  lemma {:induction false} PrintedVariant(v: Variant, ws: bool, word: string -> Kind)
    requires IsName(word, v.tag)
    requires v.payload.Some? ==> Producible(v.payload.value, word) && Faithful(v.payload.value)
    ensures v.payload.Some? ==> Ends(v.payload.value)
    ensures SpellsVariant(v, PrintVariant(v, ws, word))
    decreases v
  {
    if v.payload.Some? {
      PrintSpells(v.payload.value, false, word);
      var ts := PrintVariant(v, ws, word);
      assert ts[2..|ts| - 1] == Print(v.payload.value, false, word);
    }
  }

  /** Trees that have been spelled can be spelled. */
  lemma {:induction false} SpelledIsProducible(t: TypeExpr, ts: seq<Token>, word: string -> Kind)
    requires Spells(t, ts) && FromLexer(word, ts)
    ensures Producible(t, word)
    decreases t, 1
  {
    match t {
      case App(namespaces, _, params) =>
        var args := ts[NameLength(namespaces)..];
        if args != [] { DelimitedProducible(false, params, args[1..], word); }
      case Struct(fields) => DelimitedProducible(true, fields, ts[1..], word);
      case Enum(variants) => VariantsProducible(variants, ts[1..], word);
      case DotAccess(base, _) => SpelledIsProducible(base, ts[..|ts| - 2], word);
      case Optional(base) => SpelledIsProducible(base, ts[..|ts| - 1], word);
      case Reference(base) => SpelledIsProducible(base, ts[..|ts| - 1], word);
      case _ =>
    }
  }

  lemma {:induction false} DelimitedProducible(fields: bool, elems: seq<Element>, ts: seq<Token>, word: string -> Kind)
    requires SpellsDelimited(fields, elems, ts) && FromLexer(word, ts)
    ensures forall i :: 0 <= i < |elems| ==> elems[i].field.Some? == fields && Producible(elems[i].ty, word)
    decreases elems, 0
  {
    if elems != [] {
      var k :| 0 <= k < |ts| && SpellsElement(fields, elems[0], ts[..k])
        && SpellsAfter(fields, elems[0].ty, elems[1..], ts[k..]);
      assert elems decreases to elems[0];
      SpelledIsProducible(elems[0].ty, if fields then ts[..k][2..] else ts[..k], word);
      if ts[k].kind.Comma? { DelimitedProducible(fields, elems[1..], ts[k..][1..], word); }
      forall i | 0 <= i < |elems| ensures elems[i].field.Some? == fields && Producible(elems[i].ty, word) {
        if i > 0 { assert elems[i] == elems[1..][i - 1]; }
      }
    }
  }

  lemma {:induction false} VariantsProducible(variants: seq<Variant>, ts: seq<Token>, word: string -> Kind)
    requires SpellsVariants(variants, ts) && FromLexer(word, ts)
    ensures forall i :: 0 <= i < |variants| ==>
      && IsName(word, variants[i].tag)
      && (variants[i].payload.Some? ==> Producible(variants[i].payload.value, word))
    decreases variants, 0
  {
    var k :| 0 <= k <= |ts| && SpellsVariant(variants[0], ts[..k]) && SpellsMoreVariants(variants[1..], ts[k..]);
    if variants[0].payload.Some? { SpelledIsProducible(variants[0].payload.value, ts[..k][2..k - 1], word); }
    assert ts[0] == ts[..k][0];
    if |variants| > 1 { VariantsProducible(variants[1..], ts[k..][1..], word); }
    forall i | 0 <= i < |variants|
      ensures IsName(word, variants[i].tag)
      ensures variants[i].payload.Some? ==> Producible(variants[i].payload.value, word)
    {
      if i > 0 { assert variants[i] == variants[1..][i - 1]; }
    }
  }

  // ---------- what is not read back ----------

  /** A type without its postfix operators. */
  ghost function Core(t: TypeExpr): TypeExpr
    decreases t
  {
    match t
    case DotAccess(base, _) => Core(base)
    case Optional(base) => Core(base)
    case Reference(base) => Core(base)
    case _ => t
  }

  lemma {:induction false} PostfixKeepsCore(t: TypeExpr, ts: seq<Token>)
    ensures ParsePostfix(t, ts).Got? ==> Core(ParsePostfix(t, ts).value) == Core(t)
    decreases |ts|
  {
    if At(ts, 0).kind.Dot? && At(ts, 1).kind.Ident? { PostfixKeepsCore(DotAccess(t, ts[1].kind.name), ts[2..]); }
  }

  /** The operators are printed after the core. */
  lemma {:induction false} PrintCore(t: TypeExpr, ws: bool, word: string -> Kind) returns (more: seq<Token>)
    requires Ends(t) && Producible(t, word)
    ensures Ends(Core(t)) && Producible(Core(t), word) && Print(t, ws, word) == Print(Core(t), ws, word) + more
    ensures (Faithful(t) <==> Faithful(Core(t))) && Depth(Core(t)) <= Depth(t) && (more == [] || Core(t) != t)
    ensures Core(Core(t)) == Core(t)
    decreases t
  {
    match t {
      case DotAccess(base, member) =>
        more := PrintCore(base, ws, word);
        more := more + [Token(Dot, false), Token(Ident(member), false)];
      case Optional(base) =>
        more := PrintCore(base, ws, word);
        more := more + [Token(QuestionMark, false)];
      case Reference(base) =>
        more := PrintCore(base, ws, word);
        more := more + [Token(Asterisk, false)];
      case _ => more := [];
    }
  }

  /** The first variant parsed is the first in the list, and there are others exactly if a comma follows it. */
  lemma {:induction false} VariantsFirst(ts: seq<Token>)
    requires ParseVariants([], ts).Got?
    ensures At(ts, 0).kind.Ident? && ParseVariant(ts).Got?
    ensures var all, v := ParseVariants([], ts).value, ParseVariant(ts);
      all != [] && all[0] == v.value && (|all| >= 2 <==> At(v.rest, 0).kind.Comma?)
  {
    var v := ParseVariant(ts);
    VariantsStep([], ts);
    assert [] + [v.value] == [v.value];
    if At(v.rest, 0).kind.Comma? {
      VariantsSound([v.value], v.rest[1..]);
      MoreThanDone([v.value], v.rest[1..]);
    }
  }

  lemma {:induction false} MoreThanDone(done: seq<Variant>, ts: seq<Token>)
    requires ParseVariants(done, ts).Got?
    ensures |ParseVariants(done, ts).value| > |done|
  {
    VariantsStep(done, ts);
    var v := ParseVariant(ts);
    if At(v.rest, 0).kind.Comma? { VariantsSound(done + [v.value], v.rest[1..]); }
  }

  /** The first element parsed is the next in the list. */
  lemma {:induction false} DelimitedFirst(done: seq<Element>, ts: seq<Token>)
    requires ParseDelimited(false, done, ts).Got? && !At(ts, 0).kind.CloseBracket?
    ensures ParseElement(false, ts).Got?
    ensures var all := ParseDelimited(false, done, ts).value;
      |all| > |done| && all[|done|] == ParseElement(false, ts).value
  {
    var e := ParseElement(false, ts);
    if At(e.rest, 0).kind.Comma? { DelimitedSound(false, done + [e.value], e.rest[1..]); }
  }

  /** The first word printed has run together the tags up to the first payload. */
  lemma {:induction false} FirstWord(text: string, variants: seq<Variant>, ws: bool, word: string -> Kind)
    returns (w: string)
    requires variants != [] && forall i :: 0 <= i < |variants| ==> variants[i].tag != ""
    requires forall i :: 0 <= i < |variants| && variants[i].payload.Some? ==> Ends(variants[i].payload.value)
    ensures PrintVariants(text, variants, ws, word) != []
    ensures PrintVariants(text, variants, ws, word)[0].kind == word(w)
    ensures |w| >= |text| + |variants[0].tag|
    ensures variants[0].payload.None? && |variants| >= 2 ==> |w| > |text| + |variants[0].tag|
    decreases |variants|
  {
    var all := text + variants[0].tag;
    if variants[0].payload.None? && |variants| >= 2 {
      assert forall i :: 0 < i < |variants| ==> variants[i] == variants[1..][i - 1];
      w := FirstWord(all, variants[1..], ws, word);
    } else {
      w := all;
      if variants[0].payload.None? { assert variants[1..] == []; }
    }
  }

  /** What is known of a type that is printed and read again. */
  ghost predicate Printed(t: TypeExpr, word: string -> Kind) {
    Ends(t) && Producible(t, word) && IsLexer(word)
  }

  /** A type that is not of the faithful kind, or an enum with a comma after it, is not read back. */
  lemma {:induction false} NotReadBack(t: TypeExpr, ws: bool, word: string -> Kind, tail: seq<Token>)
    requires Printed(t, word) && (!Faithful(t) || (t.Enum? && At(tail, 0).kind.Comma?))
    ensures var r := ParseType(Print(t, ws, word) + tail); !(r.Got? && r.value == t)
    decreases Depth(t), 3
  {
    var more := PrintCore(t, ws, word);
    var c := Core(t);
    assert Print(t, ws, word) + tail == Print(c, ws, word) + (more + tail);
    assert t.Enum? ==> more + tail == tail;
    BaseNotReadBack(c, ws, word, more + tail);
    var b := ParseBase(Print(c, ws, word) + (more + tail));
    if b.Got? { PostfixKeepsCore(b.value, b.rest); }
  }

  lemma {:induction false} BaseNotReadBack(c: TypeExpr, ws: bool, word: string -> Kind, tail: seq<Token>)
    requires Printed(c, word) && Core(c) == c && (!Faithful(c) || (c.Enum? && At(tail, 0).kind.Comma?))
    ensures var r := ParseBase(Print(c, ws, word) + tail); !(r.Got? && Core(r.value) == c)
    decreases Depth(c), 2
  {
    var ts := Print(c, ws, word) + tail;
    if c.Enum? {
      assert ts[1..] == PrintVariants("", c.variants, true, word) + tail;
      VariantsNotReadBack(c.variants, word, tail);
    } else if c.App? {
      AppNotReadBack(c, ws, word, tail);
    }
  }

  lemma {:induction false} AppNotReadBack(c: TypeExpr, ws: bool, word: string -> Kind, tail: seq<Token>)
    requires Printed(c, word) && c.App? && !Faithful(c)
    ensures var r := ParseBase(Print(c, ws, word) + tail); !(r.Got? && r.value == c)
    decreases Depth(c), 1
  {
    var name := PrintName(c.namespaces, c.name, ws);
    var args := PrintParams(c.params, false, word) + ([Token(CloseBracket, true)] + tail);
    UnfaithfulParam(c);
    RegroupAll(name, [Token(OpenBracket, false)], PrintParams(c.params, false, word), [Token(CloseBracket, true)],
      tail);
    PrintNameSpells(c.namespaces, c.name, ws);
    BracketsParsed(c.namespaces, c.name, name, args);
    ParamsNotReadBack([], c.params, false, word, tail);
    assert [] + c.params == c.params;
  }

  lemma {:induction false} UnfaithfulParam(c: TypeExpr)
    requires c.App? && !Faithful(c)
    ensures exists i :: 0 <= i < |c.params| && (!Faithful(c.params[i].ty) || c.params[i].ty.Enum?)
  {
  }

  lemma RegroupAll<T>(a: seq<T>, b: seq<T>, c: seq<T>, d: seq<T>, e: seq<T>)
    ensures a + b + c + d + e == a + (b + (c + (d + e)))
  {
  }

  lemma {:induction false} BracketsParsed(namespaces: seq<string>, name: string, ts: seq<Token>, args: seq<Token>)
    requires SpellsName(namespaces, name, ts)
    ensures var r, params := ParseBase(ts + ([Token(OpenBracket, false)] + args)), ParseDelimited(false, [], args);
      if params.Got? then r == Got(App(namespaces, name, params.value), params.rest) else r == Fail
  {
    var rest := [Token(OpenBracket, false)] + args;
    NameComplete(namespaces, name, ts, rest);
    assert rest[1..] == args;
  }

  lemma {:induction false} ParamsNotReadBack(done: seq<Element>, params: seq<Element>, ws: bool, word: string -> Kind,
                                             tail: seq<Token>)
    requires forall i :: 0 <= i < |params| ==> params[i].field.None? && Printed(params[i].ty, word)
    requires forall i :: 0 <= i < |params| ==> Ends(params[i].ty)
    requires exists i :: 0 <= i < |params| && (!Faithful(params[i].ty) || params[i].ty.Enum?)
    ensures var r := ParseDelimited(false, done, PrintParams(params, ws, word) + ([Token(CloseBracket, true)] + tail));
      !(r.Got? && r.value == done + params)
    decreases ParamsDepth(params) + 1, 0, |params|
  {
    var e, close := params[0], [Token(CloseBracket, true)] + tail;
    var after := PrintParams(params[1..], true, word) + close;
    var ts := PrintParams(params, ws, word) + close;
    assert ts == Print(e.ty, ws, word) + ([Token(Comma, false)] + after);
    if Faithful(e.ty) && !e.ty.Enum? {
      PrintSpells(e.ty, ws, word);
      DelimitedHead(false, done, e, Print(e.ty, ws, word), [Token(Comma, false)] + after);
      assert ([Token(Comma, false)] + after)[1..] == after;
      var i :| 0 <= i < |params| && (!Faithful(params[i].ty) || params[i].ty.Enum?);
      assert params[1..][i - 1] == params[i];
      ParamsNotReadBack(done + [e], params[1..], true, word, tail);
      ConsAppend(done, params);
    } else {
      NotReadBack(e.ty, ws, word, [Token(Comma, false)] + after);
      OtherElement(done, e, ts);
      assert (done + params)[|done|] == e;
    }
  }

  lemma {:induction false} OtherElement(done: seq<Element>, e: Element, ts: seq<Token>)
    requires !(ParseType(ts).Got? && ParseType(ts).value == e.ty)
    ensures var r := ParseDelimited(false, done, ts);
      r.Got? && |r.value| > |done| ==> r.value[|done|] != e
  {
    if ParseDelimited(false, done, ts).Got? && !At(ts, 0).kind.CloseBracket? { DelimitedFirst(done, ts); }
  }

  lemma {:induction false} VariantsNotReadBack(variants: seq<Variant>, word: string -> Kind, tail: seq<Token>)
    requires Printed(Enum(variants), word) && (!Faithful(Enum(variants)) || At(tail, 0).kind.Comma?)
    ensures var r := ParseVariants([], PrintVariants("", variants, true, word) + tail); !(r.Got? && r.value == variants)
    decreases VariantsDepth(variants) + 1, 1
  {
    var v := variants[0];
    var ts := PrintVariants("", variants, true, word) + tail;
    if ParseVariants([], ts).Got? {
      VariantsFirst(ts);
      if v.payload.None? && |variants| >= 2 {
        var w := FirstWord("", variants, true, word);
      } else {
        FirstVariantNotReadBack(v, variants[1..], word, tail);
        assert [v] + variants[1..] == variants;
      }
    }
  }

  lemma {:induction false} FirstVariantNotReadBack(v: Variant, more: seq<Variant>, word: string -> Kind,
                                                   tail: seq<Token>)
    requires Printed(Enum([v] + more), word) && (!Faithful(Enum([v] + more)) || At(tail, 0).kind.Comma?)
    requires more == [] || v.payload.Some?
    ensures var ts := PrintVariants("", [v] + more, true, word) + tail;
      At(ts, 0).kind.Ident? && ParseVariant(ts).Got? && ParseVariant(ts).value == v ==>
        (At(ParseVariant(ts).rest, 0).kind.Comma? <==> more == [])
    decreases VariantsDepth([v] + more) + 1, 0
  {
    var all := [v] + more;
    assert all[0] == v && all[1..] == more;
    assert forall i :: 0 <= i < |more| ==> more[i] == all[i + 1];
    OneVariant(v, more, true, word);
    var after := PrintVariants("", more, false, word) + tail;
    assert PrintVariants("", all, true, word) + tail == PrintVariant(v, true, word) + after;
    if v.payload.Some? && !Faithful(v.payload.value) {
      PayloadNotReadBack(v, word, after);
    } else {
      assert more == [] ==> At(tail, 0).kind.Comma?;
      AfterFirst(more, word, tail);
      VariantReadBack(v, word, after);
    }
  }

  lemma {:induction false} VariantReadBack(v: Variant, word: string -> Kind, after: seq<Token>)
    requires IsName(word, v.tag) && (v.payload.None? ==> !At(after, 0).kind.OpenParen?)
    requires v.payload.Some? ==>
      Ends(v.payload.value) && Producible(v.payload.value, word) && Faithful(v.payload.value)
    ensures var ts := PrintVariant(v, true, word) + after;
      At(ts, 0).kind.Ident? && ParseVariant(ts) == Got(v, after)
  {
    PrintedVariant(v, true, word);
    VariantComplete(v, PrintVariant(v, true, word), after);
  }

  lemma {:induction false} PayloadNotReadBack(v: Variant, word: string -> Kind, after: seq<Token>)
    requires v.payload.Some? && Printed(v.payload.value, word) && !Faithful(v.payload.value)
    ensures var ts := PrintVariant(v, true, word) + after;
      At(ts, 0).kind.Ident? && ParseVariant(ts).Got? ==> ParseVariant(ts).value != v
    decreases Depth(v.payload.value), 4
  {
    var p, close := v.payload.value, [Token(CloseParen, false)] + after;
    NotReadBack(p, false, word, close);
    assert (PrintVariant(v, true, word) + after)[2..] == Print(p, false, word) + close;
  }

  /** What is printed after the first variant starts with no comma, unless the enum has ended. */
  lemma {:induction false} AfterFirst(more: seq<Variant>, word: string -> Kind, tail: seq<Token>)
    requires IsLexer(word) && (more == [] ==> At(tail, 0).kind.Comma?)
    requires forall i :: 0 <= i < |more| ==> more[i].tag != ""
    requires forall i :: 0 <= i < |more| && more[i].payload.Some? ==> Ends(more[i].payload.value)
    ensures var after := PrintVariants("", more, false, word) + tail;
      && (At(after, 0).kind.Comma? <==> more == [])
      && (more == [] ==> !At(after, 0).kind.OpenParen?)
  {
    if more == [] {
      assert PrintVariants("", more, false, word) + tail == tail;
    } else {
      var w := FirstWord("", more, false, word);
      assert (PrintVariants("", more, false, word) + tail)[0] == PrintVariants("", more, false, word)[0];
    }
  }

  /** Main result: the printer ends on a type that was parsed, and what it prints is read back as that type, if and only
      if the type has no struct with fields, no enum with two variants, and no enum as a type argument. It is then read
      back in exactly the contexts that do not extend it. */
  lemma {:induction false} RoundTripExactlyWhen(source: seq<Token>, ws: bool, word: string -> Kind)
    requires ParseType(source).Got? && IsLexer(word) && FromLexer(word, source)
    ensures var t := ParseType(source).value;
      Ends(t) && ParseType(Print(t, ws, word)) == Got(t, []) <==> Faithful(t)
    ensures var t := ParseType(source).value;
      Faithful(t) ==> forall rest ::
        Stops(t, Print(t, ws, word), rest) <==> ParseType(Print(t, ws, word) + rest) == Got(t, rest)
  {
    var t := ParseType(source).value;
    TypeSound(source);
    SpelledIsProducible(t, source[..|source| - |ParseType(source).rest|], word);
    if Faithful(t) {
      FaithfulReadBack(t, ws, word);
    } else if Ends(t) {
      NotReadBack(t, ws, word, []);
      assert Print(t, ws, word) + [] == Print(t, ws, word);
    }
  }

  lemma {:induction false} FaithfulReadBack(t: TypeExpr, ws: bool, word: string -> Kind)
    requires Producible(t, word) && Faithful(t)
    ensures Ends(t) && ParseType(Print(t, ws, word)) == Got(t, [])
    ensures forall rest ::
      Stops(t, Print(t, ws, word), rest) <==> ParseType(Print(t, ws, word) + rest) == Got(t, rest)
  {
    PrintSpells(t, ws, word);
    var ts := Print(t, ws, word);
    forall rest ensures Stops(t, ts, rest) <==> ParseType(ts + rest) == Got(t, rest) { ParserIsGrammar(t, ts, rest); }
    assert ts + [] == ts && Stops(t, ts, []);
  }

  // ---------- three types ----------

  /** `{ a: i64 }` is parsed, and printing it never ends. */
  lemma {:induction false} StructNeverPrinted(source: seq<Token>, ws: bool, word: string -> Kind)
    requires source == [Token(OpenBrace, false), Token(Ident("a"), true), Token(Colon, false),
                        Token(Ident("i64"), true), Token(CloseBrace, true)]
    ensures var t := Struct([Element(Some("a"), Integer(B64, true))]);
      ParseType(source) == Got(t, []) && forall depth :: Display(t, ws, word, depth).None?
  {
    var e := Element(Some("a"), Integer(B64, true));
    var t := Struct([e]);
    assert source[1..][..3][2..] == [Token(Ident("i64"), true)];
    assert SpellsElement(true, e, source[1..][..3]);
    DelimitedCons(true, e, [], source[1..], 3);
    assert [e] + [] == t.fields && source + [] == source;
    TypeComplete(t, source, []);
    forall depth: nat ensures Display(t, ws, word, depth).None? { NeverDisplayed(t, ws, word, depth); }
  }

  /** `enum A, B` is printed as `enum AB`, which is read as an enum with one variant. */
  lemma {:induction false} TagsRunTogether(ws: bool, word: string -> Kind)
    requires word("AB") == Ident("AB")
    ensures var t, read := Enum([Variant("A", None), Variant("B", None)]), Enum([Variant("AB", None)]);
      && Print(t, ws, word) == [Token(KeywordEnum, ws), Token(Ident("AB"), true)]
      && ParseType(Print(t, ws, word)) == Got(read, [])
  {
    var a, b, ab := Variant("A", None), Variant("B", None), Variant("AB", None);
    assert [a, b][1..] == [b] && [b][1..] == [] && "" + "A" == "A" && "A" + "B" == "AB";
    assert PrintVariants("A", [b], true, word) == PrintVariants("AB", [], true, word) == [Token(Ident("AB"), true)];
    assert PrintVariants("", [a, b], true, word) == [Token(Ident("AB"), true)];
    var ts := [Token(KeywordEnum, ws), Token(Ident("AB"), true)];
    assert ts[1..][..1] == [Token(Ident("AB"), true)] && ts[1..][1..] == [];
    VariantsCons(ab, [], ts[1..], 1);
    assert [ab] + [] == [ab] && ts + [] == ts;
    TypeComplete(Enum([ab]), ts, []);
  }

  /** `Pair[enum A, i64]` has one type argument, an enum with the variants A and i64. */
  lemma {:induction false} EnumTakesComma(source: seq<Token>)
    requires source == [Token(Ident("Pair"), false), Token(OpenBracket, false), Token(KeywordEnum, false),
                        Token(Ident("A"), true), Token(Comma, false), Token(Ident("i64"), true),
                        Token(CloseBracket, false)]
    ensures var both := Enum([Variant("A", None), Variant("i64", None)]);
      ParseType(source) == Got(App([], "Pair", [Element(None, both)]), [])
  {
    var both := Enum([Variant("A", None), Variant("i64", None)]);
    var args := source[2..];
    TwoTags(both, args[..4]);
    var e := Element(None, both);
    DelimitedCons(false, e, [], args, 4);
    assert [e] + [] == [e] && source[..1] == [source[0]] && source[1..][1..] == args && source + [] == source;
    TypeComplete(App([], "Pair", [e]), source, []);
  }

  lemma {:induction false} TwoTags(t: TypeExpr, ts: seq<Token>)
    requires |ts| == 4 && ts[0].kind.KeywordEnum? && ts[1].kind.Ident? && ts[2].kind.Comma? && ts[3].kind.Ident?
    requires t == Enum([Variant(ts[1].kind.name, None), Variant(ts[3].kind.name, None)])
    ensures Spells(t, ts)
  {
    var a, b := t.variants[0], t.variants[1];
    var last := ts[1..][1..][1..];
    assert last == [ts[3]] && last[..1] == last && last[1..] == [];
    VariantsCons(b, [], last, 1);
    assert [b] + [] == [b] && ts[1..][..1] == [ts[1]];
    VariantsCons(a, [b], ts[1..], 1);
    assert [a] + [b] == t.variants;
  }
}
