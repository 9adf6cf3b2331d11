/** Type expressions: tokens, trees, a declarative grammar, the printer, and the parsing function. */
module TypeExprGrammar {
  import opened Wrappers

  datatype Kind =
    | Ident(name: string)
    | Colon | Comma | OpenBracket | CloseBracket | OpenBrace | CloseBrace | OpenParen | CloseParen
    | Dot | QuestionMark | Asterisk | KeywordBuiltin | KeywordEnum
    | Eof | OtherKind

  /** ws: the token is preceded by whitespace. */
  datatype Token = Token(kind: Kind, ws: bool)

  datatype Width = B8 | B16 | B32 | B64

  datatype TypeExpr =
    | Integer(width: Width, signed: bool)
    | Builtin
    | App(namespaces: seq<string>, name: string, params: seq<Element>)
    | Struct(fields: seq<Element>)
    | Enum(variants: seq<Variant>)
    | DotAccess(base: TypeExpr, member: string)
    | Optional(base: TypeExpr)
    | Reference(base: TypeExpr)

  /** A type argument, which has no name, or a struct field, which has one. */
  datatype Element = Element(field: Option<string>, ty: TypeExpr)

  datatype Variant = Variant(tag: string, payload: Option<TypeExpr>)

  function IntegerKeyword(name: string): Option<TypeExpr> {
    if name == "u8" then Some(Integer(B8, false))
    else if name == "u16" then Some(Integer(B16, false))
    else if name == "u32" then Some(Integer(B32, false))
    else if name == "u64" then Some(Integer(B64, false))
    else if name == "i8" then Some(Integer(B8, true))
    else if name == "i16" then Some(Integer(B16, true))
    else if name == "i32" then Some(Integer(B32, true))
    else if name == "i64" then Some(Integer(B64, true))
    else None
  }

  function IntegerName(width: Width, signed: bool): (name: string)
    ensures IntegerKeyword(name) == Some(Integer(width, signed))
  {
    match (signed, width)
    case (true, B8) => "i8"
    case (true, B16) => "i16"
    case (true, B32) => "i32"
    case (true, B64) => "i64"
    case (false, B8) => "u8"
    case (false, B16) => "u16"
    case (false, B32) => "u32"
    case (false, B64) => "u64"
  }

  lemma IntegerNameUnique(name: string)
    ensures IntegerKeyword(name).Some? ==>
      var n := IntegerKeyword(name).value;
      n.Integer? && IntegerName(n.width, n.signed) == name
  {
  }

  // ---------- declarative grammar ----------

  ghost predicate Modified(t: TypeExpr) {
    t.Optional? || t.Reference?
  }

  /** What closes a list of struct fields or of type arguments. */
  function Closer(fields: bool): Kind {
    if fields then CloseBrace else CloseBracket
  }

  /** ts is a spelling of t: any whitespace where the lexer is indifferent, trailing commas and empty
      brackets allowed. */
  ghost predicate Spells(t: TypeExpr, ts: seq<Token>)
    decreases t
  {
    match t
    case Integer(width, signed) => |ts| == 1 && ts[0].kind == Ident(IntegerName(width, signed))
    case Builtin => |ts| == 1 && ts[0].kind.KeywordBuiltin?
    case App(namespaces, name, params) =>
      && NameLength(namespaces) <= |ts|
      && SpellsName(namespaces, name, ts[..NameLength(namespaces)])
      && SpellsArgs(params, ts[NameLength(namespaces)..])
    case Struct(fields) => |ts| >= 1 && ts[0].kind.OpenBrace? && SpellsDelimited(true, fields, ts[1..])
    case Enum(variants) => |ts| >= 1 && ts[0].kind.KeywordEnum? && SpellsVariants(variants, ts[1..])
    case DotAccess(base, member) =>
      && |ts| >= 2 && !Modified(base)
      && ts[|ts| - 2].kind.Dot? && ts[|ts| - 1].kind == Ident(member)
      && Spells(base, ts[..|ts| - 2])
    case Optional(base) =>
      |ts| >= 1 && !Modified(base) && ts[|ts| - 1].kind.QuestionMark? && Spells(base, ts[..|ts| - 1])
    case Reference(base) =>
      |ts| >= 1 && !Modified(base) && ts[|ts| - 1].kind.Asterisk? && Spells(base, ts[..|ts| - 1])
  }

  function NameLength(namespaces: seq<string>): nat {
    3 * |namespaces| + 1
  }

  /** `a::b::c`: no space before the first colon, and the first segment is no integer keyword. */
  ghost predicate SpellsName(namespaces: seq<string>, name: string, ts: seq<Token>) {
    && IntegerKeyword(if namespaces == [] then name else namespaces[0]).None?
    && SpellsSegments(namespaces, name, ts)
    && (namespaces != [] ==> !ts[1].ws)
  }

  ghost predicate SpellsSegments(namespaces: seq<string>, name: string, ts: seq<Token>)
    ensures SpellsSegments(namespaces, name, ts) ==> |ts| == NameLength(namespaces)
    decreases |namespaces|
  {
    if namespaces == [] then |ts| == 1 && ts[0].kind == Ident(name)
    else
      && |ts| >= 3 && ts[0].kind == Ident(namespaces[0]) && ts[1].kind.Colon? && ts[2].kind.Colon?
      && SpellsSegments(namespaces[1..], name, ts[3..])
  }

  ghost predicate SpellsArgs(params: seq<Element>, ts: seq<Token>)
    decreases params, 2
  {
    if ts == [] then params == []
    else ts[0].kind.OpenBracket? && SpellsDelimited(false, params, ts[1..])
  }

  ghost predicate SpellsDelimited(fields: bool, elems: seq<Element>, ts: seq<Token>)
    decreases elems, 1
  {
    if elems == [] then |ts| == 1 && ts[0].kind == Closer(fields)
    else
      exists k :: 0 <= k < |ts| && SpellsElement(fields, elems[0], ts[..k]) &&
        SpellsAfter(fields, elems[0].ty, elems[1..], ts[k..])
  }

  ghost predicate SpellsElement(fields: bool, e: Element, ts: seq<Token>)
    decreases e
  {
    if fields then
      && |ts| >= 2 && e.field.Some? && ts[0].kind == Ident(e.field.value) && ts[1].kind.Colon?
      && Spells(e.ty, ts[2..])
    else e.field.None? && Spells(e.ty, ts)
  }

  /** An enum takes a comma after it for its own. */
  ghost predicate SpellsAfter(fields: bool, t: TypeExpr, more: seq<Element>, ts: seq<Token>)
    requires ts != []
    decreases more, 2
  {
    || (more == [] && |ts| == 1 && ts[0].kind == Closer(fields))
    || (ts[0].kind.Comma? && !t.Enum? && SpellsDelimited(fields, more, ts[1..]))
  }

  ghost predicate SpellsVariants(variants: seq<Variant>, ts: seq<Token>)
    decreases variants, 0
  {
    && variants != []
    && exists k ::
         0 <= k <= |ts| && SpellsVariant(variants[0], ts[..k]) && SpellsMoreVariants(variants[1..], ts[k..])
  }

  ghost predicate SpellsMoreVariants(variants: seq<Variant>, ts: seq<Token>)
    decreases variants, 1
  {
    if variants == [] then ts == [] else |ts| >= 1 && ts[0].kind.Comma? && SpellsVariants(variants, ts[1..])
  }

  ghost predicate SpellsVariant(v: Variant, ts: seq<Token>)
    decreases v
  {
    && |ts| >= 1 && ts[0].kind == Ident(v.tag)
    && match v.payload
       case None => |ts| == 1
       case Some(t) =>
         |ts| >= 3 && ts[1].kind.OpenParen? && ts[|ts| - 1].kind.CloseParen? && Spells(t, ts[2..|ts| - 1])
  }

  // ---------- the parsing function ----------

  /** NoType: no type expression starts here. Fail: one starts but is malformed. */
  datatype Parse<T> = Fail | NoType | Got(value: T, rest: seq<Token>)

  function At(ts: seq<Token>, i: nat): Token {
    if i < |ts| then ts[i] else Token(Eof, false)
  }

  function ParseType(ts: seq<Token>): (r: Parse<TypeExpr>)
    ensures r.Got? ==> |r.rest| < |ts|
    decreases |ts|, 3
  {
    match ParseBase(ts)
    case Got(base, rest) => ParsePostfix(base, rest)
    case other => other
  }

  function ParsePostfix(t: TypeExpr, ts: seq<Token>): (r: Parse<TypeExpr>)
    ensures r.Got? ==> |r.rest| <= |ts|
    decreases |ts|, 0
  {
    match At(ts, 0).kind
    case Dot =>
      if At(ts, 1).kind.Ident? then ParsePostfix(DotAccess(t, ts[1].kind.name), ts[2..]) else Fail
    case QuestionMark => Got(Optional(t), ts[1..])
    case Asterisk => Got(Reference(t), ts[1..])
    case _ => Got(t, ts)
  }

  function ParseBase(ts: seq<Token>): (r: Parse<TypeExpr>)
    ensures r.Got? ==> |r.rest| < |ts|
    decreases |ts|, 2
  {
    match At(ts, 0).kind
    case KeywordEnum =>
      (match ParseVariants([], ts[1..])
       case Got(variants, rest) => Got(Enum(variants), rest)
       case _ => Fail)
    case KeywordBuiltin => Got(Builtin, ts[1..])
    case Ident(first) =>
      if IntegerKeyword(first).Some? then Got(IntegerKeyword(first).value, ts[1..])
      else (match ParseName(ts)
            case Got(qualified, afterName) =>
              (match ParseArgs(afterName)
               case Got(params, rest) => Got(App(qualified.0, qualified.1, params), rest)
               case _ => Fail)
            case _ => Fail)
    case OpenBrace =>
      (match ParseDelimited(true, [], ts[1..])
       case Got(fields, rest) => Got(Struct(fields), rest)
       case _ => Fail)
    case _ => NoType
  }

  function ParseName(ts: seq<Token>): (r: Parse<(seq<string>, string)>)
    requires At(ts, 0).kind.Ident?
    ensures r.Got? ==> |r.rest| < |ts|
    decreases |ts|, 0
  {
    if At(ts, 1).kind.Colon? && At(ts, 2).kind.Colon? && !At(ts, 1).ws
    then ParseSegments([ts[0].kind.name], ts[3..])
    else Got(([], ts[0].kind.name), ts[1..])
  }

  function ParseSegments(namespaces: seq<string>, ts: seq<Token>): (r: Parse<(seq<string>, string)>)
    ensures r.Got? ==> |r.rest| < |ts|
    decreases |ts|
  {
    if At(ts, 0).kind.Ident? && At(ts, 1).kind.Colon? && At(ts, 2).kind.Colon?
    then ParseSegments(namespaces + [ts[0].kind.name], ts[3..])
    else if At(ts, 0).kind.Ident? then Got((namespaces, ts[0].kind.name), ts[1..])
    else Fail
  }

  function ParseArgs(ts: seq<Token>): (r: Parse<seq<Element>>)
    ensures r.Got? ==> |r.rest| <= |ts|
    decreases |ts|, 6
  {
    if At(ts, 0).kind.OpenBracket? then ParseDelimited(false, [], ts[1..]) else Got([], ts)
  }

  function ParseDelimited(fields: bool, done: seq<Element>, ts: seq<Token>): (r: Parse<seq<Element>>)
    ensures r.Got? ==> |r.rest| < |ts|
    decreases |ts|, 5
  {
    if At(ts, 0).kind == Closer(fields) then Got(done, ts[1..])
    else
      match ParseElement(fields, ts)
      case Got(e, rest) =>
        if At(rest, 0).kind == Closer(fields) then Got(done + [e], rest[1..])
        else if At(rest, 0).kind.Comma? then ParseDelimited(fields, done + [e], rest[1..])
        else Fail
      case _ => Fail
  }

  function ParseElement(fields: bool, ts: seq<Token>): (r: Parse<Element>)
    ensures r.Got? ==> |r.rest| < |ts|
    decreases |ts|, 4
  {
    if fields && !(At(ts, 0).kind.Ident? && At(ts, 1).kind.Colon?) then Fail
    else
      match ParseType(if fields then ts[2..] else ts)
      case Got(t, rest) => Got(Element(if fields then Some(ts[0].kind.name) else None, t), rest)
      case _ => Fail
  }

  function ParseVariants(done: seq<Variant>, ts: seq<Token>): (r: Parse<seq<Variant>>)
    ensures r.Got? ==> |r.rest| < |ts|
    decreases |ts|, 5
  {
    if !At(ts, 0).kind.Ident? then Fail
    else
      match ParseVariant(ts)
      case Got(v, rest) => MoreVariants(done + [v], rest)
      case _ => Fail
  }

  function MoreVariants(done: seq<Variant>, ts: seq<Token>): (r: Parse<seq<Variant>>)
    ensures r.Got? ==> |r.rest| <= |ts|
    decreases |ts|, 6
  {
    if At(ts, 0).kind.Comma? then ParseVariants(done, ts[1..]) else Got(done, ts)
  }

  function ParseVariant(ts: seq<Token>): (r: Parse<Variant>)
    requires At(ts, 0).kind.Ident?
    ensures r.Got? ==> |r.rest| < |ts|
    decreases |ts|, 4
  {
    if !At(ts, 1).kind.OpenParen? then Got(Variant(ts[0].kind.name, None), ts[1..])
    else
      match ParseType(ts[2..])
      case Got(t, rest) =>
        if At(rest, 0).kind.CloseParen? then Got(Variant(ts[0].kind.name, Some(t)), rest[1..]) else Fail
      case _ => Fail
  }
}
