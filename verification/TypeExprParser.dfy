/** The type-expression parser over a token cursor, proved equal to the parsing function. */
module TypeExprParser {
  import opened Wrappers
  import opened TypeExprGrammar

  class Parser {
    const tokens: seq<Token>
    var cursor: nat

    constructor (tokens: seq<Token>)
      ensures this.tokens == tokens && cursor == 0
    {
      this.tokens := tokens;
      cursor := 0;
    }

    ghost predicate Valid()
      reads this
    {
      cursor <= |tokens|
    }

    ghost function Remaining(): seq<Token>
      reads this
      requires Valid()
    {
      tokens[cursor..]
    }

    function PeekN(n: nat): (tok: Token)
      reads this
      requires Valid()
      ensures tok == At(Remaining(), n)
    {
      if cursor + n < |tokens| then tokens[cursor + n] else Token(Eof, false)
    }

    method Advance()
      requires Valid() && Remaining() != []
      modifies `cursor
      ensures Valid() && cursor == old(cursor) + 1 && Remaining() == old(Remaining())[1..]
    {
      cursor := cursor + 1;
    }

    method EatIdent() returns (name: Option<string>)
      requires Valid()
      modifies `cursor
      ensures Valid()
      ensures match old(PeekN(0)).kind
        case Ident(s) => name == Some(s) && Remaining() == old(Remaining())[1..]
        case _ => name == None && Remaining() == old(Remaining())
    {
      match PeekN(0).kind {
        case Ident(s) =>
          Advance();
          return Some(s);
        case _ =>
          return None;
      }
    }

    method ParseTypeExpression() returns (r: Result<Option<TypeExpr>>)
      requires Valid()
      modifies `cursor
      ensures Valid()
      ensures match ParseType(old(Remaining()))
        case Got(t, rest) => r == Ok(Some(t)) && Remaining() == rest
        case NoType => r == Ok(None) && Remaining() == old(Remaining())
        case Fail => r == Err
      decreases |Remaining()|, 3
    {
      var b := ParseBaseTypeExpression();
      if b.Err? || b.value.None? {
        return b;
      }
      var t := b.value.value;
      ghost var target := ParsePostfix(t, Remaining());
      while true
        invariant Valid() && ParsePostfix(t, Remaining()) == target
        decreases |Remaining()|
      {
        match PeekN(0).kind {
          case Dot =>
            Advance();
            var member := EatIdent();
            if member.None? {
              return Err;
            }
            t := DotAccess(t, member.value);
          case QuestionMark =>
            Advance();
            t := Optional(t);
            break;
          case Asterisk =>
            Advance();
            t := Reference(t);
            break;
          case _ =>
            break;
        }
      }
      return Ok(Some(t));
    }

    method ParseBaseTypeExpression() returns (r: Result<Option<TypeExpr>>)
      requires Valid()
      modifies `cursor
      ensures Valid()
      ensures match ParseBase(old(Remaining()))
        case Got(t, rest) => r == Ok(Some(t)) && Remaining() == rest
        case NoType => r == Ok(None) && Remaining() == old(Remaining())
        case Fail => r == Err
      decreases |Remaining()|, 2
    {
      match PeekN(0).kind {
        case KeywordEnum =>
          Advance();
          var variants := ParseEnumVariants();
          if variants.Err? {
            return Err;
          }
          return Ok(Some(Enum(variants.value)));
        case KeywordBuiltin =>
          Advance();
          return Ok(Some(Builtin));
        case Ident(first) =>
          var constant := IntegerKeyword(first);
          if constant.Some? {
            Advance();
            return Ok(Some(constant.value));
          }
          var base := ExpectNamespacedIdent();
          if base.Err? {
            return Err;
          }
          var params := ParseOptionalTypeArgs();
          if params.Err? {
            return Err;
          }
          return Ok(Some(App(base.value.0, base.value.1, params.value)));
        case OpenBrace =>
          Advance();
          var fields := EatDelimited(true);
          if fields.Err? {
            return Err;
          }
          return Ok(Some(Struct(fields.value)));
        case _ =>
          return Ok(None);
      }
    }

    method ExpectNamespacedIdent() returns (r: Result<(seq<string>, string)>)
      requires Valid() && PeekN(0).kind.Ident?
      modifies `cursor
      ensures Valid()
      ensures match ParseName(old(Remaining()))
        case Got(name, rest) => r == Ok(name) && Remaining() == rest
        case _ => r == Err
    {
      var first, second, third := PeekN(0), PeekN(1), PeekN(2);
      var namespaces: seq<string> := [];
      if second.kind.Colon? && third.kind.Colon? && !second.ws {
        namespaces := [first.kind.name];
        Advance();
        Advance();
        Advance();
        ghost var target := ParseSegments(namespaces, Remaining());
        while PeekN(0).kind.Ident? && PeekN(1).kind.Colon? && PeekN(2).kind.Colon?
          invariant Valid() && ParseSegments(namespaces, Remaining()) == target
          decreases |Remaining()|
        {
          namespaces := namespaces + [PeekN(0).kind.name];
          Advance();
          Advance();
          Advance();
        }
      }
      var name := EatIdent();
      if name.None? {
        return Err;
      }
      return Ok((namespaces, name.value));
    }

    method ParseOptionalTypeArgs() returns (r: Result<seq<Element>>)
      requires Valid()
      modifies `cursor
      ensures Valid()
      ensures match ParseArgs(old(Remaining()))
        case Got(params, rest) => r == Ok(params) && Remaining() == rest
        case _ => r == Err
      decreases |Remaining()|, 6
    {
      if PeekN(0).kind.OpenBracket? {
        Advance();
        r := EatDelimited(false);
      } else {
        r := Ok([]);
      }
    }

    /** Comma-separated struct fields up to a closing brace, or type arguments up to a closing bracket. */
    method EatDelimited(fields: bool) returns (r: Result<seq<Element>>)
      requires Valid()
      modifies `cursor
      ensures Valid()
      ensures match ParseDelimited(fields, [], old(Remaining()))
        case Got(elems, rest) => r == Ok(elems) && Remaining() == rest
        case _ => r == Err
      decreases |Remaining()|, 5
    {
      var v: seq<Element> := [];
      ghost var target := ParseDelimited(fields, [], Remaining());
      while true
        invariant Valid() && |Remaining()| <= old(|Remaining()|)
        invariant ParseDelimited(fields, v, Remaining()) == target
        decreases |Remaining()|
      {
        if PeekN(0).kind == Closer(fields) {
          Advance();
          return Ok(v);
        }
        var parsed := ParseListElement(fields);
        if parsed.Err? {
          return Err;
        }
        v := v + [parsed.value];
        if PeekN(0).kind == Closer(fields) {
          Advance();
          return Ok(v);
        }
        if !PeekN(0).kind.Comma? {
          return Err;
        }
        Advance();
      }
    }

    /** A field with its name and colon, or a type argument; there has to be one. */
    method ParseListElement(fields: bool) returns (r: Result<Element>)
      requires Valid()
      modifies `cursor
      ensures Valid()
      ensures match ParseElement(fields, old(Remaining()))
        case Got(e, rest) => r == Ok(e) && Remaining() == rest
        case _ => r == Err
      decreases |Remaining()|, 4
    {
      var name: Option<string> := None;
      if fields {
        name := EatIdent();
        if name.None? || !PeekN(0).kind.Colon? {
          return Err;
        }
        Advance();
      }
      var parsed := ParseTypeExpression();
      if parsed.Err? || parsed.value.None? {
        return Err;
      }
      return Ok(Element(name, parsed.value.value));
    }

    /** After the keyword: variants as long as commas follow. */
    method ParseEnumVariants() returns (r: Result<seq<Variant>>)
      requires Valid()
      modifies `cursor
      ensures Valid()
      ensures match ParseVariants([], old(Remaining()))
        case Got(variants, rest) => r == Ok(variants) && Remaining() == rest
        case _ => r == Err
      decreases |Remaining()|, 5
    {
      var variants: seq<Variant> := [];
      var first := true;
      ghost var target := ParseVariants([], Remaining());
      while true
        invariant Valid() && |Remaining()| <= old(|Remaining()|)
        invariant first ==> ParseVariants(variants, Remaining()) == target
        invariant !first ==> target == MoreVariants(variants, Remaining())
        decreases |Remaining()|
      {
        if !first {
          if !PeekN(0).kind.Comma? {
            break;
          }
          Advance();
        }
        var variant := ParseEnumVariant();
        if variant.Err? {
          return Err;
        }
        variants := variants + [variant.value];
        first := false;
      }
      return Ok(variants);
    }

    /** A tag with its payload type in parentheses, if any. */
    method ParseEnumVariant() returns (r: Result<Variant>)
      requires Valid()
      modifies `cursor
      ensures Valid()
      ensures !old(PeekN(0)).kind.Ident? ==> r == Err
      ensures old(PeekN(0)).kind.Ident? ==>
        match ParseVariant(old(Remaining()))
        case Got(v, rest) => r == Ok(v) && Remaining() == rest
        case _ => r == Err
      decreases |Remaining()|, 4
    {
      var tag := EatIdent();
      if tag.None? {
        return Err;
      }
      if !PeekN(0).kind.OpenParen? {
        return Ok(Variant(tag.value, None));
      }
      Advance();
      var payload := ParseTypeExpression();
      if payload.Err? || payload.value.None? || !PeekN(0).kind.CloseParen? {
        return Err;
      }
      Advance();
      return Ok(Variant(tag.value, Some(payload.value.value)));
    }
  }
}
