/**
 * The recursive-descent parser of the basic front end
 * (Sources/Kaleidoscope/Parser.swift), over the tokens of the basic lexer.
 *
 * As for the extended parser, each `parseX` method is specified by a
 * function `XAt(toks, i)` giving the value read from index `i` and the index
 * just past it, or the error thrown; the `Parser` class runs the cursor-based
 * methods and is proved to agree with them.  This parser has no conditional,
 * and its top level reads only `extern` and `def` forms, with no `;`.
 */
module BasicParser {
  import opened Wrappers
  import opened Parsing
  import opened Registry
  import opened BasicLexer
  import opened BasicAst

  /** The tokens a primary expression can start with. */
  predicate StartsPrimary(t: Token)
  {
    t == LeftParen || t.Number? || t.Identifier?
  }

  /** `parse(t)` at index `i`. */
  function ConsumeAt(toks: seq<Token>, i: nat, t: Token): (r: Parsed<Token, ()>)
    requires i <= |toks|
    ensures r.Parsed? <==> i < |toks| && toks[i] == t
    ensures r.Parsed? ==> r.next == i + 1
    ensures r.Failed? ==> r.error == (if i == |toks| then UnexpectedEOF else UnexpectedToken(t))
  {
    if i == |toks| then Failed(UnexpectedEOF)
    else if toks[i] != t then Failed(UnexpectedToken(t))
    else Parsed((), i + 1)
  }

  /** `parseIdentifier()` at index `i`. */
  function IdentifierAt(toks: seq<Token>, i: nat): (r: Parsed<Token, string>)
    requires i <= |toks|
    ensures r.Parsed? <==> i < |toks| && toks[i].Identifier?
    ensures r.Parsed? ==> r.next == i + 1 && r.value == toks[i].name
    ensures r.Failed? ==> r.error == (if i == |toks| then UnexpectedEOF else UnexpectedToken(toks[i]))
  {
    if i == |toks| then Failed(UnexpectedEOF)
    else if !toks[i].Identifier? then Failed(UnexpectedToken(toks[i]))
    else Parsed(toks[i].name, i + 1)
  }

  /**
   * The `switch` of `parseExpr()`: the primary expression at index `i` (a
   * parenthesised expression, a number, a variable or a call).
   */
  function PrimaryAt(toks: seq<Token>, i: nat): (r: Parsed<Token, Expr>)
    requires i <= |toks|
    ensures r.Parsed? ==> i < r.next <= |toks|
    decreases |toks| - i, 1
  {
    if i == |toks| then Failed(UnexpectedEOF)
    else match toks[i]
      case LeftParen => ParenthesisedAt(toks, i)
      case Number(lexeme) => Parsed(Expr.Number(lexeme), i + 1)
      case Identifier(_) => NamedAt(toks, i)
      case _ => Failed(UnexpectedToken(toks[i]))
  }

  /** The `(` case of `parseExpr()`: an expression and the closing `)`. */
  function ParenthesisedAt(toks: seq<Token>, i: nat): (r: Parsed<Token, Expr>)
    requires i < |toks| && toks[i] == LeftParen
    ensures r.Parsed? ==> i + 2 < r.next <= |toks| && toks[r.next - 1] == RightParen
    decreases |toks| - i, 0
  {
    var inner := ExprAt(toks, i + 1);
    if inner.Failed? then Failed(inner.error)
    else
      var close := ConsumeAt(toks, inner.next, RightParen);
      if close.Failed? then Failed(close.error) else Parsed(inner.value, close.next)
  }

  /**
   * The identifier case of `parseExpr()`: a call when `(` follows the name,
   * a variable otherwise.
   */
  function NamedAt(toks: seq<Token>, i: nat): (r: Parsed<Token, Expr>)
    requires i < |toks| && toks[i].Identifier?
    ensures r.Parsed? ==> i < r.next <= |toks|
    ensures r.Parsed? ==> (r.value.Call? <==> i + 1 < |toks| && toks[i + 1] == LeftParen)
    ensures r.Parsed? && r.value.Call? ==> r.value.callee == toks[i].name
    ensures !(i + 1 < |toks| && toks[i + 1] == LeftParen) ==> r == Parsed(Variable(toks[i].name), i + 1)
    decreases |toks| - i, 0
  {
    if i + 1 < |toks| && toks[i + 1] == LeftParen then
      var args := ArgListAt(toks, i + 1);
      if args.Failed? then Failed(args.error) else Parsed(Call(toks[i].name, args.value), args.next)
    else Parsed(Variable(toks[i].name), i + 1)
  }

  /**
   * `parseExpr()` at index `i`: a primary, and if an operator follows it,
   * that operator with the whole rest of the expression as right operand.
   */
  function ExprAt(toks: seq<Token>, i: nat): (r: Parsed<Token, Expr>)
    requires i <= |toks|
    ensures r.Parsed? ==> i < r.next <= |toks|
    decreases |toks| - i, 2
  {
    var primary := PrimaryAt(toks, i);
    if primary.Failed? then primary
    else if primary.next < |toks| && toks[primary.next].Operator? then
      var rhs := ExprAt(toks, primary.next + 1);
      if rhs.Failed? then rhs
      else Parsed(Binary(primary.value, toks[primary.next].op, rhs.value), rhs.next)
    else primary
  }

  /** `parseCommaSeparated(parseExpr)` at index `i`, which must hold `(`. */
  function ArgListAt(toks: seq<Token>, i: nat): (r: Parsed<Token, seq<Expr>>)
    requires i <= |toks|
    ensures r.Parsed? ==> i < r.next <= |toks| && toks[r.next - 1] == RightParen
    decreases |toks| - i, 4
  {
    var open := ConsumeAt(toks, i, LeftParen);
    if open.Failed? then Failed(open.error) else ArgItems(toks, open.next)
  }

  /**
   * The loop of `parseCommaSeparated(parseExpr)` from index `j`: items up to
   * the closing `)`, each optionally followed by a comma.
   */
  function ArgItems(toks: seq<Token>, j: nat): (r: Parsed<Token, seq<Expr>>)
    requires j <= |toks|
    ensures r.Parsed? ==> j < r.next <= |toks| && toks[r.next - 1] == RightParen
    decreases |toks| - j, 3
  {
    if j == |toks| || toks[j] == RightParen then
      var close := ConsumeAt(toks, j, RightParen);
      if close.Failed? then Failed(close.error) else Parsed([], close.next)
    else
      var item := ExprAt(toks, j);
      if item.Failed? then Failed(item.error) else
      var k := if item.next < |toks| && toks[item.next] == Comma then item.next + 1 else item.next;
      Prepend([item.value], ArgItems(toks, k))
  }

  /** `parseCommaSeparated(parseIdentifier)` at index `i`, which must hold `(`. */
  function ParamListAt(toks: seq<Token>, i: nat): (r: Parsed<Token, seq<string>>)
    requires i <= |toks|
    ensures r.Parsed? ==> i < r.next <= |toks| && toks[r.next - 1] == RightParen
  {
    var open := ConsumeAt(toks, i, LeftParen);
    if open.Failed? then Failed(open.error) else ParamItems(toks, open.next)
  }

  /** The loop of `parseCommaSeparated(parseIdentifier)` from index `j`. */
  function ParamItems(toks: seq<Token>, j: nat): (r: Parsed<Token, seq<string>>)
    requires j <= |toks|
    ensures r.Parsed? ==> j < r.next <= |toks| && toks[r.next - 1] == RightParen
    decreases |toks| - j
  {
    if j == |toks| || toks[j] == RightParen then
      var close := ConsumeAt(toks, j, RightParen);
      if close.Failed? then Failed(close.error) else Parsed([], close.next)
    else
      var item := IdentifierAt(toks, j);
      if item.Failed? then Failed(item.error) else
      var k := if item.next < |toks| && toks[item.next] == Comma then item.next + 1 else item.next;
      Prepend([item.value], ParamItems(toks, k))
  }

  /** `parsePrototype()`: a name and a parenthesised parameter list. */
  function PrototypeAt(toks: seq<Token>, i: nat): (r: Parsed<Token, Prototype>)
    requires i <= |toks|
    ensures r.Parsed? ==> i + 2 < r.next <= |toks|
    ensures r.Parsed? ==> toks[i] == Identifier(r.value.name) && toks[r.next - 1] == RightParen
  {
    var name := IdentifierAt(toks, i);
    if name.Failed? then Failed(name.error) else
    var params := ParamListAt(toks, name.next);
    if params.Failed? then Failed(params.error)
    else Parsed(Prototype(name.value, params.value), params.next)
  }

  /** `parseExtern()`: `extern` and a prototype, with no `;`. */
  function ExternAt(toks: seq<Token>, i: nat): (r: Parsed<Token, Prototype>)
    requires i <= |toks|
    ensures r.Parsed? ==> i + 3 < r.next <= |toks|
    ensures r.Parsed? ==> toks[i] == Extern && toks[r.next - 1] == RightParen
  {
    var kw := ConsumeAt(toks, i, Extern);
    if kw.Failed? then Failed(kw.error) else PrototypeAt(toks, kw.next)
  }

  /** `parseDefinition()`: `def`, a prototype and the body, with no `;`. */
  function DefinitionAt(toks: seq<Token>, i: nat): (r: Parsed<Token, Definition>)
    requires i <= |toks|
    ensures r.Parsed? ==> i + 4 < r.next <= |toks| && toks[i] == Def
  {
    var kw := ConsumeAt(toks, i, Def);
    if kw.Failed? then Failed(kw.error) else
    var proto := PrototypeAt(toks, kw.next);
    if proto.Failed? then Failed(proto.error) else
    var body := ExprAt(toks, proto.next);
    if body.Failed? then Failed(body.error) else Parsed(Definition(proto.value, body.value), body.next)
  }

  /** One top-level form, in the order `parseTopLevel` meets them. */
  datatype Form = ExternForm(prototype: Prototype) | DefinitionForm(definition: Definition)

  /**
   * One iteration of `parseTopLevel()` at index `i < |toks|`: the `switch`
   * on the current token, which throws that token unless it is `extern` or
   * `def`.
   */
  function FormAt(toks: seq<Token>, i: nat): (r: Parsed<Token, Form>)
    requires i < |toks|
    ensures r.Parsed? ==> i < r.next <= |toks| && (r.value.ExternForm? <==> toks[i] == Extern)
    ensures toks[i] != Extern && toks[i] != Def ==> r == Failed(UnexpectedToken(toks[i]))
  {
    if toks[i] == Extern then
      var p := ExternAt(toks, i);
      if p.Failed? then Failed(p.error) else Parsed(ExternForm(p.value), p.next)
    else if toks[i] == Def then
      var d := DefinitionAt(toks, i);
      if d.Failed? then Failed(d.error) else Parsed(DefinitionForm(d.value), d.next)
    else Failed(UnexpectedToken(toks[i]))
  }

  /** The loop of `parseTopLevel()` from index `i`: every form up to the end of the tokens. */
  function FormsFrom(toks: seq<Token>, i: nat): (r: Parsed<Token, seq<Form>>)
    requires i <= |toks|
    ensures r.Parsed? ==> r.next == |toks|
    decreases |toks| - i
  {
    if i == |toks| then Parsed([], i)
    else
      var form := FormAt(toks, i);
      if form.Failed? then Failed(form.error) else Prepend([form.value], FormsFrom(toks, form.next))
  }

  /** The externs among `forms`, in order. */
  function ExternsOf(forms: seq<Form>): (r: seq<Prototype>)
  {
    if forms == [] then []
    else (if forms[0].ExternForm? then [forms[0].prototype] else []) + ExternsOf(forms[1..])
  }

  /** The definitions among `forms`, in order. */
  function DefinitionsOf(forms: seq<Form>): (r: seq<Definition>)
  {
    if forms == [] then []
    else (if forms[0].DefinitionForm? then [forms[0].definition] else []) + DefinitionsOf(forms[1..])
  }

  datatype TopLevelOutcome = Done(topLevel: TopLevel) | Threw(error: ParseError<Token>)

  /** `class Parser`: a token list and a cursor into it. */
  class Parser {
    const tokens: seq<Token>
    var index: nat

    ghost predicate Valid()
      reads this
    {
      index <= |tokens|
    }

    constructor (tokens: seq<Token>)
      ensures Valid() && this.tokens == tokens && index == 0
    {
      this.tokens := tokens;
      index := 0;
    }

    /** `currentToken`: the token under the cursor, or nil at the end. */
    function CurrentToken(): (r: Option<Token>)
      reads this
      ensures r.Some? <==> index < |tokens|
      ensures r.Some? ==> r.value == tokens[index]
    {
      if index < |tokens| then Some(tokens[index]) else None
    }

    /** `advance()` (always called with the default `n = 1`). */
    method Advance()
      requires index < |tokens|
      modifies this
      ensures index == old(index) + 1
    {
      index := index + 1;
    }

    /** `parse(_ token:)`: the current token must be `token`. */
    method Parse(token: Token) returns (r: Parsed<Token, ()>)
      requires Valid()
      modifies this
      ensures Valid()
      ensures r == ConsumeAt(tokens, old(index), token)
      ensures r.Parsed? ==> index == r.next
    {
      var tok := CurrentToken();
      if tok.None? {
        return Failed(UnexpectedEOF);
      }
      if token != tok.value {
        return Failed(UnexpectedToken(token));
      }
      Advance();
      return Parsed((), index);
    }

    method ParseIdentifier() returns (r: Parsed<Token, string>)
      requires Valid()
      modifies this
      ensures Valid()
      ensures r == IdentifierAt(tokens, old(index))
      ensures r.Parsed? ==> index == r.next
    {
      var token := CurrentToken();
      if token.None? {
        return Failed(UnexpectedEOF);
      }
      if !token.value.Identifier? {
        return Failed(UnexpectedToken(token.value));
      }
      Advance();
      return Parsed(token.value.name, index);
    }

    /** The `switch` of `parseExpr()`: reads one primary expression. */
    method ParsePrimary() returns (r: Parsed<Token, Expr>)
      requires Valid()
      modifies this
      ensures Valid()
      ensures r == PrimaryAt(tokens, old(index))
      ensures r.Parsed? ==> index == r.next
      decreases |tokens| - index, 1
    {
      var token := CurrentToken();
      if token.None? {
        return Failed(UnexpectedEOF);
      }
      var expr: Expr;
      match token.value {
        case LeftParen =>
          Advance();
          var inner := ParseExpr();
          if inner.Failed? {
            return Failed(inner.error);
          }
          var close := Parse(RightParen);
          if close.Failed? {
            return Failed(close.error);
          }
          expr := inner.value;
        case Number(value) =>
          Advance();
          expr := Expr.Number(value);
        case Identifier(value) =>
          Advance();
          if CurrentToken() == Some(LeftParen) {
            var params := ParseArguments();
            if params.Failed? {
              return Failed(params.error);
            }
            expr := Call(value, params.value);
          } else {
            expr := Variable(value);
          }
        case _ =>
          return Failed(UnexpectedToken(token.value));
      }
      return Parsed(expr, index);
    }

    /**
     * `parseExpr()`: a primary, then, if an operator follows, the rest of
     * the expression as its right operand.
     */
    method ParseExpr() returns (r: Parsed<Token, Expr>)
      requires Valid()
      modifies this
      ensures Valid()
      ensures r == ExprAt(tokens, old(index))
      ensures r.Parsed? ==> index == r.next
      decreases |tokens| - index, 2
    {
      var primary := ParsePrimary();
      if primary.Failed? {
        return primary;
      }
      var expr := primary.value;
      var tok := CurrentToken();
      if tok.Some? && tok.value.Operator? {
        Advance();
        var rhs := ParseExpr();
        if rhs.Failed? {
          return rhs;
        }
        expr := Binary(expr, tok.value.op, rhs.value);
      }
      return Parsed(expr, index);
    }

    /** `parseCommaSeparated(parseExpr)`. */
    method ParseArguments() returns (r: Parsed<Token, seq<Expr>>)
      requires Valid()
      modifies this
      ensures Valid()
      ensures r == ArgListAt(tokens, old(index))
      ensures r.Parsed? ==> index == r.next
      decreases |tokens| - index, 4
    {
      var open := Parse(LeftParen);
      if open.Failed? {
        return Failed(open.error);
      }
      var vals: seq<Expr> := [];
      PrependNil(ArgItems(tokens, index));
      while index < |tokens| && tokens[index] != RightParen
        invariant Valid() && old(index) < index
        invariant ArgListAt(tokens, old(index)) == Prepend(vals, ArgItems(tokens, index))
        decreases |tokens| - index
      {
        ghost var j := index;
        var val := ParseExpr();
        if val.Failed? {
          return Failed(val.error);
        }
        if CurrentToken() == Some(Comma) {
          var _ := Parse(Comma);
        }
        assert ArgItems(tokens, j) == Prepend([val.value], ArgItems(tokens, index));
        PrependPrepend(vals, [val.value], ArgItems(tokens, index));
        vals := vals + [val.value];
      }
      var close := Parse(RightParen);
      if close.Failed? {
        return Failed(close.error);
      }
      assert vals + [] == vals;
      return Parsed(vals, index);
    }

    /** `parseCommaSeparated(parseIdentifier)`. */
    method ParseParameters() returns (r: Parsed<Token, seq<string>>)
      requires Valid()
      modifies this
      ensures Valid()
      ensures r == ParamListAt(tokens, old(index))
      ensures r.Parsed? ==> index == r.next
    {
      var open := Parse(LeftParen);
      if open.Failed? {
        return Failed(open.error);
      }
      var vals: seq<string> := [];
      PrependNil(ParamItems(tokens, index));
      while index < |tokens| && tokens[index] != RightParen
        invariant Valid() && old(index) < index
        invariant ParamListAt(tokens, old(index)) == Prepend(vals, ParamItems(tokens, index))
        decreases |tokens| - index
      {
        ghost var j := index;
        var val := ParseIdentifier();
        if val.Failed? {
          return Failed(val.error);
        }
        if CurrentToken() == Some(Comma) {
          var _ := Parse(Comma);
        }
        assert ParamItems(tokens, j) == Prepend([val.value], ParamItems(tokens, index));
        PrependPrepend(vals, [val.value], ParamItems(tokens, index));
        vals := vals + [val.value];
      }
      var close := Parse(RightParen);
      if close.Failed? {
        return Failed(close.error);
      }
      assert vals + [] == vals;
      return Parsed(vals, index);
    }

    method ParsePrototype() returns (r: Parsed<Token, Prototype>)
      requires Valid()
      modifies this
      ensures Valid()
      ensures r == PrototypeAt(tokens, old(index))
      ensures r.Parsed? ==> index == r.next
    {
      var name := ParseIdentifier();
      if name.Failed? {
        return Failed(name.error);
      }
      var params := ParseParameters();
      if params.Failed? {
        return Failed(params.error);
      }
      return Parsed(Prototype(name.value, params.value), index);
    }

    method ParseExtern() returns (r: Parsed<Token, Prototype>)
      requires Valid()
      modifies this
      ensures Valid()
      ensures r == ExternAt(tokens, old(index))
      ensures r.Parsed? ==> index == r.next
    {
      var kw := Parse(Extern);
      if kw.Failed? {
        return Failed(kw.error);
      }
      r := ParsePrototype();
    }

    method ParseDefinition() returns (r: Parsed<Token, Definition>)
      requires Valid()
      modifies this
      ensures Valid()
      ensures r == DefinitionAt(tokens, old(index))
      ensures r.Parsed? ==> index == r.next
    {
      var kw := Parse(Def);
      if kw.Failed? {
        return Failed(kw.error);
      }
      var proto := ParsePrototype();
      if proto.Failed? {
        return Failed(proto.error);
      }
      var body := ParseExpr();
      if body.Failed? {
        return Failed(body.error);
      }
      return Parsed(Definition(proto.value, body.value), index);
    }

    /**
     * `parseTopLevel()`: reads `extern` and `def` forms until the tokens run
     * out, collecting them in two lists from which a `TopLevel` is built; the
     * first error is thrown and no `TopLevel` is returned.
     */
    method ParseTopLevel() returns (r: TopLevelOutcome)
      requires Valid()
      modifies this
      ensures Valid()
      ensures r.Done? <==> FormsFrom(tokens, old(index)).Parsed?
      ensures r.Threw? ==> r.error == FormsFrom(tokens, old(index)).error
      ensures r.Done? ==> fresh(r.topLevel) && r.topLevel.Valid()
      ensures r.Done? ==> var forms := FormsFrom(tokens, old(index)).value;
        && r.topLevel.externs == ExternsOf(forms)
        && r.topLevel.definitions == DefinitionsOf(forms)
        && r.topLevel.registrations == ExternsOf(forms) + PrototypesOf(DefinitionsOf(forms))
    {
      var externs: seq<Prototype> := [];
      var definitions: seq<Definition> := [];
      ghost var done: seq<Form> := [];
      PrependNil(FormsFrom(tokens, index));
      while index < |tokens|
        invariant Valid()
        invariant FormsFrom(tokens, old(index)) == Prepend(done, FormsFrom(tokens, index))
        invariant externs == ExternsOf(done) && definitions == DefinitionsOf(done)
        decreases |tokens| - index
      {
        ghost var before := index;
        var tok := tokens[index];
        ghost var form: Form;
        if tok == Extern {
          var p := ParseExtern();
          if p.Failed? {
            return Threw(p.error);
          }
          externs := externs + [p.value];
          form := ExternForm(p.value);
        } else if tok == Def {
          var d := ParseDefinition();
          if d.Failed? {
            return Threw(d.error);
          }
          definitions := definitions + [d.value];
          form := DefinitionForm(d.value);
        } else {
          return Threw(UnexpectedToken(tok));
        }
        FormsFromStep(tokens, before, done);
        FormListsAppend(done, form);
        done := done + [form];
      }
      assert done + [] == done;
      var topLevel := new TopLevel(externs, definitions);
      return Done(topLevel);
    }
  }

  /** One more iteration of the `parseTopLevel()` loop, once `done` were read. */
  lemma FormsFromStep(toks: seq<Token>, i: nat, done: seq<Form>)
    requires i < |toks| && FormAt(toks, i).Parsed?
    ensures Prepend(done, FormsFrom(toks, i)) ==
      Prepend(done + [FormAt(toks, i).value], FormsFrom(toks, FormAt(toks, i).next))
  {
    PrependPrepend(done, [FormAt(toks, i).value], FormsFrom(toks, FormAt(toks, i).next));
  }

  /** The per-kind lists of `forms + [form]`: the form lands at the end of its own list only. */
  lemma FormListsAppend(forms: seq<Form>, form: Form)
    ensures ExternsOf(forms + [form]) == ExternsOf(forms) + ExternsOf([form])
    ensures DefinitionsOf(forms + [form]) == DefinitionsOf(forms) + DefinitionsOf([form])
  {
    ExternsAppend(forms, form);
    DefinitionsAppend(forms, form);
  }

  lemma {:induction false} ExternsAppend(forms: seq<Form>, form: Form)
    ensures ExternsOf(forms + [form]) == ExternsOf(forms) + ExternsOf([form])
  {
    if forms != [] {
      assert (forms + [form])[1..] == forms[1..] + [form];
      ExternsAppend(forms[1..], form);
    }
  }

  lemma {:induction false} DefinitionsAppend(forms: seq<Form>, form: Form)
    ensures DefinitionsOf(forms + [form]) == DefinitionsOf(forms) + DefinitionsOf([form])
  {
    if forms != [] {
      assert (forms + [form])[1..] == forms[1..] + [form];
      DefinitionsAppend(forms[1..], form);
    }
  }
}
