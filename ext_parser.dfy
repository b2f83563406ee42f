/**
 * The recursive-descent parser of the extended front end
 * (Part3/Sources/Kaleidoscope/Parser.swift).
 *
 * Each `parseX` method of the source is specified by a function `XAt(toks, i)`
 * that says what parsing from token index `i` yields: the value read and the
 * index just past it, or the error the method throws.  The `Parser` class
 * below runs the cursor-based methods and is proved to agree with them.
 */
module ExtParser {
  import opened Wrappers
  import opened Parsing
  import opened Registry
  import opened ExtLexer
  import opened ExtAst

  /** The tokens a primary expression can start with. */
  predicate StartsPrimary(t: Token)
  {
    t == LeftParen || t.Number? || t.Identifier? || t == If
  }

  /** `consume(t)` at index `i`. */
  function ConsumeAt(toks: seq<Token>, i: nat, t: Token): (r: Parsed<Token, ()>)
    requires i <= |toks|
    ensures r.Parsed? <==> i < |toks| && toks[i] == t
    ensures r.Parsed? ==> r.next == i + 1
    ensures r.Failed? ==> r.error == (if i == |toks| then UnexpectedEOF else UnexpectedToken(t))
  {
    if i == |toks| then Failed(UnexpectedEOF)
    else if toks[i] != t then Failed(UnexpectedToken(t))
    else Parsed((), i + 1)
  }

  /** `parseIdentifier()` at index `i`. */
  function IdentifierAt(toks: seq<Token>, i: nat): (r: Parsed<Token, string>)
    requires i <= |toks|
    ensures r.Parsed? <==> i < |toks| && toks[i].Identifier?
    ensures r.Parsed? ==> r.next == i + 1 && r.value == toks[i].name
    ensures r.Failed? ==> r.error == (if i == |toks| then UnexpectedEOF else UnexpectedToken(toks[i]))
  {
    if i == |toks| then Failed(UnexpectedEOF)
    else if !toks[i].Identifier? then Failed(UnexpectedToken(toks[i]))
    else Parsed(toks[i].name, i + 1)
  }

  /**
   * The first half of `parseExpr()`: the primary expression at index `i`
   * (a parenthesised expression, a number, a variable, a call or a
   * conditional).
   */
  function PrimaryAt(toks: seq<Token>, i: nat): (r: Parsed<Token, Expr>)
    requires i <= |toks|
    ensures r.Parsed? ==> i < r.next <= |toks|
    decreases |toks| - i, 1
  {
    if i == |toks| then Failed(UnexpectedEOF)
    else match toks[i]
      case LeftParen => ParenthesisedAt(toks, i)
      case Number(lexeme) => Parsed(Expr.Number(lexeme), i + 1)
      case Identifier(_) => NamedAt(toks, i)
      case If => ConditionalAt(toks, i)
      case _ => Failed(UnexpectedToken(toks[i]))
  }

  /** The `(` case of `parseExpr()`: an expression and the closing `)`. */
  function ParenthesisedAt(toks: seq<Token>, i: nat): (r: Parsed<Token, Expr>)
    requires i < |toks| && toks[i] == LeftParen
    ensures r.Parsed? ==> i + 2 < r.next <= |toks| && toks[r.next - 1] == RightParen
    decreases |toks| - i, 0
  {
    var inner := ExprAt(toks, i + 1);
    if inner.Failed? then Failed(inner.error)
    else
      var close := ConsumeAt(toks, inner.next, RightParen);
      if close.Failed? then Failed(close.error) else Parsed(inner.value, close.next)
  }

  /**
   * The identifier case of `parseExpr()`: a call when `(` follows the name,
   * a variable otherwise.
   */
  function NamedAt(toks: seq<Token>, i: nat): (r: Parsed<Token, Expr>)
    requires i < |toks| && toks[i].Identifier?
    ensures r.Parsed? ==> i < r.next <= |toks|
    ensures r.Parsed? ==> (r.value.Call? <==> i + 1 < |toks| && toks[i + 1] == LeftParen)
    ensures r.Parsed? && r.value.Call? ==> r.value.callee == toks[i].name
    ensures !(i + 1 < |toks| && toks[i + 1] == LeftParen) ==> r == Parsed(Variable(toks[i].name), i + 1)
    decreases |toks| - i, 0
  {
    if i + 1 < |toks| && toks[i + 1] == LeftParen then
      var args := ArgListAt(toks, i + 1);
      if args.Failed? then Failed(args.error) else Parsed(Call(toks[i].name, args.value), args.next)
    else Parsed(Variable(toks[i].name), i + 1)
  }

  /** The `if` case of `parseExpr()`: condition, `then`, value, `else`, value. */
  function ConditionalAt(toks: seq<Token>, i: nat): (r: Parsed<Token, Expr>)
    requires i < |toks| && toks[i] == If
    ensures r.Parsed? ==> i + 5 < r.next <= |toks| && r.value.IfElse?
    decreases |toks| - i, 0
  {
    var cond := ExprAt(toks, i + 1);
    if cond.Failed? then Failed(cond.error) else BranchesAt(toks, cond.value, cond.next)
  }

  /** The rest of the `if` case of `parseExpr()` once the condition was read: `then`, value, `else`, value. */
  function BranchesAt(toks: seq<Token>, cond: Expr, j: nat): (r: Parsed<Token, Expr>)
    requires j <= |toks|
    ensures r.Parsed? ==> j + 3 < r.next <= |toks| && r.value.IfElse? && r.value.cond == cond
    decreases |toks| - j, 1
  {
    var th := ConsumeAt(toks, j, Then);
    if th.Failed? then Failed(th.error) else
    var thenVal := ExprAt(toks, th.next);
    if thenVal.Failed? then Failed(thenVal.error) else
    var el := ConsumeAt(toks, thenVal.next, Else);
    if el.Failed? then Failed(el.error) else
    var elseVal := ExprAt(toks, el.next);
    if elseVal.Failed? then Failed(elseVal.error)
    else Parsed(IfElse(cond, thenVal.value, elseVal.value), elseVal.next)
  }

  /**
   * `parseExpr()` at index `i`: a primary, and if an operator follows it,
   * that operator with the whole rest of the expression as right operand.
   * A successful parse never stops in front of an operator.
   */
  function ExprAt(toks: seq<Token>, i: nat): (r: Parsed<Token, Expr>)
    requires i <= |toks|
    ensures r.Parsed? ==> i < r.next <= |toks|

    decreases |toks| - i, 2
  {
    var primary := PrimaryAt(toks, i);
    if primary.Failed? then primary
    else if primary.next < |toks| && toks[primary.next].Operator? then
      var rhs := ExprAt(toks, primary.next + 1);
      if rhs.Failed? then rhs
      else Parsed(Binary(primary.value, toks[primary.next].op, rhs.value), rhs.next)
    else primary
  }

  /** `parseCommaSeparated(parseExpr)` at index `i`, which must hold `(`. */
  function ArgListAt(toks: seq<Token>, i: nat): (r: Parsed<Token, seq<Expr>>)
    requires i <= |toks|
    ensures r.Parsed? ==> i < r.next <= |toks| && toks[r.next - 1] == RightParen
    decreases |toks| - i, 4
  {
    var open := ConsumeAt(toks, i, LeftParen);
    if open.Failed? then Failed(open.error) else ArgItems(toks, open.next)
  }

  /**
   * The loop of `parseCommaSeparated(parseExpr)` from index `j`: items up to
   * the closing `)`, each optionally followed by a comma.
   */
  function ArgItems(toks: seq<Token>, j: nat): (r: Parsed<Token, seq<Expr>>)
    requires j <= |toks|
    ensures r.Parsed? ==> j < r.next <= |toks| && toks[r.next - 1] == RightParen
    decreases |toks| - j, 3
  {
    if j == |toks| || toks[j] == RightParen then
      var close := ConsumeAt(toks, j, RightParen);
      if close.Failed? then Failed(close.error) else Parsed([], close.next)
    else
      var item := ExprAt(toks, j);
      if item.Failed? then Failed(item.error) else
      var k := if item.next < |toks| && toks[item.next] == Comma then item.next + 1 else item.next;
      Prepend([item.value], ArgItems(toks, k))
  }

  /** `parseCommaSeparated(parseIdentifier)` at index `i`, which must hold `(`. */
  function ParamListAt(toks: seq<Token>, i: nat): (r: Parsed<Token, seq<string>>)
    requires i <= |toks|
    ensures r.Parsed? ==> i < r.next <= |toks| && toks[r.next - 1] == RightParen
  {
    var open := ConsumeAt(toks, i, LeftParen);
    if open.Failed? then Failed(open.error) else ParamItems(toks, open.next)
  }

  /** The loop of `parseCommaSeparated(parseIdentifier)` from index `j`. */
  function ParamItems(toks: seq<Token>, j: nat): (r: Parsed<Token, seq<string>>)
    requires j <= |toks|
    ensures r.Parsed? ==> j < r.next <= |toks| && toks[r.next - 1] == RightParen
    decreases |toks| - j
  {
    if j == |toks| || toks[j] == RightParen then
      var close := ConsumeAt(toks, j, RightParen);
      if close.Failed? then Failed(close.error) else Parsed([], close.next)
    else
      var item := IdentifierAt(toks, j);
      if item.Failed? then Failed(item.error) else
      var k := if item.next < |toks| && toks[item.next] == Comma then item.next + 1 else item.next;
      Prepend([item.value], ParamItems(toks, k))
  }

  /** `parsePrototype()`: a name and a parenthesised parameter list. */
  function PrototypeAt(toks: seq<Token>, i: nat): (r: Parsed<Token, Prototype>)
    requires i <= |toks|
    ensures r.Parsed? ==> i + 2 < r.next <= |toks|
    ensures r.Parsed? ==> toks[i] == Identifier(r.value.name) && toks[r.next - 1] == RightParen
  {
    var name := IdentifierAt(toks, i);
    if name.Failed? then Failed(name.error) else
    var params := ParamListAt(toks, name.next);
    if params.Failed? then Failed(params.error)
    else Parsed(Prototype(name.value, params.value), params.next)
  }

  /** `parseExtern()`: `extern`, a prototype and a mandatory `;`. */
  function ExternAt(toks: seq<Token>, i: nat): (r: Parsed<Token, Prototype>)
    requires i <= |toks|
    ensures r.Parsed? ==> i + 4 < r.next <= |toks|
    ensures r.Parsed? ==> toks[i] == Extern && toks[r.next - 1] == Semicolon
  {
    var kw := ConsumeAt(toks, i, Extern);
    if kw.Failed? then Failed(kw.error) else
    var proto := PrototypeAt(toks, kw.next);
    if proto.Failed? then Failed(proto.error) else
    var semi := ConsumeAt(toks, proto.next, Semicolon);
    if semi.Failed? then Failed(semi.error) else Parsed(proto.value, semi.next)
  }

  /** `parseDefinition()`: `def`, a prototype, the body and a mandatory `;`. */
  function DefinitionAt(toks: seq<Token>, i: nat): (r: Parsed<Token, Definition>)
    requires i <= |toks|
    ensures r.Parsed? ==> i + 5 < r.next <= |toks|
    ensures r.Parsed? ==> toks[i] == Def && toks[r.next - 1] == Semicolon
  {
    var kw := ConsumeAt(toks, i, Def);
    if kw.Failed? then Failed(kw.error) else
    var proto := PrototypeAt(toks, kw.next);
    if proto.Failed? then Failed(proto.error) else
    var body := ExprAt(toks, proto.next);
    if body.Failed? then Failed(body.error) else
    var semi := ConsumeAt(toks, body.next, Semicolon);
    if semi.Failed? then Failed(semi.error) else Parsed(Definition(proto.value, body.value), semi.next)
  }

  /** One top-level form of a file, in the order `parseFile` meets them. */
  datatype Item = ExternItem(prototype: Prototype) | DefinitionItem(definition: Definition) | ExpressionItem(expr: Expr)

  /** The top-level expression form: an expression and a mandatory `;`. */
  function ExpressionStatementAt(toks: seq<Token>, i: nat): (r: Parsed<Token, Expr>)
    requires i <= |toks|
    ensures r.Parsed? ==> i + 1 < r.next <= |toks| && toks[r.next - 1] == Semicolon
  {
    var e := ExprAt(toks, i);
    if e.Failed? then e else
    var semi := ConsumeAt(toks, e.next, Semicolon);
    if semi.Failed? then Failed(semi.error) else Parsed(e.value, semi.next)
  }

  /** One iteration of `parseFile()` at index `i < |toks|`: the `switch` on the current token. */
  function ItemAt(toks: seq<Token>, i: nat): (r: Parsed<Token, Item>)
    requires i < |toks|
    ensures r.Parsed? ==> i < r.next <= |toks| && toks[r.next - 1] == Semicolon
    ensures r.Parsed? ==> (r.value.ExternItem? <==> toks[i] == Extern) && (r.value.DefinitionItem? <==> toks[i] == Def)
  {
    if toks[i] == Extern then
      var p := ExternAt(toks, i);
      if p.Failed? then Failed(p.error) else Parsed(ExternItem(p.value), p.next)
    else if toks[i] == Def then
      var d := DefinitionAt(toks, i);
      if d.Failed? then Failed(d.error) else Parsed(DefinitionItem(d.value), d.next)
    else
      var e := ExpressionStatementAt(toks, i);
      if e.Failed? then Failed(e.error) else Parsed(ExpressionItem(e.value), e.next)
  }

  /** The loop of `parseFile()` from index `i`: every form up to the end of the tokens. */
  function ItemsFrom(toks: seq<Token>, i: nat): (r: Parsed<Token, seq<Item>>)
    requires i <= |toks|
    ensures r.Parsed? ==> r.next == |toks|
    decreases |toks| - i
  {
    if i == |toks| then Parsed([], i)
    else
      var item := ItemAt(toks, i);
      if item.Failed? then Failed(item.error) else Prepend([item.value], ItemsFrom(toks, item.next))
  }

  /** The externs among `items`, in order. */
  function ExternsOf(items: seq<Item>): (r: seq<Prototype>)
  {
    if items == [] then []
    else (if items[0].ExternItem? then [items[0].prototype] else []) + ExternsOf(items[1..])
  }

  /** The definitions among `items`, in order. */
  function DefinitionsOf(items: seq<Item>): (r: seq<Definition>)
  {
    if items == [] then []
    else (if items[0].DefinitionItem? then [items[0].definition] else []) + DefinitionsOf(items[1..])
  }

  /** The loose expressions among `items`, in order. */
  function ExpressionsOf(items: seq<Item>): (r: seq<Expr>)
  {
    if items == [] then []
    else (if items[0].ExpressionItem? then [items[0].expr] else []) + ExpressionsOf(items[1..])
  }

  /** The prototypes registered by `items`, in order: each extern's and each definition's. */
  function RegistrationsOf(items: seq<Item>): (r: seq<Prototype>)
  {
    if items == [] then [] else RegistrationOf(items[0]) + RegistrationsOf(items[1..])
  }

  /** The prototype one item registers, if any. */
  function RegistrationOf(item: Item): (r: seq<Prototype>)
  {
    match item
    case ExternItem(p) => [p]
    case DefinitionItem(d) => [d.prototype]
    case ExpressionItem(_) => []
  }

  datatype FileOutcome = Done(file: File) | Threw(error: ParseError<Token>)

  /** `class Parser`: a token list and a cursor into it. */
  class Parser {
    const tokens: seq<Token>
    var index: nat

    ghost predicate Valid()
      reads this
    {
      index <= |tokens|
    }

    constructor (tokens: seq<Token>)
      ensures Valid() && this.tokens == tokens && index == 0
    {
      this.tokens := tokens;
      index := 0;
    }

    /** `currentToken`: the token under the cursor, or nil at the end. */
    function CurrentToken(): (r: Option<Token>)
      reads this
      ensures r.Some? <==> index < |tokens|
      ensures r.Some? ==> r.value == tokens[index]
    {
      if index < |tokens| then Some(tokens[index]) else None
    }

    /** `consumeToken()` (always called with the default `n = 1`). */
    method ConsumeToken()
      requires index < |tokens|
      modifies this
      ensures index == old(index) + 1
    {
      index := index + 1;
    }

    method Consume(token: Token) returns (r: Parsed<Token, ()>)
      requires Valid()
      modifies this
      ensures Valid()
      ensures r == ConsumeAt(tokens, old(index), token)
      ensures r.Parsed? ==> index == r.next
    {
      var tok := CurrentToken();
      if tok.None? {
        return Failed(UnexpectedEOF);
      }
      if token != tok.value {
        return Failed(UnexpectedToken(token));
      }
      ConsumeToken();
      return Parsed((), index);
    }

    method ParseIdentifier() returns (r: Parsed<Token, string>)
      requires Valid()
      modifies this
      ensures Valid()
      ensures r == IdentifierAt(tokens, old(index))
      ensures r.Parsed? ==> index == r.next
    {
      var token := CurrentToken();
      if token.None? {
        return Failed(UnexpectedEOF);
      }
      if !token.value.Identifier? {
        return Failed(UnexpectedToken(token.value));
      }
      ConsumeToken();
      return Parsed(token.value.name, index);
    }

    /** The `switch` of `parseExpr()`: reads one primary expression. */
    method ParsePrimary() returns (r: Parsed<Token, Expr>)
      requires Valid()
      modifies this
      ensures Valid()
      ensures r == PrimaryAt(tokens, old(index))
      ensures r.Parsed? ==> index == r.next
      decreases |tokens| - index, 1
    {
      var token := CurrentToken();
      if token.None? {
        return Failed(UnexpectedEOF);
      }
      var expr: Expr;
      match token.value {
        case LeftParen =>
          ConsumeToken();
          var inner := ParseExpr();
          if inner.Failed? {
            return Failed(inner.error);
          }
          var close := Consume(RightParen);
          if close.Failed? {
            return Failed(close.error);
          }
          expr := inner.value;
        case Number(value) =>
          ConsumeToken();
          expr := Expr.Number(value);
        case Identifier(value) =>
          ConsumeToken();
          if CurrentToken() == Some(LeftParen) {
            var params := ParseArguments();
            if params.Failed? {
              return Failed(params.error);
            }
            expr := Call(value, params.value);
          } else {
            expr := Variable(value);
          }
        case If =>
          r := ParseConditional();
          return;
        case _ =>
          return Failed(UnexpectedToken(token.value));
      }
      return Parsed(expr, index);
    }

    /** The `if` case of `parseExpr()`. */
    method ParseConditional() returns (r: Parsed<Token, Expr>)
      requires Valid() && index < |tokens| && tokens[index] == If
      modifies this
      ensures Valid()
      ensures r == ConditionalAt(tokens, old(index))
      ensures r.Parsed? ==> index == r.next
      decreases |tokens| - index, 0
    {
      ConsumeToken();
      var cond := ParseExpr();
      if cond.Failed? {
        return Failed(cond.error);
      }
      r := ParseBranches(cond.value);
    }

    /** The `if` case of `parseExpr()` after the condition: `then`, value, `else`, value. */
    method ParseBranches(cond: Expr) returns (r: Parsed<Token, Expr>)
      requires Valid()
      modifies this
      ensures Valid()
      ensures r == BranchesAt(tokens, cond, old(index))
      ensures r.Parsed? ==> index == r.next
      decreases |tokens| - index, 1
    {
      var th := Consume(Then);
      if th.Failed? {
        return Failed(th.error);
      }
      var thenVal := ParseExpr();
      if thenVal.Failed? {
        return Failed(thenVal.error);
      }
      var el := Consume(Else);
      if el.Failed? {
        return Failed(el.error);
      }
      var elseVal := ParseExpr();
      if elseVal.Failed? {
        return Failed(elseVal.error);
      }
      return Parsed(IfElse(cond, thenVal.value, elseVal.value), index);
    }

    /**
     * `parseExpr()`: a primary, then, if an operator follows, the rest of
     * the expression as its right operand.
     */
    method ParseExpr() returns (r: Parsed<Token, Expr>)
      requires Valid()
      modifies this
      ensures Valid()
      ensures r == ExprAt(tokens, old(index))
      ensures r.Parsed? ==> index == r.next
      decreases |tokens| - index, 2
    {
      var primary := ParsePrimary();
      if primary.Failed? {
        return primary;
      }
      var expr := primary.value;
      var tok := CurrentToken();
      if tok.Some? && tok.value.Operator? {
        ConsumeToken();
        var rhs := ParseExpr();
        if rhs.Failed? {
          return rhs;
        }
        expr := Binary(expr, tok.value.op, rhs.value);
      }
      return Parsed(expr, index);
    }

    /** `parseCommaSeparated(parseExpr)`. */
    method ParseArguments() returns (r: Parsed<Token, seq<Expr>>)
      requires Valid()
      modifies this
      ensures Valid()
      ensures r == ArgListAt(tokens, old(index))
      ensures r.Parsed? ==> index == r.next
      decreases |tokens| - index, 4
    {
      var open := Consume(LeftParen);
      if open.Failed? {
        return Failed(open.error);
      }
      var vals: seq<Expr> := [];
      PrependNil(ArgItems(tokens, index));
      while index < |tokens| && tokens[index] != RightParen
        invariant Valid() && old(index) < index
        invariant ArgListAt(tokens, old(index)) == Prepend(vals, ArgItems(tokens, index))
        decreases |tokens| - index
      {
        ghost var j := index;
        var val := ParseExpr();
        if val.Failed? {
          return Failed(val.error);
        }
        if CurrentToken() == Some(Comma) {
          var _ := Consume(Comma);
        }
        assert ArgItems(tokens, j) == Prepend([val.value], ArgItems(tokens, index));
        PrependPrepend(vals, [val.value], ArgItems(tokens, index));
        vals := vals + [val.value];
      }
      var close := Consume(RightParen);
      if close.Failed? {
        return Failed(close.error);
      }
      assert vals + [] == vals;
      return Parsed(vals, index);
    }

    /** `parseCommaSeparated(parseIdentifier)`. */
    method ParseParameters() returns (r: Parsed<Token, seq<string>>)
      requires Valid()
      modifies this
      ensures Valid()
      ensures r == ParamListAt(tokens, old(index))
      ensures r.Parsed? ==> index == r.next
    {
      var open := Consume(LeftParen);
      if open.Failed? {
        return Failed(open.error);
      }
      var vals: seq<string> := [];
      PrependNil(ParamItems(tokens, index));
      while index < |tokens| && tokens[index] != RightParen
        invariant Valid() && old(index) < index
        invariant ParamListAt(tokens, old(index)) == Prepend(vals, ParamItems(tokens, index))
        decreases |tokens| - index
      {
        ghost var j := index;
        var val := ParseIdentifier();
        if val.Failed? {
          return Failed(val.error);
        }
        if CurrentToken() == Some(Comma) {
          var _ := Consume(Comma);
        }
        assert ParamItems(tokens, j) == Prepend([val.value], ParamItems(tokens, index));
        PrependPrepend(vals, [val.value], ParamItems(tokens, index));
        vals := vals + [val.value];
      }
      var close := Consume(RightParen);
      if close.Failed? {
        return Failed(close.error);
      }
      assert vals + [] == vals;
      return Parsed(vals, index);
    }

    method ParsePrototype() returns (r: Parsed<Token, Prototype>)
      requires Valid()
      modifies this
      ensures Valid()
      ensures r == PrototypeAt(tokens, old(index))
      ensures r.Parsed? ==> index == r.next
    {
      var name := ParseIdentifier();
      if name.Failed? {
        return Failed(name.error);
      }
      var params := ParseParameters();
      if params.Failed? {
        return Failed(params.error);
      }
      return Parsed(Prototype(name.value, params.value), index);
    }

    method ParseExtern() returns (r: Parsed<Token, Prototype>)
      requires Valid()
      modifies this
      ensures Valid()
      ensures r == ExternAt(tokens, old(index))
      ensures r.Parsed? ==> index == r.next
    {
      var kw := Consume(Extern);
      if kw.Failed? {
        return Failed(kw.error);
      }
      var proto := ParsePrototype();
      if proto.Failed? {
        return proto;
      }
      var semi := Consume(Semicolon);
      if semi.Failed? {
        return Failed(semi.error);
      }
      return Parsed(proto.value, index);
    }

    method ParseDefinition() returns (r: Parsed<Token, Definition>)
      requires Valid()
      modifies this
      ensures Valid()
      ensures r == DefinitionAt(tokens, old(index))
      ensures r.Parsed? ==> index == r.next
    {
      var kw := Consume(Def);
      if kw.Failed? {
        return Failed(kw.error);
      }
      var proto := ParsePrototype();
      if proto.Failed? {
        return Failed(proto.error);
      }
      var body := ParseExpr();
      if body.Failed? {
        return Failed(body.error);
      }
      var semi := Consume(Semicolon);
      if semi.Failed? {
        return Failed(semi.error);
      }
      return Parsed(Definition(proto.value, body.value), index);
    }

    /** The `switch` of `parseFile()`: reads one form, which starts at the current token. */
    method ParseItem() returns (r: Parsed<Token, Item>)
      requires Valid() && index < |tokens|
      modifies this
      ensures Valid()
      ensures r == ItemAt(tokens, old(index))
      ensures r.Parsed? ==> index == r.next
    {
      var tok := tokens[index];
      if tok == Extern {
        var p := ParseExtern();
        if p.Failed? {
          return Failed(p.error);
        }
        return Parsed(ExternItem(p.value), index);
      } else if tok == Def {
        var d := ParseDefinition();
        if d.Failed? {
          return Failed(d.error);
        }
        return Parsed(DefinitionItem(d.value), index);
      } else {
        var e := ParseExpr();
        if e.Failed? {
          return Failed(e.error);
        }
        var semi := Consume(Semicolon);
        if semi.Failed? {
          return Failed(semi.error);
        }
        return Parsed(ExpressionItem(e.value), index);
      }
    }

    /**
     * `parseFile()`: reads forms until the tokens run out, registering each
     * in a new `File`; the first error is thrown and no file is returned.
     */
    method ParseFile() returns (r: FileOutcome)
      requires Valid()
      modifies this
      ensures Valid()
      ensures r.Done? <==> ItemsFrom(tokens, old(index)).Parsed?
      ensures r.Threw? ==> r.error == ItemsFrom(tokens, old(index)).error
      ensures r.Done? ==> fresh(r.file) && r.file.Valid()
      ensures r.Done? ==> var items := ItemsFrom(tokens, old(index)).value;
        && r.file.externs == ExternsOf(items)
        && r.file.definitions == DefinitionsOf(items)
        && r.file.expressions == ExpressionsOf(items)
        && r.file.registrations == RegistrationsOf(items)
    {
      var file := new File();
      ghost var done: seq<Item> := [];
      PrependNil(ItemsFrom(tokens, index));
      while index < |tokens|
        invariant Valid()
        invariant fresh(file) && file.Valid()
        invariant ItemsFrom(tokens, old(index)) == Prepend(done, ItemsFrom(tokens, index))
        invariant file.externs == ExternsOf(done) && file.definitions == DefinitionsOf(done)
        invariant file.expressions == ExpressionsOf(done) && file.registrations == RegistrationsOf(done)
        decreases |tokens| - index
      {
        ghost var before := index;
        var item := ParseItem();
        if item.Failed? {
          return Threw(item.error);
        }
        Register(file, item.value);
        ItemsFromStep(tokens, before, done);
        ItemListsAppend(done, item.value);
        done := done + [item.value];
      }
      assert done + [] == done;
      return Done(file);
    }
  }

  /** The `addExtern` / `addDefinition` / `addExpression` call `parseFile()` makes for one form. */
  method Register(file: File, item: Item)
    requires file.Valid()
    modifies file
    ensures file.Valid()
    ensures file.externs == old(file.externs) + ExternsOf([item])
    ensures file.definitions == old(file.definitions) + DefinitionsOf([item])
    ensures file.expressions == old(file.expressions) + ExpressionsOf([item])
    ensures file.registrations == old(file.registrations) + RegistrationOf(item)
  {
    match item {
      case ExternItem(p) => file.AddExtern(p);
      case DefinitionItem(d) => file.AddDefinition(d);
      case ExpressionItem(e) => file.AddExpression(e);
    }
  }

  /** One more iteration of the `parseFile()` loop, once `done` were read. */
  lemma ItemsFromStep(toks: seq<Token>, i: nat, done: seq<Item>)
    requires i < |toks| && ItemAt(toks, i).Parsed?
    ensures Prepend(done, ItemsFrom(toks, i)) ==
      Prepend(done + [ItemAt(toks, i).value], ItemsFrom(toks, ItemAt(toks, i).next))
  {
    PrependPrepend(done, [ItemAt(toks, i).value], ItemsFrom(toks, ItemAt(toks, i).next));
  }

  /** The per-kind lists of `items + [item]`: the item lands at the end of its own list only. */
  lemma ItemListsAppend(items: seq<Item>, item: Item)
    ensures ExternsOf(items + [item]) == ExternsOf(items) + ExternsOf([item])
    ensures DefinitionsOf(items + [item]) == DefinitionsOf(items) + DefinitionsOf([item])
    ensures ExpressionsOf(items + [item]) == ExpressionsOf(items) + ExpressionsOf([item])
    ensures RegistrationsOf(items + [item]) == RegistrationsOf(items) + RegistrationOf(item)
  {
    ExternsAppend(items, item);
    DefinitionsAppend(items, item);
    ExpressionsAppend(items, item);
    RegistrationsAppend(items, item);
  }

  lemma {:induction false} ExternsAppend(items: seq<Item>, item: Item)
    ensures ExternsOf(items + [item]) == ExternsOf(items) + ExternsOf([item])
  {
    if items != [] {
      assert (items + [item])[1..] == items[1..] + [item];
      ExternsAppend(items[1..], item);
    }
  }

  lemma {:induction false} DefinitionsAppend(items: seq<Item>, item: Item)
    ensures DefinitionsOf(items + [item]) == DefinitionsOf(items) + DefinitionsOf([item])
  {
    if items != [] {
      assert (items + [item])[1..] == items[1..] + [item];
      DefinitionsAppend(items[1..], item);
    }
  }

  lemma {:induction false} ExpressionsAppend(items: seq<Item>, item: Item)
    ensures ExpressionsOf(items + [item]) == ExpressionsOf(items) + ExpressionsOf([item])
  {
    if items != [] {
      assert (items + [item])[1..] == items[1..] + [item];
      ExpressionsAppend(items[1..], item);
    }
  }

  lemma {:induction false} RegistrationsAppend(items: seq<Item>, item: Item)
    ensures RegistrationsOf(items + [item]) == RegistrationsOf(items) + RegistrationOf(item)
  {
    if items != [] {
      assert (items + [item])[1..] == items[1..] + [item];
      RegistrationsAppend(items[1..], item);
    }
  }
}
