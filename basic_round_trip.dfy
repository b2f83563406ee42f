/**
 * Properties of the basic parser: a token rendering of every AST that the
 * parser reads back exactly, the grammar rules of `parseExpr` and
 * `parseCommaSeparated`, and the top level, which takes only `extern` and
 * `def` forms and rejects anything else, `;` included.
 */
module BasicRoundTrip {
  import opened Registry
  import opened BasicLexer
  import opened BasicAst
  import opened Parsing
  import opened BasicParser

  /**
   * The tokens in front of which an expression ends: anything but an
   * operator, which would extend it, or `(`, which would turn a trailing
   * name into a call.
   */
  predicate EndsExpr(t: Token)
  {
    !t.Operator? && t != LeftParen
  }

  /** Index `j` ends an expression: the input ends there or a token follows in front of which expressions end. */
  predicate Closes(toks: seq<Token>, j: nat)
  {
    j == |toks| || (j < |toks| && EndsExpr(toks[j]))
  }

  /**
   * The tokens of an expression: operands of an operator are parenthesised
   * when they are themselves operator expressions, and right operands never
   * are.
   */
  function Render(e: Expr): (r: seq<Token>)
    ensures |r| > 0 && StartsPrimary(r[0])
    decreases e, 1
  {
    if e.Binary? then Operand(e.lhs) + [Operator(e.op)] + Render(e.rhs) else Bare(e)
  }

  /** The tokens of an expression used as the left operand of an operator. */
  function Operand(e: Expr): (r: seq<Token>)
    ensures |r| > 0 && StartsPrimary(r[0])
    decreases e, 2
  {
    if e.Binary? then [LeftParen] + Render(e) + [RightParen] else Bare(e)
  }

  /** The tokens of an expression that is not an operator expression, without parentheses. */
  function Bare(e: Expr): (r: seq<Token>)
    requires !e.Binary?
    ensures |r| > 0 && StartsPrimary(r[0])
    decreases e, 0
  {
    match e
    case Number(lexeme) => [Token.Number(lexeme)]
    case Variable(name) => [Identifier(name)]
    case Call(callee, args) => [Identifier(callee), LeftParen] + RenderArgs(args) + [RightParen]
  }

  /** Call arguments, separated by commas. */
  function RenderArgs(args: seq<Expr>): (r: seq<Token>)
    decreases args
  {
    if args == [] then []
    else if |args| == 1 then Render(args[0])
    else Render(args[0]) + [Comma] + RenderArgs(args[1..])
  }

  /** Parameter names, separated by commas. */
  function RenderParams(params: seq<string>): (r: seq<Token>)
  {
    if params == [] then []
    else if |params| == 1 then [Identifier(params[0])]
    else [Identifier(params[0]), Comma] + RenderParams(params[1..])
  }

  function RenderPrototype(p: Prototype): (r: seq<Token>)
  {
    [Identifier(p.name), LeftParen] + RenderParams(p.params) + [RightParen]
  }

  /** The tokens of a top-level form. */
  function RenderForm(form: Form): (r: seq<Token>)
  {
    match form
    case ExternForm(p) => [Extern] + RenderPrototype(p)
    case DefinitionForm(d) => [Def] + RenderPrototype(d.prototype) + Render(d.expr)
  }

  function RenderForms(forms: seq<Form>): (r: seq<Token>)
  {
    if forms == [] then [] else RenderForm(forms[0]) + RenderForms(forms[1..])
  }

  /** A rendered expression that is not followed by an operator or `(` parses back to itself. */
  lemma {:induction false} RenderParses(e: Expr, toks: seq<Token>, i: nat)
    requires At(toks, i, Render(e)) && Closes(toks, i + |Render(e)|)
    ensures ExprAt(toks, i) == Parsed(e, i + |Render(e)|)
    decreases e, 4
  {
    if e.Binary? {
      var left := Operand(e.lhs);
      AtConcat(toks, i, left + [Operator(e.op)], Render(e.rhs));
      AtConcat(toks, i, left, [Operator(e.op)]);
      AtHead(toks, i + |left|, [Operator(e.op)]);
      OperandParses(e.lhs, toks, i);
      RenderParses(e.rhs, toks, i + |left| + 1);
    } else {
      BareParses(e, toks, i);
    }
  }

  /** A rendered left operand followed by an operator parses back as a primary. */
  lemma {:induction false} OperandParses(e: Expr, toks: seq<Token>, i: nat)
    requires At(toks, i, Operand(e))
    requires i + |Operand(e)| < |toks| && toks[i + |Operand(e)|].Operator?
    ensures PrimaryAt(toks, i) == Parsed(e, i + |Operand(e)|)
    decreases e, 6
  {
    if e.Binary? {
      ParenthesisedParses(e, toks, i);
    } else {
      BareParses(e, toks, i);
    }
  }

  lemma {:induction false} ParenthesisedParses(e: Expr, toks: seq<Token>, i: nat)
    requires At(toks, i, [LeftParen] + Render(e) + [RightParen])
    ensures PrimaryAt(toks, i) == Parsed(e, i + |Render(e)| + 2)
    decreases e, 5
  {
    AtConcat(toks, i, [LeftParen] + Render(e), [RightParen]);
    AtConcat(toks, i, [LeftParen], Render(e));
    AtHead(toks, i, [LeftParen]);
    AtHead(toks, i + 1 + |Render(e)|, [RightParen]);
    RenderParses(e, toks, i + 1);
  }

  /**
   * A rendered non-operator expression parses back as a primary, provided
   * no `(` follows a bare name.
   */
  lemma {:induction false} BareParses(e: Expr, toks: seq<Token>, i: nat)
    requires !e.Binary?
    requires At(toks, i, Bare(e))
    requires i + |Bare(e)| == |toks| || toks[i + |Bare(e)|] != LeftParen
    ensures PrimaryAt(toks, i) == Parsed(e, i + |Bare(e)|)
    decreases e, 3
  {
    AtHead(toks, i, Bare(e));
    match e
    case Number(_) =>
    case Variable(_) =>
    case Call(callee, args) => CallParses(callee, args, toks, i);
  }

  lemma {:induction false} CallParses(callee: string, args: seq<Expr>, toks: seq<Token>, i: nat)
    requires At(toks, i, Bare(Call(callee, args)))
    ensures PrimaryAt(toks, i) == Parsed(Call(callee, args), i + |Bare(Call(callee, args))|)
    decreases Call(callee, args), 1
  {
    var a := RenderArgs(args);
    assert Bare(Call(callee, args)) == [Identifier(callee), LeftParen] + a + [RightParen];
    AtConcat(toks, i, [Identifier(callee), LeftParen] + a, [RightParen]);
    AtConcat(toks, i, [Identifier(callee), LeftParen], a);
    AtHead(toks, i, [Identifier(callee), LeftParen]);
    assert toks[i + 1] == [Identifier(callee), LeftParen][1];
    AtConcat(toks, i + 2, a, [RightParen]);
    ArgsParse(args, toks, i + 2);
    assert ArgListAt(toks, i + 1) == Parsed(args, i + 3 + |a|);
  }

  /** Rendered arguments and the closing `)` parse back to the argument list. */
  lemma {:induction false} ArgsParse(args: seq<Expr>, toks: seq<Token>, j: nat)
    requires At(toks, j, RenderArgs(args) + [RightParen])
    ensures ArgItems(toks, j) == Parsed(args, j + |RenderArgs(args)| + 1)
    decreases args, 1
  {
    if args == [] {
      assert RenderArgs(args) + [RightParen] == [RightParen];
      AtHead(toks, j, [RightParen]);
    } else if |args| == 1 {
      assert RenderArgs(args) + [RightParen] == Render(args[0]) + [RightParen];
      LeadingExprParses(args[0], [RightParen], toks, j);
      var k := j + |Render(args[0])|;
      AtHead(toks, k, [RightParen]);
      assert ArgItems(toks, k) == Parsed([], k + 1);
      ArgItemsStep(toks, j, args[0], k, [], k + 1);
      assert [args[0]] + [] == args;
    } else {
      ArgsConsParse(args, toks, j);
    }
  }

  lemma {:induction false} ArgsConsParse(args: seq<Expr>, toks: seq<Token>, j: nat)
    requires |args| >= 2 && At(toks, j, RenderArgs(args) + [RightParen])
    ensures ArgItems(toks, j) == Parsed(args, j + |RenderArgs(args)| + 1)
    decreases args, 0
  {
    var first, rest := Render(args[0]), RenderArgs(args[1..]);
    assert RenderArgs(args) + [RightParen] == first + ([Comma] + (rest + [RightParen]));
    LeadingExprParses(args[0], [Comma] + (rest + [RightParen]), toks, j);
    var k := j + |first|;
    AtConcat(toks, k, [Comma], rest + [RightParen]);
    AtHead(toks, k, [Comma]);
    ArgsParse(args[1..], toks, k + 1);
    ArgItemsStep(toks, j, args[0], k, args[1..], k + 1 + |rest| + 1);
    assert [args[0]] + args[1..] == args;
  }

  /** A rendered expression in front of a token that ends it parses back, and what follows it is left in place. */
  lemma {:induction false} LeadingExprParses(e: Expr, after: seq<Token>, toks: seq<Token>, j: nat)
    requires At(toks, j, Render(e) + after) && |after| > 0 && EndsExpr(after[0])
    ensures j < |toks| && toks[j] != RightParen
    ensures ExprAt(toks, j) == Parsed(e, j + |Render(e)|)
    ensures At(toks, j + |Render(e)|, after)
    decreases e, 5
  {
    AtConcat(toks, j, Render(e), after);
    AtHead(toks, j, Render(e));
    AtHead(toks, j + |Render(e)|, after);
    RenderParses(e, toks, j);
  }

  /** One item of `parseCommaSeparated(parseExpr)`, with its optional comma. */
  lemma ArgItemsStep(toks: seq<Token>, j: nat, e: Expr, k: nat, rest: seq<Expr>, n: nat)
    requires j < k <= |toks| && toks[j] != RightParen && ExprAt(toks, j) == Parsed(e, k)
    requires ArgItems(toks, if k < |toks| && toks[k] == Comma then k + 1 else k) == Parsed(rest, n)
    ensures ArgItems(toks, j) == Parsed([e] + rest, n)
  {
  }

  /** `parseExpr()` reads the rendering of any expression back to that expression, using all of it. */
  lemma ExprRoundTrip(e: Expr)
    ensures ExprAt(Render(e), 0) == Parsed(e, |Render(e)|)
  {
    AtSelf(Render(e));
    RenderParses(e, Render(e), 0);
  }

  /** Rendered parameter names and the closing `)` parse back to the names. */
  lemma {:induction false} ParamsParse(params: seq<string>, toks: seq<Token>, j: nat)
    requires At(toks, j, RenderParams(params) + [RightParen])
    ensures ParamItems(toks, j) == Parsed(params, j + |RenderParams(params)| + 1)
    decreases params
  {
    var s := RenderParams(params) + [RightParen];
    if params == [] {
      assert s == [RightParen];
      AtHead(toks, j, s);
    } else if |params| == 1 {
      assert s == [Identifier(params[0]), RightParen];
      AtHead(toks, j, s);
      assert toks[j + 1] == s[1];
      assert ParamItems(toks, j + 1) == Parsed([], j + 2);
      assert [params[0]] + [] == params;
    } else {
      var rest := RenderParams(params[1..]);
      assert s == [Identifier(params[0]), Comma] + (rest + [RightParen]);
      AtConcat(toks, j, [Identifier(params[0]), Comma], rest + [RightParen]);
      AtHead(toks, j, s);
      assert toks[j + 1] == s[1];
      ParamsParse(params[1..], toks, j + 2);
      assert [params[0]] + params[1..] == params;
    }
  }

  /** A rendered prototype parses back to itself. */
  lemma PrototypeParses(p: Prototype, toks: seq<Token>, i: nat)
    requires At(toks, i, RenderPrototype(p))
    ensures PrototypeAt(toks, i) == Parsed(p, i + |RenderPrototype(p)|)
  {
    var s := RenderPrototype(p);
    assert s == [Identifier(p.name), LeftParen] + (RenderParams(p.params) + [RightParen]);
    AtConcat(toks, i, [Identifier(p.name), LeftParen], RenderParams(p.params) + [RightParen]);
    AtHead(toks, i, s);
    assert toks[i + 1] == s[1];
    ParamsParse(p.params, toks, i + 2);
    assert ParamListAt(toks, i + 1) == Parsed(p.params, i + |s|);
  }

  lemma ExternFormParses(p: Prototype, toks: seq<Token>, i: nat)
    requires At(toks, i, RenderForm(ExternForm(p)))
    ensures FormAt(toks, i) == Parsed(ExternForm(p), i + |RenderForm(ExternForm(p))|)
  {
    var rp := RenderPrototype(p);
    assert RenderForm(ExternForm(p)) == [Extern] + rp;
    AtConcat(toks, i, [Extern], rp);
    AtHead(toks, i, [Extern]);
    PrototypeParses(p, toks, i + 1);
  }

  lemma DefinitionFormParses(d: Definition, toks: seq<Token>, i: nat)
    requires At(toks, i, RenderForm(DefinitionForm(d))) && Closes(toks, i + |RenderForm(DefinitionForm(d))|)
    ensures FormAt(toks, i) == Parsed(DefinitionForm(d), i + |RenderForm(DefinitionForm(d))|)
  {
    var rp, re := RenderPrototype(d.prototype), Render(d.expr);
    var j := i + 1 + |rp|;
    assert toks[i] == Def && At(toks, i + 1, rp) && At(toks, j, re) by {
      assert RenderForm(DefinitionForm(d)) == [Def] + rp + re;
      AtConcat(toks, i, [Def] + rp, re);
      AtConcat(toks, i, [Def], rp);
      AtHead(toks, i, [Def]);
    }
    PrototypeParses(d.prototype, toks, i + 1);
    RenderParses(d.expr, toks, j);
    DefinitionSteps(toks, i, d, j, j + |re|);
  }

  lemma DefinitionSteps(toks: seq<Token>, i: nat, d: Definition, j: nat, k: nat)
    requires i < j < k <= |toks| && toks[i] == Def
    requires PrototypeAt(toks, i + 1) == Parsed(d.prototype, j)
    requires ExprAt(toks, j) == Parsed(d.expr, k)
    ensures FormAt(toks, i) == Parsed(DefinitionForm(d), k)
  {
    assert DefinitionAt(toks, i) == Parsed(d, k);
  }

  /** A rendered form parses back to itself when no operator or `(` follows it. */
  lemma FormParses(form: Form, toks: seq<Token>, i: nat)
    requires At(toks, i, RenderForm(form)) && Closes(toks, i + |RenderForm(form)|)
    ensures FormAt(toks, i) == Parsed(form, i + |RenderForm(form)|)
  {
    match form
    case ExternForm(p) => ExternFormParses(p, toks, i);
    case DefinitionForm(d) => DefinitionFormParses(d, toks, i);
  }

  /** Rendered forms that run to the end of the tokens parse back to themselves. */
  lemma {:induction false} FormsParse(forms: seq<Form>, toks: seq<Token>, i: nat)
    requires At(toks, i, RenderForms(forms)) && i + |RenderForms(forms)| == |toks|
    ensures FormsFrom(toks, i) == Parsed(forms, |toks|)
    decreases forms
  {
    if forms != [] {
      var k := i + |RenderForm(forms[0])|;
      FirstFormParses(forms, toks, i);
      FormsParse(forms[1..], toks, k);
      FormsStep(toks, i, forms[0], k, forms[1..]);
      assert [forms[0]] + forms[1..] == forms;
    }
  }

  /**
   * The first of some rendered forms, closed after them all, parses back to
   * itself, and the rest of the forms are rendered where it ends.
   */
  lemma FirstFormParses(forms: seq<Form>, toks: seq<Token>, i: nat)
    requires forms != [] && At(toks, i, RenderForms(forms)) && Closes(toks, i + |RenderForms(forms)|)
    ensures var k := i + |RenderForm(forms[0])|;
      && FormAt(toks, i) == Parsed(forms[0], k)
      && At(toks, k, RenderForms(forms[1..])) && k + |RenderForms(forms[1..])| == i + |RenderForms(forms)|
  {
    FormsLayout(forms, toks, i);
    FormsLength(forms);
    FormsBoundary(forms, toks, i);
    FormParses(forms[0], toks, i);
  }

  /** Where the first of some rendered forms ends, the rest begin. */
  lemma FormsLayout(forms: seq<Form>, toks: seq<Token>, i: nat)
    requires forms != [] && At(toks, i, RenderForms(forms))
    ensures var k := i + |RenderForm(forms[0])|;
      && At(toks, i, RenderForm(forms[0]))
      && At(toks, k, RenderForms(forms[1..]))
  {
    var first, rest := RenderForm(forms[0]), RenderForms(forms[1..]);
    assert RenderForms(forms) == first + rest;
    AtConcat(toks, i, first, rest);
  }

  /** The rendering of forms is as long as that of the first and the rest together. */
  lemma FormsLength(forms: seq<Form>)
    requires forms != []
    ensures |RenderForms(forms)| == |RenderForm(forms[0])| + |RenderForms(forms[1..])|
  {
  }

  /** The first of some rendered forms is followed by the next form or by what follows them all. */
  lemma FormsBoundary(forms: seq<Form>, toks: seq<Token>, i: nat)
    requires forms != [] && At(toks, i, RenderForms(forms)) && Closes(toks, i + |RenderForms(forms)|)
    ensures Closes(toks, i + |RenderForm(forms[0])|)
  {
    var first, rest := RenderForm(forms[0]), RenderForms(forms[1..]);
    var s := RenderForms(forms);
    assert s == first + rest;
    if forms[1..] != [] {
      FormsStart(forms[1..]);
      assert toks[i + |first|] == s[|first|];
    }
  }

  /** Rendered forms begin with `extern` or `def`. */
  lemma FormsStart(forms: seq<Form>)
    requires forms != []
    ensures |RenderForms(forms)| > 0 && (RenderForms(forms)[0] == Extern || RenderForms(forms)[0] == Def)
  {
    assert RenderForms(forms) == RenderForm(forms[0]) + RenderForms(forms[1..]);
    match forms[0]
    case ExternForm(p) =>
      assert RenderForm(forms[0]) == [Extern] + RenderPrototype(p);
    case DefinitionForm(d) =>
      assert RenderForm(forms[0]) == [Def] + RenderPrototype(d.prototype) + Render(d.expr);
  }

  /** One more iteration of the `parseTopLevel()` loop that reaches the end of the tokens. */
  lemma FormsStep(toks: seq<Token>, i: nat, form: Form, k: nat, rest: seq<Form>)
    requires i < |toks| && FormAt(toks, i) == Parsed(form, k) && FormsFrom(toks, k) == Parsed(rest, |toks|)
    ensures FormsFrom(toks, i) == Parsed([form] + rest, |toks|)
  {
  }

  /**
   * `parseTopLevel()` reads the rendering of any list of forms back to that
   * list, so the `TopLevel` it builds holds their externs and definitions in
   * source order.
   */
  lemma TopLevelRoundTrip(forms: seq<Form>)
    ensures FormsFrom(RenderForms(forms), 0) == Parsed(forms, |RenderForms(forms)|)
  {
    AtSelf(RenderForms(forms));
    FormsParse(forms, RenderForms(forms), 0);
  }

  /**
   * Rendered forms followed by a token other than `extern` and `def` that
   * does not extend the last expression: the loop of `parseTopLevel()`
   * throws `unexpectedToken` with that token.
   */
  lemma {:induction false} StrayAfterForms(forms: seq<Form>, toks: seq<Token>, i: nat, n: nat)
    requires At(toks, i, RenderForms(forms)) && i + |RenderForms(forms)| == n < |toks|
    requires toks[n] != Extern && toks[n] != Def && EndsExpr(toks[n])
    ensures FormsFrom(toks, i) == Failed(UnexpectedToken(toks[n]))
    decreases forms
  {
    if forms != [] {
      var k := i + |RenderForm(forms[0])|;
      FirstFormParses(forms, toks, i);
      StrayAfterForms(forms[1..], toks, k, n);
      StrayStep(toks, i, forms[0], k, toks[n]);
    }
  }

  /** One more iteration of the `parseTopLevel()` loop before it throws. */
  lemma StrayStep(toks: seq<Token>, i: nat, form: Form, k: nat, t: Token)
    requires i < |toks| && FormAt(toks, i) == Parsed(form, k) && FormsFrom(toks, k) == Failed(UnexpectedToken(t))
    ensures FormsFrom(toks, i) == Failed(UnexpectedToken(t))
  {
  }

  /**
   * After any forms, a token other than `extern` and `def` that does not
   * extend the last expression is thrown as `unexpectedToken`.
   */
  lemma StrayTokenRejected(forms: seq<Form>, t: Token, rest: seq<Token>)
    requires t != Extern && t != Def && EndsExpr(t)
    ensures FormsFrom(RenderForms(forms) + [t] + rest, 0) == Failed(UnexpectedToken(t))
  {
    var toks := RenderForms(forms) + [t] + rest;
    AtSelf(toks);
    assert toks == RenderForms(forms) + ([t] + rest);
    AtConcat(toks, 0, RenderForms(forms), [t] + rest);
    StrayAfterForms(forms, toks, 0, |RenderForms(forms)|);
  }

  /** `parseExtern` and `parseDefinition` read no `;`, so a `;` after any forms is rejected. */
  lemma SemicolonRejected(forms: seq<Form>, rest: seq<Token>)
    ensures FormsFrom(RenderForms(forms) + [Semicolon] + rest, 0) == Failed(UnexpectedToken(Semicolon))
  {
    StrayTokenRejected(forms, Semicolon, rest);
  }

  /** Example: `a-b-c` reads as `a-(b-c)`; operators associate to the right and have no precedence. */
  lemma RightAssociative()
    ensures ExprAt([Identifier("a"), Operator(Minus), Identifier("b"), Operator(Minus), Identifier("c")], 0)
      == Parsed(Binary(Variable("a"), Minus, Binary(Variable("b"), Minus, Variable("c"))), 5)
  {
    var e := Binary(Variable("a"), Minus, Binary(Variable("b"), Minus, Variable("c")));
    assert Render(e) == [Identifier("a"), Operator(Minus), Identifier("b"), Operator(Minus), Identifier("c")];
    ExprRoundTrip(e);
  }

  /** Call arguments written one after the other, without commas. */
  function RenderArgsSpaced(args: seq<Expr>): (r: seq<Token>)
  {
    if args == [] then [] else Render(args[0]) + RenderArgsSpaced(args[1..])
  }

  /** No argument after the first begins with `(`. */
  predicate NoLaterParen(args: seq<Expr>)
  {
    |args| <= 1 || (Render(args[1])[0] != LeftParen && NoLaterParen(args[1..]))
  }

  /**
   * The comma between arguments is optional: written without commas, the
   * arguments parse back to the same list, as long as no argument after the
   * first begins with `(` (which would make the name before it a call).
   */
  lemma {:induction false} SpacedArgsParse(args: seq<Expr>, toks: seq<Token>, j: nat)
    requires NoLaterParen(args)
    requires At(toks, j, RenderArgsSpaced(args) + [RightParen])
    ensures ArgItems(toks, j) == Parsed(args, j + |RenderArgsSpaced(args)| + 1)
    decreases args
  {
    if args == [] {
      assert RenderArgsSpaced(args) + [RightParen] == [RightParen];
      AtHead(toks, j, [RightParen]);
    } else {
      var first, rest := Render(args[0]), RenderArgsSpaced(args[1..]);
      var after := rest + [RightParen];
      assert RenderArgsSpaced(args) + [RightParen] == first + after;
      SpacedFollower(args);
      LeadingExprParses(args[0], after, toks, j);
      var k := j + |first|;
      AtHead(toks, k, after);
      SpacedArgsParse(args[1..], toks, k);
      ArgItemsStep(toks, j, args[0], k, args[1..], k + |rest| + 1);
      assert [args[0]] + args[1..] == args;
    }
  }

  /** What follows the first of the spaced arguments ends it and is no comma. */
  lemma SpacedFollower(args: seq<Expr>)
    requires |args| > 0 && NoLaterParen(args)
    ensures var after := RenderArgsSpaced(args[1..]) + [RightParen];
      EndsExpr(after[0]) && after[0] != Comma
  {
    if |args| > 1 {
      assert RenderArgsSpaced(args[1..]) == Render(args[1]) + RenderArgsSpaced(args[2..]);
    }
  }

  /**
   * `parseExpr()` throws `unexpectedEOF` when no token is left, and
   * `unexpectedToken` with the token found when that token cannot start a
   * primary expression.
   */
  lemma ExprErrors(toks: seq<Token>, i: nat)
    requires i <= |toks|
    ensures i == |toks| ==> ExprAt(toks, i) == Failed(UnexpectedEOF)
    ensures i < |toks| && !StartsPrimary(toks[i]) ==> ExprAt(toks, i) == Failed(UnexpectedToken(toks[i]))
  {
  }

  /** A successful `parseExpr()` never stops in front of an operator. */
  lemma {:induction false} ExprIsMaximal(toks: seq<Token>, i: nat)
    requires i <= |toks| && ExprAt(toks, i).Parsed?
    ensures var j := ExprAt(toks, i).next; j == |toks| || !toks[j].Operator?
    decreases |toks| - i
  {
    var primary := PrimaryAt(toks, i);
    if primary.next < |toks| && toks[primary.next].Operator? {
      ExprIsMaximal(toks, primary.next + 1);
    }
  }
}
