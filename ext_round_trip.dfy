/**
 * Properties of the extended parser: a token rendering of every AST that
 * the parser reads back exactly (so right-nested operator chains need no
 * parentheses), and the individual grammar rules of `parseExpr`,
 * `parseCommaSeparated` and `parseFile`.
 */
module ExtRoundTrip {
  import opened Registry
  import opened ExtLexer
  import opened ExtAst
  import opened Parsing
  import opened ExtParser

  /**
   * The tokens in front of which an expression ends: anything but an
   * operator, which would extend it, or `(`, which would turn a trailing
   * name into a call.
   */
  predicate EndsExpr(t: Token)
  {
    !t.Operator? && t != LeftParen
  }

  /** Index `j` ends an expression: the input ends there or a token follows in front of which expressions end. */
  predicate Closes(toks: seq<Token>, j: nat)
  {
    j == |toks| || (j < |toks| && EndsExpr(toks[j]))
  }

  /**
   * The tokens of an expression: operands of an operator are parenthesised
   * when they are themselves operator expressions or conditionals, and
   * right operands never are.
   */
  function Render(e: Expr): (r: seq<Token>)
    ensures |r| > 0 && StartsPrimary(r[0])
    decreases e, 1
  {
    if e.Binary? then Operand(e.lhs) + [Operator(e.op)] + Render(e.rhs) else Bare(e)
  }

  /** The tokens of an expression used as the left operand of an operator. */
  function Operand(e: Expr): (r: seq<Token>)
    ensures |r| > 0 && StartsPrimary(r[0])
    decreases e, 2
  {
    if e.Binary? || e.IfElse? then [LeftParen] + Render(e) + [RightParen] else Bare(e)
  }

  /** The tokens of an expression that is not an operator expression, without parentheses. */
  function Bare(e: Expr): (r: seq<Token>)
    requires !e.Binary?
    ensures |r| > 0 && StartsPrimary(r[0])
    decreases e, 0
  {
    match e
    case Number(lexeme) => [Token.Number(lexeme)]
    case Variable(name) => [Identifier(name)]
    case Call(callee, args) => [Identifier(callee), LeftParen] + RenderArgs(args) + [RightParen]
    case IfElse(c, t, f) => [If] + Render(c) + [Then] + Render(t) + [Else] + Render(f)
  }

  /** Call arguments, separated by commas. */
  function RenderArgs(args: seq<Expr>): (r: seq<Token>)
    decreases args
  {
    if args == [] then []
    else if |args| == 1 then Render(args[0])
    else Render(args[0]) + [Comma] + RenderArgs(args[1..])
  }

  /** Parameter names, separated by commas. */
  function RenderParams(params: seq<string>): (r: seq<Token>)
  {
    if params == [] then []
    else if |params| == 1 then [Identifier(params[0])]
    else [Identifier(params[0]), Comma] + RenderParams(params[1..])
  }

  function RenderPrototype(p: Prototype): (r: seq<Token>)
  {
    [Identifier(p.name), LeftParen] + RenderParams(p.params) + [RightParen]
  }

  /** The tokens of a top-level form, each ending in `;`. */
  function RenderItem(item: Item): (r: seq<Token>)
  {
    match item
    case ExternItem(p) => [Extern] + RenderPrototype(p) + [Semicolon]
    case DefinitionItem(d) => [Def] + RenderPrototype(d.prototype) + Render(d.expr) + [Semicolon]
    case ExpressionItem(e) => Render(e) + [Semicolon]
  }

  function RenderItems(items: seq<Item>): (r: seq<Token>)
  {
    if items == [] then [] else RenderItem(items[0]) + RenderItems(items[1..])
  }

  /** A rendered expression that is not followed by an operator or `(` parses back to itself. */
  lemma {:induction false} RenderParses(e: Expr, toks: seq<Token>, i: nat)
    requires At(toks, i, Render(e)) && Closes(toks, i + |Render(e)|)
    ensures ExprAt(toks, i) == Parsed(e, i + |Render(e)|)
    decreases e, 4
  {
    if e.Binary? {
      var left := Operand(e.lhs);
      AtConcat(toks, i, left + [Operator(e.op)], Render(e.rhs));
      AtConcat(toks, i, left, [Operator(e.op)]);
      AtHead(toks, i + |left|, [Operator(e.op)]);
      OperandParses(e.lhs, toks, i);
      RenderParses(e.rhs, toks, i + |left| + 1);
    } else {
      BareParses(e, toks, i);
    }
  }

  /** A rendered left operand followed by an operator parses back as a primary. */
  lemma {:induction false} OperandParses(e: Expr, toks: seq<Token>, i: nat)
    requires At(toks, i, Operand(e))
    requires i + |Operand(e)| < |toks| && toks[i + |Operand(e)|].Operator?
    ensures PrimaryAt(toks, i) == Parsed(e, i + |Operand(e)|)
    decreases e, 6
  {
    if e.Binary? || e.IfElse? {
      ParenthesisedParses(e, toks, i);
    } else {
      BareParses(e, toks, i);
    }
  }

  lemma {:induction false} ParenthesisedParses(e: Expr, toks: seq<Token>, i: nat)
    requires At(toks, i, [LeftParen] + Render(e) + [RightParen])
    ensures PrimaryAt(toks, i) == Parsed(e, i + |Render(e)| + 2)
    decreases e, 5
  {
    AtConcat(toks, i, [LeftParen] + Render(e), [RightParen]);
    AtConcat(toks, i, [LeftParen], Render(e));
    AtHead(toks, i, [LeftParen]);
    AtHead(toks, i + 1 + |Render(e)|, [RightParen]);
    RenderParses(e, toks, i + 1);
  }

  /**
   * A rendered non-operator expression parses back as a primary, provided
   * no `(` follows a bare name and a conditional's `else` branch is closed.
   */
  lemma {:induction false} BareParses(e: Expr, toks: seq<Token>, i: nat)
    requires !e.Binary?
    requires At(toks, i, Bare(e))
    requires e.IfElse? ==> Closes(toks, i + |Bare(e)|)
    requires i + |Bare(e)| == |toks| || toks[i + |Bare(e)|] != LeftParen
    ensures PrimaryAt(toks, i) == Parsed(e, i + |Bare(e)|)
    decreases e, 3
  {
    AtHead(toks, i, Bare(e));
    match e
    case Number(_) =>
    case Variable(_) =>
    case Call(callee, args) => CallParses(callee, args, toks, i);
    case IfElse(c, t, f) => IfElseParses(c, t, f, toks, i);
  }

  lemma {:induction false} CallParses(callee: string, args: seq<Expr>, toks: seq<Token>, i: nat)
    requires At(toks, i, Bare(Call(callee, args)))
    ensures PrimaryAt(toks, i) == Parsed(Call(callee, args), i + |Bare(Call(callee, args))|)
    decreases Call(callee, args), 1
  {
    var a := RenderArgs(args);
    assert Bare(Call(callee, args)) == [Identifier(callee), LeftParen] + a + [RightParen];
    AtConcat(toks, i, [Identifier(callee), LeftParen] + a, [RightParen]);
    AtConcat(toks, i, [Identifier(callee), LeftParen], a);
    AtHead(toks, i, [Identifier(callee), LeftParen]);
    assert toks[i + 1] == [Identifier(callee), LeftParen][1];
    AtConcat(toks, i + 2, a, [RightParen]);
    ArgsParse(args, toks, i + 2);
    assert ArgListAt(toks, i + 1) == Parsed(args, i + 3 + |a|);
  }

  lemma {:induction false} IfElseParses(c: Expr, t: Expr, f: Expr, toks: seq<Token>, i: nat)
    requires At(toks, i, Bare(IfElse(c, t, f))) && Closes(toks, i + |Bare(IfElse(c, t, f))|)
    ensures ConditionalAt(toks, i) == Parsed(IfElse(c, t, f), i + |Bare(IfElse(c, t, f))|)
    decreases IfElse(c, t, f), 2
  {
    ConditionParses(c, t, f, toks, i);
    BranchesParse(c, t, f, toks, i);
  }

  /** The part of a rendered conditional after its condition parses back to the conditional. */
  lemma {:induction false} BranchesParse(c: Expr, t: Expr, f: Expr, toks: seq<Token>, i: nat)
    requires At(toks, i, Bare(IfElse(c, t, f))) && Closes(toks, i + |Bare(IfElse(c, t, f))|)
    ensures BranchesAt(toks, c, i + 1 + |Render(c)|) == Parsed(IfElse(c, t, f), i + |Bare(IfElse(c, t, f))|)
    decreases IfElse(c, t, f), 1
  {
    var rc, rt, rf := Render(c), Render(t), Render(f);
    ThenBranchParses(c, t, f, toks, i);
    ElseBranchParses(c, t, f, toks, i);
    var j1 := i + 1 + |rc|;
    var j2 := j1 + 1 + |rt|;
    BranchesSteps(toks, c, t, f, j1, j2, j2 + 1 + |rf|);
  }

  lemma {:induction false} ConditionParses(c: Expr, t: Expr, f: Expr, toks: seq<Token>, i: nat)
    requires At(toks, i, Bare(IfElse(c, t, f)))
    ensures toks[i] == If && ExprAt(toks, i + 1) == Parsed(c, i + 1 + |Render(c)|)
    decreases IfElse(c, t, f), 0
  {
    assert Bare(IfElse(c, t, f)) == [If] + Render(c) + [Then] + Render(t) + [Else] + Render(f);
    IfElseLayout(toks, i, Render(c), Render(t), Render(f));
    RenderParses(c, toks, i + 1);
  }

  lemma {:induction false} ThenBranchParses(c: Expr, t: Expr, f: Expr, toks: seq<Token>, i: nat)
    requires At(toks, i, Bare(IfElse(c, t, f)))
    ensures var j1 := i + 1 + |Render(c)|;
      toks[j1] == Then && ExprAt(toks, j1 + 1) == Parsed(t, j1 + 1 + |Render(t)|)
    decreases IfElse(c, t, f), 0
  {
    assert Bare(IfElse(c, t, f)) == [If] + Render(c) + [Then] + Render(t) + [Else] + Render(f);
    IfElseLayout(toks, i, Render(c), Render(t), Render(f));
    RenderParses(t, toks, i + 2 + |Render(c)|);
  }

  lemma {:induction false} ElseBranchParses(c: Expr, t: Expr, f: Expr, toks: seq<Token>, i: nat)
    requires At(toks, i, Bare(IfElse(c, t, f)))
    requires Closes(toks, i + |Bare(IfElse(c, t, f))|)
    ensures var j2 := i + 1 + |Render(c)| + 1 + |Render(t)|;
      toks[j2] == Else && ExprAt(toks, j2 + 1) == Parsed(f, j2 + 1 + |Render(f)|)
    ensures |Bare(IfElse(c, t, f))| == 3 + |Render(c)| + |Render(t)| + |Render(f)|
    decreases IfElse(c, t, f), 0
  {
    assert Bare(IfElse(c, t, f)) == [If] + Render(c) + [Then] + Render(t) + [Else] + Render(f);
    IfElseLayout(toks, i, Render(c), Render(t), Render(f));
    RenderParses(f, toks, i + 1 + |Render(c)| + 1 + |Render(t)| + 1);
  }

  lemma IfElseLayout(toks: seq<Token>, i: nat, rc: seq<Token>, rt: seq<Token>, rf: seq<Token>)
    requires At(toks, i, [If] + rc + [Then] + rt + [Else] + rf)
    ensures var j1, j2 := i + 1 + |rc|, i + 2 + |rc| + |rt|;
      && toks[i] == If && At(toks, i + 1, rc) && toks[j1] == Then && At(toks, j1 + 1, rt)
      && toks[j2] == Else && At(toks, j2 + 1, rf)
  {
    AtConcat(toks, i, [If] + rc + [Then] + rt + [Else], rf);
    AtConcat(toks, i, [If] + rc + [Then] + rt, [Else]);
    AtConcat(toks, i, [If] + rc + [Then], rt);
    AtConcat(toks, i, [If] + rc, [Then]);
    AtConcat(toks, i, [If], rc);
    AtHead(toks, i, [If]);
    AtHead(toks, i + 1 + |rc|, [Then]);
    AtHead(toks, i + 2 + |rc| + |rt|, [Else]);
  }

  lemma BranchesSteps(toks: seq<Token>, c: Expr, t: Expr, f: Expr, j1: nat, j2: nat, j3: nat)
    requires j1 < j2 < j3 <= |toks| && toks[j1] == Then && toks[j2] == Else
    requires ExprAt(toks, j1 + 1) == Parsed(t, j2)
    requires ExprAt(toks, j2 + 1) == Parsed(f, j3)
    ensures BranchesAt(toks, c, j1) == Parsed(IfElse(c, t, f), j3)
  {
  }

  /** Rendered arguments and the closing `)` parse back to the argument list. */
  lemma {:induction false} ArgsParse(args: seq<Expr>, toks: seq<Token>, j: nat)
    requires At(toks, j, RenderArgs(args) + [RightParen])
    ensures ArgItems(toks, j) == Parsed(args, j + |RenderArgs(args)| + 1)
    decreases args, 1
  {
    if args == [] {
      assert RenderArgs(args) + [RightParen] == [RightParen];
      AtHead(toks, j, [RightParen]);
    } else if |args| == 1 {
      assert RenderArgs(args) + [RightParen] == Render(args[0]) + [RightParen];
      LeadingExprParses(args[0], [RightParen], toks, j);
      var k := j + |Render(args[0])|;
      AtHead(toks, k, [RightParen]);
      assert ArgItems(toks, k) == Parsed([], k + 1);
      ArgItemsStep(toks, j, args[0], k, [], k + 1);
      assert [args[0]] + [] == args;
    } else {
      ArgsConsParse(args, toks, j);
    }
  }

  lemma {:induction false} ArgsConsParse(args: seq<Expr>, toks: seq<Token>, j: nat)
    requires |args| >= 2 && At(toks, j, RenderArgs(args) + [RightParen])
    ensures ArgItems(toks, j) == Parsed(args, j + |RenderArgs(args)| + 1)
    decreases args, 0
  {
    var first, rest := Render(args[0]), RenderArgs(args[1..]);
    assert RenderArgs(args) + [RightParen] == first + ([Comma] + (rest + [RightParen]));
    LeadingExprParses(args[0], [Comma] + (rest + [RightParen]), toks, j);
    var k := j + |first|;
    AtConcat(toks, k, [Comma], rest + [RightParen]);
    AtHead(toks, k, [Comma]);
    ArgsParse(args[1..], toks, k + 1);
    ArgItemsStep(toks, j, args[0], k, args[1..], k + 1 + |rest| + 1);
    assert [args[0]] + args[1..] == args;
  }

  /** A rendered expression in front of a token that ends it parses back, and what follows it is left in place. */
  lemma {:induction false} LeadingExprParses(e: Expr, after: seq<Token>, toks: seq<Token>, j: nat)
    requires At(toks, j, Render(e) + after) && |after| > 0 && EndsExpr(after[0])
    ensures j < |toks| && toks[j] != RightParen
    ensures ExprAt(toks, j) == Parsed(e, j + |Render(e)|)
    ensures At(toks, j + |Render(e)|, after)
    decreases e, 5
  {
    AtConcat(toks, j, Render(e), after);
    AtHead(toks, j, Render(e));
    AtHead(toks, j + |Render(e)|, after);
    RenderParses(e, toks, j);
  }

  /** One item of `parseCommaSeparated(parseExpr)`, with its optional comma. */
  lemma ArgItemsStep(toks: seq<Token>, j: nat, e: Expr, k: nat, rest: seq<Expr>, n: nat)
    requires j < k <= |toks| && toks[j] != RightParen && ExprAt(toks, j) == Parsed(e, k)
    requires ArgItems(toks, if k < |toks| && toks[k] == Comma then k + 1 else k) == Parsed(rest, n)
    ensures ArgItems(toks, j) == Parsed([e] + rest, n)
  {
  }

  /** `parseExpr()` reads the rendering of any expression back to that expression, using all of it. */
  lemma ExprRoundTrip(e: Expr)
    ensures ExprAt(Render(e), 0) == Parsed(e, |Render(e)|)
  {
    AtSelf(Render(e));
    RenderParses(e, Render(e), 0);
  }

  /** Rendered parameter names and the closing `)` parse back to the names. */
  lemma {:induction false} ParamsParse(params: seq<string>, toks: seq<Token>, j: nat)
    requires At(toks, j, RenderParams(params) + [RightParen])
    ensures ParamItems(toks, j) == Parsed(params, j + |RenderParams(params)| + 1)
    decreases params
  {
    var s := RenderParams(params) + [RightParen];
    if params == [] {
      assert s == [RightParen];
      AtHead(toks, j, s);
    } else if |params| == 1 {
      assert s == [Identifier(params[0]), RightParen];
      AtHead(toks, j, s);
      assert toks[j + 1] == s[1];
      assert ParamItems(toks, j + 1) == Parsed([], j + 2);
      assert [params[0]] + [] == params;
    } else {
      var rest := RenderParams(params[1..]);
      assert s == [Identifier(params[0]), Comma] + (rest + [RightParen]);
      AtConcat(toks, j, [Identifier(params[0]), Comma], rest + [RightParen]);
      AtHead(toks, j, s);
      assert toks[j + 1] == s[1];
      ParamsParse(params[1..], toks, j + 2);
      assert [params[0]] + params[1..] == params;
    }
  }

  /** A rendered prototype parses back to itself. */
  lemma PrototypeParses(p: Prototype, toks: seq<Token>, i: nat)
    requires At(toks, i, RenderPrototype(p))
    ensures PrototypeAt(toks, i) == Parsed(p, i + |RenderPrototype(p)|)
  {
    var s := RenderPrototype(p);
    assert s == [Identifier(p.name), LeftParen] + (RenderParams(p.params) + [RightParen]);
    AtConcat(toks, i, [Identifier(p.name), LeftParen], RenderParams(p.params) + [RightParen]);
    AtHead(toks, i, s);
    assert toks[i + 1] == s[1];
    ParamsParse(p.params, toks, i + 2);
    assert ParamListAt(toks, i + 1) == Parsed(p.params, i + |s|);
  }

  lemma ExternItemParses(p: Prototype, toks: seq<Token>, i: nat)
    requires At(toks, i, RenderItem(ExternItem(p)))
    ensures ItemAt(toks, i) == Parsed(ExternItem(p), i + |RenderItem(ExternItem(p))|)
  {
    var rp := RenderPrototype(p);
    assert RenderItem(ExternItem(p)) == [Extern] + rp + [Semicolon];
    AtConcat(toks, i, [Extern] + rp, [Semicolon]);
    AtConcat(toks, i, [Extern], rp);
    AtHead(toks, i, [Extern]);
    AtHead(toks, i + 1 + |rp|, [Semicolon]);
    PrototypeParses(p, toks, i + 1);
  }

  lemma DefinitionItemParses(d: Definition, toks: seq<Token>, i: nat)
    requires At(toks, i, RenderItem(DefinitionItem(d)))
    ensures ItemAt(toks, i) == Parsed(DefinitionItem(d), i + |RenderItem(DefinitionItem(d))|)
  {
    var rp, re := RenderPrototype(d.prototype), Render(d.expr);
    assert RenderItem(DefinitionItem(d)) == [Def] + rp + re + [Semicolon];
    DefinitionLayout(toks, i, rp, re);
    PrototypeParses(d.prototype, toks, i + 1);
    RenderParses(d.expr, toks, i + 1 + |rp|);
    DefinitionSteps(toks, i, d, i + 1 + |rp|, i + 1 + |rp| + |re|);
  }

  lemma DefinitionLayout(toks: seq<Token>, i: nat, rp: seq<Token>, re: seq<Token>)
    requires At(toks, i, [Def] + rp + re + [Semicolon])
    ensures toks[i] == Def && At(toks, i + 1, rp) && At(toks, i + 1 + |rp|, re)
    ensures toks[i + 1 + |rp| + |re|] == Semicolon
  {
    AtConcat(toks, i, [Def] + rp + re, [Semicolon]);
    AtConcat(toks, i, [Def] + rp, re);
    AtConcat(toks, i, [Def], rp);
    AtHead(toks, i, [Def]);
    AtHead(toks, i + 1 + |rp| + |re|, [Semicolon]);
  }

  lemma DefinitionSteps(toks: seq<Token>, i: nat, d: Definition, j: nat, k: nat)
    requires i < j < k < |toks| && toks[i] == Def && toks[k] == Semicolon
    requires PrototypeAt(toks, i + 1) == Parsed(d.prototype, j)
    requires ExprAt(toks, j) == Parsed(d.expr, k)
    ensures ItemAt(toks, i) == Parsed(DefinitionItem(d), k + 1)
  {
    assert DefinitionAt(toks, i) == Parsed(d, k + 1) by {
      assert ConsumeAt(toks, i, Def) == Parsed((), i + 1);
      assert ConsumeAt(toks, k, Semicolon) == Parsed((), k + 1);
    }
  }

  lemma ExpressionItemParses(e: Expr, toks: seq<Token>, i: nat)
    requires At(toks, i, RenderItem(ExpressionItem(e)))
    ensures ItemAt(toks, i) == Parsed(ExpressionItem(e), i + |RenderItem(ExpressionItem(e))|)
  {
    var re := Render(e);
    assert RenderItem(ExpressionItem(e)) == re + [Semicolon];
    AtConcat(toks, i, re, [Semicolon]);
    AtHead(toks, i, re);
    AtHead(toks, i + |re|, [Semicolon]);
    RenderParses(e, toks, i);
  }

  /** A rendered form parses back to itself. */
  lemma ItemParses(item: Item, toks: seq<Token>, i: nat)
    requires At(toks, i, RenderItem(item))
    ensures ItemAt(toks, i) == Parsed(item, i + |RenderItem(item)|)
  {
    match item
    case ExternItem(p) => ExternItemParses(p, toks, i);
    case DefinitionItem(d) => DefinitionItemParses(d, toks, i);
    case ExpressionItem(e) => ExpressionItemParses(e, toks, i);
  }

  /** Rendered forms that run to the end of the tokens parse back to those forms. */
  lemma {:induction false} ItemsParse(items: seq<Item>, toks: seq<Token>, i: nat)
    requires At(toks, i, RenderItems(items)) && i + |RenderItems(items)| == |toks|
    ensures ItemsFrom(toks, i) == Parsed(items, |toks|)
    decreases items
  {
    if items != [] {
      var first := RenderItem(items[0]);
      AtConcat(toks, i, first, RenderItems(items[1..]));
      ItemParses(items[0], toks, i);
      ItemsParse(items[1..], toks, i + |first|);
      ItemsStep(toks, i, items[0], i + |first|, items[1..]);
      assert [items[0]] + items[1..] == items;
    }
  }

  lemma ItemsStep(toks: seq<Token>, i: nat, item: Item, k: nat, rest: seq<Item>)
    requires i < |toks| && ItemAt(toks, i) == Parsed(item, k) && ItemsFrom(toks, k) == Parsed(rest, |toks|)
    ensures ItemsFrom(toks, i) == Parsed([item] + rest, |toks|)
  {
  }

  /**
   * `parseFile()` reads the rendering of any list of forms back to that list,
   * so the `File` it builds holds exactly their externs, definitions and
   * expressions, in order.
   */
  lemma FileRoundTrip(items: seq<Item>)
    ensures ItemsFrom(RenderItems(items), 0) == Parsed(items, |RenderItems(items)|)
  {
    AtSelf(RenderItems(items));
    ItemsParse(items, RenderItems(items), 0);
  }

  /** Example: `a-b-c` reads as `a-(b-c)`; operators associate to the right and have no precedence. */
  lemma RightAssociative()
    ensures ExprAt([Identifier("a"), Operator(Minus), Identifier("b"), Operator(Minus), Identifier("c")], 0)
      == Parsed(Binary(Variable("a"), Minus, Binary(Variable("b"), Minus, Variable("c"))), 5)
  {
    var e := Binary(Variable("a"), Minus, Binary(Variable("b"), Minus, Variable("c")));
    assert Render(e) == [Identifier("a"), Operator(Minus), Identifier("b"), Operator(Minus), Identifier("c")];
    ExprRoundTrip(e);
  }

  /** Call arguments written one after the other, without commas. */
  function RenderArgsSpaced(args: seq<Expr>): (r: seq<Token>)
  {
    if args == [] then [] else Render(args[0]) + RenderArgsSpaced(args[1..])
  }

  /** No argument after the first begins with `(`. */
  predicate NoLaterParen(args: seq<Expr>)
  {
    |args| <= 1 || (Render(args[1])[0] != LeftParen && NoLaterParen(args[1..]))
  }

  /**
   * The comma between arguments is optional: written without commas, the
   * arguments parse back to the same list, as long as no argument after the
   * first begins with `(` (which would make the name before it a call).
   */
  lemma {:induction false} SpacedArgsParse(args: seq<Expr>, toks: seq<Token>, j: nat)
    requires NoLaterParen(args)
    requires At(toks, j, RenderArgsSpaced(args) + [RightParen])
    ensures ArgItems(toks, j) == Parsed(args, j + |RenderArgsSpaced(args)| + 1)
    decreases args
  {
    if args == [] {
      assert RenderArgsSpaced(args) + [RightParen] == [RightParen];
      AtHead(toks, j, [RightParen]);
    } else {
      var first, rest := Render(args[0]), RenderArgsSpaced(args[1..]);
      var after := rest + [RightParen];
      assert RenderArgsSpaced(args) + [RightParen] == first + after;
      SpacedFollower(args);
      LeadingExprParses(args[0], after, toks, j);
      var k := j + |first|;
      AtHead(toks, k, after);
      SpacedArgsParse(args[1..], toks, k);
      ArgItemsStep(toks, j, args[0], k, args[1..], k + |rest| + 1);
      assert [args[0]] + args[1..] == args;
    }
  }

  /** What follows the first of the spaced arguments ends it and is no comma. */
  lemma SpacedFollower(args: seq<Expr>)
    requires |args| > 0 && NoLaterParen(args)
    ensures var after := RenderArgsSpaced(args[1..]) + [RightParen];
      EndsExpr(after[0]) && after[0] != Comma
  {
    if |args| > 1 {
      assert RenderArgsSpaced(args[1..]) == Render(args[1]) + RenderArgsSpaced(args[2..]);
    }
  }

  /**
   * `parseExpr()` throws `unexpectedEOF` when no token is left, and
   * `unexpectedToken` with the token found when that token cannot start a
   * primary expression.
   */
  lemma ExprErrors(toks: seq<Token>, i: nat)
    requires i <= |toks|
    ensures i == |toks| ==> ExprAt(toks, i) == Failed(UnexpectedEOF)
    ensures i < |toks| && !StartsPrimary(toks[i]) ==> ExprAt(toks, i) == Failed(UnexpectedToken(toks[i]))
  {
  }

  /** A successful `parseExpr()` never stops in front of an operator. */
  lemma {:induction false} ExprIsMaximal(toks: seq<Token>, i: nat)
    requires i <= |toks| && ExprAt(toks, i).Parsed?
    ensures var j := ExprAt(toks, i).next; j == |toks| || !toks[j].Operator?
    decreases |toks| - i
  {
    var primary := PrimaryAt(toks, i);
    if primary.next < |toks| && toks[primary.next].Operator? {
      ExprIsMaximal(toks, primary.next + 1);
    }
  }

  /**
   * After the condition of an `if`, a missing `then` throws: `unexpectedEOF`
   * at the end of the tokens, `unexpectedToken(.then)` otherwise.
   */
  lemma ThenIsRequired(toks: seq<Token>, i: nat)
    requires i < |toks| && toks[i] == If && ExprAt(toks, i + 1).Parsed?
    requires var j := ExprAt(toks, i + 1).next; j == |toks| || toks[j] != Then
    ensures ExprAt(toks, i) == Failed(if ExprAt(toks, i + 1).next == |toks| then UnexpectedEOF else UnexpectedToken(Then))
  {
    var cond := ExprAt(toks, i + 1);
    var err := if cond.next == |toks| then UnexpectedEOF else UnexpectedToken(Then);
    assert BranchesAt(toks, cond.value, cond.next) == Failed(err);
    assert ConditionalAt(toks, i) == Failed(err);
    assert PrimaryAt(toks, i) == Failed(err);
  }

  /**
   * After `if c then t`, a missing `else` throws: `unexpectedEOF` at the end
   * of the tokens, `unexpectedToken(.else)` otherwise.
   */
  lemma ElseIsRequired(toks: seq<Token>, j: nat, cond: Expr)
    requires j < |toks| && toks[j] == Then && ExprAt(toks, j + 1).Parsed?
    requires var k := ExprAt(toks, j + 1).next; k == |toks| || toks[k] != Else
    ensures BranchesAt(toks, cond, j) == Failed(if ExprAt(toks, j + 1).next == |toks| then UnexpectedEOF else UnexpectedToken(Else))
  {
  }

  /** An expression at the top level of a file must be followed by `;`. */
  lemma ExpressionNeedsSemicolon(toks: seq<Token>, i: nat)
    requires i < |toks| && toks[i] != Extern && toks[i] != Def && ExprAt(toks, i).Parsed?
    requires var j := ExprAt(toks, i).next; j == |toks| || toks[j] != Semicolon
    ensures ItemAt(toks, i) == Failed(if ExprAt(toks, i).next == |toks| then UnexpectedEOF else UnexpectedToken(Semicolon))
  {
  }
}
