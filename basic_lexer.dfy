/**
 * Lexer of the basic front end (Part4/Sources/Kaleidoscope/Lexer.swift):
 * no `=` operator, only `def` and `extern` as keywords, identifiers made of
 * alphanumerics and `_`, and numbers read as an integer run optionally
 * followed by `.` and a fraction run.
 *
 * The input is the sequence of the text's scalars. A number token carries
 * its lexeme; `Double(str)` on a lexeme with a `.` is the lexer's
 * `parsesAsDouble` predicate, supplied from outside, and when it fails the
 * source's force unwrap traps, which is the `Crash` outcome here.
 */
module BasicLexer {
  import opened Wrappers
  import opened Chars

  datatype BinaryOperator = Plus | Minus | Times | Divide | Mod

  /** The raw scalar of each operator. */
  function OperatorChar(op: BinaryOperator): (r: char)
  {
    match op
    case Plus => '+'
    case Minus => '-'
    case Times => '*'
    case Divide => '/'
    case Mod => '%'
  }

  datatype Token =
    | LeftParen | RightParen | Def | Extern | Comma | Semicolon
    | Identifier(name: string)
    | Number(lexeme: string)
    | Operator(op: BinaryOperator)

  /** `Token.==` as written: a case-by-case comparison of tags and payloads. */
  predicate TokenEquals(lhs: Token, rhs: Token)
  {
    match (lhs, rhs)
    case (LeftParen, LeftParen) => true
    case (RightParen, RightParen) => true
    case (Def, Def) => true
    case (Extern, Extern) => true
    case (Comma, Comma) => true
    case (Semicolon, Semicolon) => true
    case (Identifier(id1), Identifier(id2)) => id1 == id2
    case (Number(n1), Number(n2)) => n1 == n2
    case (Operator(op1), Operator(op2)) => op1 == op2
    case _ => false
  }

  /** Token equality is structural: the hand-written `==` is Dafny's equality of values. */
  lemma TokenEqualsIsStructural(lhs: Token, rhs: Token)
    ensures TokenEquals(lhs, rhs) <==> lhs == rhs
  {
  }

  /** The `singleTokMapping` dictionary: `=` is not in it. */
  function SingleCharToken(c: char): (r: Option<Token>)
    ensures r.Some? <==> c in ",();+-*/%"
    ensures forall op :: OperatorChar(op) == c ==> r == Some(Operator(op))
    ensures r.Some? && r.value.Operator? ==> OperatorChar(r.value.op) == c
  {
    match c
    case ',' => Some(Comma)
    case '(' => Some(LeftParen)
    case ')' => Some(RightParen)
    case ';' => Some(Semicolon)
    case '+' => Some(Operator(Plus))
    case '-' => Some(Operator(Minus))
    case '*' => Some(Operator(Times))
    case '/' => Some(Operator(Divide))
    case '%' => Some(Operator(Mod))
    case _ => None
  }

  /** Where the run of spaces starting at `i` ends. */
  function SkipSpaces(input: seq<char>, i: nat): (j: nat)
    requires i <= |input|
    ensures i <= j <= |input|
    ensures forall k :: i <= k < j ==> IsSpace(input[k])
    ensures j == |input| || !IsSpace(input[j])
    decreases |input| - i
  {
    if i < |input| && IsSpace(input[i]) then SkipSpaces(input, i + 1) else i
  }

  /** Where the maximal run of alphanumerics (`readIdentifier`) starting at `i` ends. */
  function IdentifierEnd(input: seq<char>, i: nat): (j: nat)
    requires i <= |input|
    ensures i <= j <= |input|
    ensures forall k :: i <= k < j ==> IsAlphanumeric(input[k])
    ensures j == |input| || !IsAlphanumeric(input[j])
    decreases |input| - i
  {
    if i < |input| && IsAlphanumeric(input[i]) then IdentifierEnd(input, i + 1) else i
  }

  /** `Int.max` on the 64-bit platforms the source targets. */
  const IntMax: nat := 0x7FFF_FFFF_FFFF_FFFF

  predicate AllDigits(s: string)
  {
    forall k :: 0 <= k < |s| ==> IsDigit(s[k])
  }

  /** The value of a run of decimal digits. */
  function DigitsValue(s: string): (r: nat)
    requires AllDigits(s)
  {
    if s == [] then 0 else 10 * DigitsValue(s[..|s| - 1]) + (s[|s| - 1] - '0') as nat
  }

  /**
   * `Int(str) != nil` for a run of alphanumerics: the run is all digits
   * (a sign cannot occur in it) and its value fits in `Int`.
   */
  predicate IsIntLiteral(s: string)
  {
    |s| > 0 && AllDigits(s) && DigitsValue(s) <= IntMax
  }

  /** The keyword table: only `def` and `extern`. */
  function Keyword(str: string): (t: Token)
    ensures t == Def <==> str == "def"
    ensures t == Extern <==> str == "extern"
    ensures t.Identifier? <==> str != "def" && str != "extern"
    ensures t.Identifier? ==> t.name == str
  {
    match str
    case "def" => Def
    case "extern" => Extern
    case _ => Identifier(str)
  }

  /**
   * `Double(str) != nil`: an integer literal always converts; any other
   * lexeme is decided by the supplied predicate.
   */
  predicate DoubleParses(str: string, parsesAsDouble: string -> bool)
  {
    IsIntLiteral(str) || parsesAsDouble(str)
  }

  /** What one call of `advanceToNextToken` does. */
  datatype LexStep = Yield(token: Token) | Stop | Crash

  /**
   * `advanceToNextToken` as written, from index `i`: the step and the new
   * index.
   */
  function NextToken(input: seq<char>, i: nat, parsesAsDouble: string -> bool): (r: (LexStep, nat))
    requires i <= |input|
    ensures i <= r.1 <= |input|
    ensures r.0.Yield? ==> i < r.1
  {
    var j := SkipSpaces(input, i);
    if j == |input| then (Stop, j)
    else
      match SingleCharToken(input[j])
      case Some(t) => (Yield(t), j + 1)
      case None =>
        if IsAlphanumeric(input[j]) then RunStep(input, j, parsesAsDouble) else (Stop, j)
  }

  /**
   * The alphanumeric branch of `advanceToNextToken`, from the run's start
   * `j`. After an integer run, a `.` and the following alphanumeric run
   * are always taken into the lexeme: line 107 tests `str` again, which is
   * known to be an integer there, so the backtrack on line 111 never runs.
   */
  function RunStep(input: seq<char>, j: nat, parsesAsDouble: string -> bool): (r: (LexStep, nat))
    requires j < |input| && IsAlphanumeric(input[j])
    ensures j < r.1 <= |input|
  {
    var k := IdentifierEnd(input, j);
    var str := input[j..k];
    if !IsIntLiteral(str) then (Yield(Keyword(str)), k)
    else if k < |input| && input[k] == '.' then
      var m := IdentifierEnd(input, k + 1);
      var decimalStr := input[k + 1..m];
      if IsIntLiteral(str) then NumberStep(str + "." + decimalStr, m, parsesAsDouble)
      else NumberStep(str, k, parsesAsDouble)
    else NumberStep(str, k, parsesAsDouble)
  }

  /** `return .number(Double(str)!)` with the index at `next`. */
  function NumberStep(lexeme: string, next: nat, parsesAsDouble: string -> bool): (r: (LexStep, nat))
    ensures r.1 == next
    ensures r.0 == Yield(Number(lexeme)) <==> DoubleParses(lexeme, parsesAsDouble)
    ensures r.0 == Crash <==> !DoubleParses(lexeme, parsesAsDouble)
  {
    if DoubleParses(lexeme, parsesAsDouble) then (Yield(Number(lexeme)), next) else (Crash, next)
  }

  /** The result of `lex`: the tokens, or a trap in `Double(str)!`. */
  datatype LexOutcome = Lexed(tokens: seq<Token>) | Crashed

  /** `lex` from index `i`. */
  function LexFrom(input: seq<char>, i: nat, parsesAsDouble: string -> bool): (r: LexOutcome)
    requires i <= |input|
    decreases |input| - i
  {
    match NextToken(input, i, parsesAsDouble)
    case (Stop, _) => Lexed([])
    case (Crash, _) => Crashed
    case (Yield(t), j) =>
      match LexFrom(input, j, parsesAsDouble)
      case Crashed => Crashed
      case Lexed(ts) => Lexed([t] + ts)
  }

  class Lexer {
    const input: seq<char>
    /** Swift's `Double(str) != nil`, consulted by the force unwrap on line 114. */
    const parsesAsDouble: string -> bool
    var index: nat

    ghost predicate Valid()
      reads this
    {
      index <= |input|
    }

    constructor (input: seq<char>, parsesAsDouble: string -> bool)
      ensures Valid() && this.input == input && this.parsesAsDouble == parsesAsDouble && index == 0
    {
      this.input := input;
      this.parsesAsDouble := parsesAsDouble;
      index := 0;
    }

    method AdvanceIndex()
      requires index < |input|
      modifies this
      ensures index == old(index) + 1
    {
      index := index + 1;
    }

    method ReadIdentifier() returns (str: string)
      requires Valid()
      modifies this
      ensures Valid()
      ensures index == IdentifierEnd(input, old(index))
      ensures str == input[old(index)..index]
    {
      str := "";
      while index < |input| && IsAlphanumeric(input[index])
        invariant old(index) <= index <= |input|
        invariant str == input[old(index)..index]
        invariant IdentifierEnd(input, index) == IdentifierEnd(input, old(index))
        decreases |input| - index
      {
        str := str + [input[index]];
        AdvanceIndex();
      }
    }

    /** The alphanumeric branch of `advanceToNextToken`, from the start of the run. */
    method ReadRun() returns (step: LexStep)
      requires Valid() && index < |input| && IsAlphanumeric(input[index])
      modifies this
      ensures Valid()
      ensures (step, index) == RunStep(input, old(index), parsesAsDouble)
    {
      ghost var j := index;
      var str := ReadIdentifier();
      if IsIntLiteral(str) {
        var backtrackIndex := index;
        if index < |input| && input[index] == '.' {
          AdvanceIndex();
          var decimalStr := ReadIdentifier();
          if IsIntLiteral(str) {
            str := str + "." + decimalStr;
          } else {
            // The backtrack `index = backtrackIndex` of line 111: `str`
            // was already found to be an integer, so this branch is dead.
            assert false;
          }
          assert RunStep(input, j, parsesAsDouble) == NumberStep(str, index, parsesAsDouble) by {
            DecimalRunAsWritten(input, j, parsesAsDouble);
          }
        } else {
          assert RunStep(input, j, parsesAsDouble) == NumberStep(str, index, parsesAsDouble);
        }
        NumberStepCases(str, index, parsesAsDouble);
        if !DoubleParses(str, parsesAsDouble) {
          return Crash;
        }
        return Yield(Number(str));
      }
      return Yield(Keyword(str));
    }

    method AdvanceToNextToken() returns (step: LexStep)
      requires Valid()
      modifies this
      ensures Valid()
      ensures (step, index) == NextToken(input, old(index), parsesAsDouble)
    {
      while index < |input| && IsSpace(input[index])
        invariant old(index) <= index <= |input|
        invariant SkipSpaces(input, index) == SkipSpaces(input, old(index))
        decreases |input| - index
      {
        AdvanceIndex();
      }
      if index == |input| {
        return Stop;
      }
      var c := input[index];
      var single := SingleCharToken(c);
      if single.Some? {
        AdvanceIndex();
        return Yield(single.value);
      }
      if IsAlphanumeric(c) {
        NextTokenOnRun(input, old(index), parsesAsDouble);
        step := ReadRun();
        return;
      }
      return Stop;
    }

    method Lex() returns (r: LexOutcome)
      requires Valid()
      modifies this
      ensures Valid()
      ensures r == LexFrom(input, old(index), parsesAsDouble)
    {
      var toks := [];
      while true
        invariant Valid()
        invariant LexFrom(input, old(index), parsesAsDouble) ==
          match LexFrom(input, index, parsesAsDouble)
          case Crashed => Crashed
          case Lexed(ts) => Lexed(toks + ts)
        decreases |input| - index
      {
        ghost var i := index;
        var step := AdvanceToNextToken();
        match step
        case Stop => return Lexed(toks);
        case Crash => return Crashed;
        case Yield(t) =>
          ghost var rest := LexFrom(input, index, parsesAsDouble);
          assert LexFrom(input, i, parsesAsDouble) == if rest.Crashed? then Crashed else Lexed([t] + rest.tokens);
          if rest.Lexed? {
            assert toks + ([t] + rest.tokens) == toks + [t] + rest.tokens;
          }
          toks := toks + [t];
      }
    }
  }

  // ---------------------------------------------------------------------
  // Properties of the token stream

  /** Every token starts at a non-space character reached by skipping only spaces. */
  lemma TokenFollowsSpaces(input: seq<char>, i: nat, parsesAsDouble: string -> bool)
    requires i <= |input|
    requires NextToken(input, i, parsesAsDouble).0.Yield?
    ensures SkipSpaces(input, i) < NextToken(input, i, parsesAsDouble).1
    ensures !IsSpace(input[SkipSpaces(input, i)])
    ensures forall k :: i <= k < SkipSpaces(input, i) ==> IsSpace(input[k])
  {
  }

  /** An identifier holds only alphanumerics and `_`: never a `.`. */
  lemma IdentifierHasNoDot(input: seq<char>, i: nat, parsesAsDouble: string -> bool)
    requires i <= |input|
    requires NextToken(input, i, parsesAsDouble).0.Yield? && NextToken(input, i, parsesAsDouble).0.token.Identifier?
    ensures var name := NextToken(input, i, parsesAsDouble).0.token.name;
      name == input[SkipSpaces(input, i)..NextToken(input, i, parsesAsDouble).1] &&
      |name| > 0 && (forall k :: 0 <= k < |name| ==> IsAlphanumeric(name[k])) && '.' !in name
  {
    var j := SkipSpaces(input, i);
    var k := IdentifierEnd(input, j);
    var name := input[j..k];
    assert forall m :: 0 <= m < |name| ==> name[m] == input[j + m];
  }

  /**
   * A run of digits too large for `Int` is not an integer, so it becomes an
   * identifier; `if` is not a keyword here, so it is an identifier too.
   */
  lemma NonIntegerRunIsIdentifier(input: seq<char>, i: nat, parsesAsDouble: string -> bool)
    requires i <= |input|
    requires SkipSpaces(input, i) < |input| && IsAlphanumeric(input[SkipSpaces(input, i)])
    requires var j := SkipSpaces(input, i); var str := input[j..IdentifierEnd(input, j)];
      !IsIntLiteral(str) && str != "def" && str != "extern"
    ensures var j := SkipSpaces(input, i); var k := IdentifierEnd(input, j);
      NextToken(input, i, parsesAsDouble) == (Yield(Identifier(input[j..k])), k)
  {
  }

  /** Example: `if` lexes as an identifier. */
  lemma IfIsAnIdentifier(parsesAsDouble: string -> bool)
    ensures LexFrom("if", 0, parsesAsDouble) == Lexed([Identifier("if")])
  {
    var s := "if";
    assert IdentifierEnd(s, 2) == 2;
    assert IdentifierEnd(s, 0) == 2;
    assert s[0..2] == "if";
    assert !IsIntLiteral("if") by { assert !IsDigit(s[0]); }
    assert NextToken(s, 0, parsesAsDouble) == (Yield(Identifier("if")), 2);
  }

  /**
   * As written, an integer run followed by `.` always takes the `.` and the
   * next alphanumeric run into the lexeme: the index never goes back to the
   * `.`, and the token is a number exactly when `Double` accepts the whole
   * lexeme; otherwise the force unwrap traps.
   */
  lemma FractionIsAlwaysTaken(input: seq<char>, i: nat, parsesAsDouble: string -> bool)
    requires i <= |input|
    requires var j := SkipSpaces(input, i);
      j < |input| && IsAlphanumeric(input[j]) && IsIntLiteral(input[j..IdentifierEnd(input, j)])
    requires var k := IdentifierEnd(input, SkipSpaces(input, i)); k < |input| && input[k] == '.'
    ensures var j := SkipSpaces(input, i); var k := IdentifierEnd(input, j);
      var m := IdentifierEnd(input, k + 1); var lexeme := input[j..k] + "." + input[k + 1..m];
      NextToken(input, i, parsesAsDouble) ==
        if DoubleParses(lexeme, parsesAsDouble) then (Yield(Number(lexeme)), m) else (Crash, m)
  {
    var j := SkipSpaces(input, i);
    var k := IdentifierEnd(input, j);
    var m := IdentifierEnd(input, k + 1);
    var lexeme := input[j..k] + "." + input[k + 1..m];
    NextTokenOnRun(input, i, parsesAsDouble);
    DecimalRunAsWritten(input, j, parsesAsDouble);
    NumberStepCases(lexeme, m, parsesAsDouble);
  }

  /** `NumberStep` as a case split on whether `Double` accepts the lexeme. */
  lemma NumberStepCases(lexeme: string, next: nat, parsesAsDouble: string -> bool)
    ensures NumberStep(lexeme, next, parsesAsDouble) ==
      if DoubleParses(lexeme, parsesAsDouble) then (Yield(Number(lexeme)), next) else (Crash, next)
  {
  }

  /** When the next non-space character is alphanumeric, `advanceToNextToken` lexes a run from there. */
  lemma NextTokenOnRun(input: seq<char>, i: nat, parsesAsDouble: string -> bool)
    requires i <= |input|
    requires var j := SkipSpaces(input, i); j < |input| && IsAlphanumeric(input[j])
    ensures NextToken(input, i, parsesAsDouble) == RunStep(input, SkipSpaces(input, i), parsesAsDouble)
  {
    var j := SkipSpaces(input, i);
    assert input[j] !in ",();+-*/%";
  }

  /** A `.` followed by a non-number crashes the lexer: `1.x` traps, since `Double("1.x")` is nil. */
  lemma DotLetterCrashes(parsesAsDouble: string -> bool)
    requires !parsesAsDouble("1.x")
    ensures LexFrom("1.x", 0, parsesAsDouble) == Crashed
  {
    var s := "1.x";
    assert IdentifierEnd(s, 1) == 1;
    assert IdentifierEnd(s, 0) == 1;
    assert s[0..1] == "1" && AllDigits("1") && DigitsValue("1") == 1;
    assert IdentifierEnd(s, 3) == 3;
    assert IdentifierEnd(s, 2) == 3;
    assert s[2..3] == "x";
    assert "1" + "." + "x" == "1.x";
    assert !IsIntLiteral("1.x") by { assert !IsDigit(s[1]); }
    assert NextToken(s, 0, parsesAsDouble) == (Crash, 3);
  }

  /** A decimal literal: an integer, or an integer, a `.` and an integer. */
  predicate IsDecimalLiteral(s: string)
  {
    IsIntLiteral(s) ||
    exists k :: 0 < k < |s| - 1 && s[k] == '.' && IsIntLiteral(s[..k]) && IsIntLiteral(s[k + 1..])
  }

  /**
   * `advanceToNextToken` as evidently intended: line 107 tests the fraction
   * `decimalStr`, and when it is not an integer the index goes back to the
   * `.`, so the number is the integer run alone. It never traps, and every
   * number lexeme is a decimal literal, which `Double` always accepts.
   */
  function NextTokenIntended(input: seq<char>, i: nat): (r: (LexStep, nat))
    requires i <= |input|
    ensures i <= r.1 <= |input|
    ensures r.0.Yield? ==> i < r.1
    ensures r.0 != Crash
    ensures r.0.Yield? && r.0.token.Number? ==> IsDecimalLiteral(r.0.token.lexeme)
  {
    var j := SkipSpaces(input, i);
    if j == |input| then (Stop, j)
    else
      var c := input[j];
      match SingleCharToken(c)
      case Some(t) => (Yield(t), j + 1)
      case None =>
        if IsAlphanumeric(c) then RunStepIntended(input, j) else (Stop, j)
  }

  /** The alphanumeric branch of the intended `advanceToNextToken`. */
  function RunStepIntended(input: seq<char>, j: nat): (r: (LexStep, nat))
    requires j < |input| && IsAlphanumeric(input[j])
    ensures j < r.1 <= |input|
    ensures r.0.Yield?
    ensures r.0.token.Number? ==> IsDecimalLiteral(r.0.token.lexeme)
  {
    var k := IdentifierEnd(input, j);
    var str := input[j..k];
    if !IsIntLiteral(str) then (Yield(Keyword(str)), k)
    else if k < |input| && input[k] == '.' then
      var m := IdentifierEnd(input, k + 1);
      var decimalStr := input[k + 1..m];
      if IsIntLiteral(decimalStr) then
        var lexeme := str + "." + decimalStr;
        assert lexeme[..|str|] == str && lexeme[|str| + 1..] == decimalStr;
        (Yield(Number(lexeme)), m)
      else (Yield(Number(str)), k)
    else (Yield(Number(str)), k)
  }

  /** The intended lexer reads `1.x` as the number `1` and then stops at the `.`. */
  lemma DotLetterIntended()
    ensures NextTokenIntended("1.x", 0) == (Yield(Number("1")), 1)
    ensures NextTokenIntended("1.x", 1) == (Stop, 1)
  {
    var s := "1.x";
    assert IdentifierEnd(s, 1) == 1;
    assert IdentifierEnd(s, 0) == 1;
    assert s[0..1] == "1" && AllDigits("1") && DigitsValue("1") == 1;
    assert IdentifierEnd(s, 3) == 3;
    assert IdentifierEnd(s, 2) == 3;
    assert !IsIntLiteral(s[2..3]) by { assert s[2..3] == "x"; assert !IsDigit(s[2]); }
  }

  /**
   * Where the fraction after the `.` is an integer and `Double` accepts the
   * lexeme, the lexer as written and the intended one take the same step.
   */
  lemma IntendedAgreesOnDecimals(input: seq<char>, j: nat, parsesAsDouble: string -> bool)
    requires j < |input| && IsAlphanumeric(input[j])
    requires IsIntLiteral(input[j..IdentifierEnd(input, j)])
    requires IdentifierEnd(input, j) < |input| && input[IdentifierEnd(input, j)] == '.'
    requires var k := IdentifierEnd(input, j); IsIntLiteral(input[k + 1..IdentifierEnd(input, k + 1)])
    requires var k := IdentifierEnd(input, j);
      parsesAsDouble(input[j..k] + "." + input[k + 1..IdentifierEnd(input, k + 1)])
    ensures RunStepIntended(input, j) == RunStep(input, j, parsesAsDouble)
  {
    DecimalRunAsWritten(input, j, parsesAsDouble);
    DecimalRunIntended(input, j);
  }

  /** After an integer run and a `.`, the lexer as written reads the number up to the end of the next run. */
  lemma DecimalRunAsWritten(input: seq<char>, j: nat, parsesAsDouble: string -> bool)
    requires j < |input| && IsAlphanumeric(input[j])
    requires IsIntLiteral(input[j..IdentifierEnd(input, j)])
    requires IdentifierEnd(input, j) < |input| && input[IdentifierEnd(input, j)] == '.'
    ensures var k := IdentifierEnd(input, j); var m := IdentifierEnd(input, k + 1);
      RunStep(input, j, parsesAsDouble) == NumberStep(input[j..k] + "." + input[k + 1..m], m, parsesAsDouble)
  {
  }

  /** The intended lexer takes an integer run, a `.` and a second integer run as one number. */
  lemma DecimalRunIntended(input: seq<char>, j: nat)
    requires j < |input| && IsAlphanumeric(input[j])
    requires IsIntLiteral(input[j..IdentifierEnd(input, j)])
    requires IdentifierEnd(input, j) < |input| && input[IdentifierEnd(input, j)] == '.'
    requires var k := IdentifierEnd(input, j); IsIntLiteral(input[k + 1..IdentifierEnd(input, k + 1)])
    ensures var k := IdentifierEnd(input, j); var m := IdentifierEnd(input, k + 1);
      RunStepIntended(input, j) == (Yield(Number(input[j..k] + "." + input[k + 1..m])), m)
  {
  }

  /** A character that starts no token and cannot continue a number. */
  predicate IsUnknownChar(c: char)
  {
    !IsSpace(c) && SingleCharToken(c).None? && !IsAlphanumeric(c) && c != '.'
  }

  lemma {:induction false} SkipSpacesIgnoresSuffix(s: seq<char>, u: seq<char>, i: nat)
    requires i <= |s| && u != [] && !IsSpace(u[0])
    ensures SkipSpaces(s + u, i) == SkipSpaces(s, i)
    decreases |s| - i
  {
    if i < |s| && IsSpace(s[i]) {
      SkipSpacesIgnoresSuffix(s, u, i + 1);
    }
  }

  lemma {:induction false} IdentifierEndIgnoresSuffix(s: seq<char>, u: seq<char>, i: nat)
    requires i <= |s| && u != [] && !IsAlphanumeric(u[0])
    ensures IdentifierEnd(s + u, i) == IdentifierEnd(s, i)
    decreases |s| - i
  {
    if i < |s| && IsAlphanumeric(s[i]) {
      IdentifierEndIgnoresSuffix(s, u, i + 1);
    }
  }

  /** `RunStep` reads only the run at `j`, the character after it and, after a `.`, the next run. */
  lemma RunStepReadsRuns(a: seq<char>, b: seq<char>, j: nat, parsesAsDouble: string -> bool)
    requires j < |a| && j < |b| && IsAlphanumeric(a[j]) && IsAlphanumeric(b[j])
    requires IdentifierEnd(a, j) == IdentifierEnd(b, j)
    requires var k := IdentifierEnd(a, j);
      && a[j..k] == b[j..k]
      && (k < |a| && a[k] == '.' <==> k < |b| && b[k] == '.')
      && (k < |a| && a[k] == '.' ==>
            IdentifierEnd(a, k + 1) == IdentifierEnd(b, k + 1) && a[k + 1..IdentifierEnd(a, k + 1)] == b[k + 1..IdentifierEnd(b, k + 1)])
    ensures RunStep(a, j, parsesAsDouble) == RunStep(b, j, parsesAsDouble)
  {
    var k := IdentifierEnd(a, j);
    var str := a[j..k];
    if IsIntLiteral(str) && k < |a| && a[k] == '.' {
      var m := IdentifierEnd(a, k + 1);
      assert str + "." + a[k + 1..m] == b[j..k] + "." + b[k + 1..m];
    }
  }

  lemma RunStepIgnoresSuffix(s: seq<char>, u: seq<char>, j: nat, parsesAsDouble: string -> bool)
    requires j < |s| && IsAlphanumeric(s[j]) && u != [] && IsUnknownChar(u[0])
    ensures RunStep(s + u, j, parsesAsDouble) == RunStep(s, j, parsesAsDouble)
  {
    var t := s + u;
    var k := IdentifierEnd(s, j);
    IdentifierEndIgnoresSuffix(s, u, j);
    assert t[k] == u[0] || (k < |s| && t[k] == s[k]);
    assert t[j..k] == s[j..k];
    if k < |s| && s[k] == '.' {
      IdentifierEndIgnoresSuffix(s, u, k + 1);
      var m := IdentifierEnd(s, k + 1);
      assert t[k + 1..m] == s[k + 1..m];
    }
    RunStepReadsRuns(t, s, j, parsesAsDouble);
  }

  lemma NextTokenIgnoresSuffix(s: seq<char>, u: seq<char>, i: nat, parsesAsDouble: string -> bool)
    requires i <= |s| && u != [] && IsUnknownChar(u[0])
    ensures NextToken(s + u, i, parsesAsDouble) == NextToken(s, i, parsesAsDouble)
  {
    SkipSpacesIgnoresSuffix(s, u, i);
    var j := SkipSpaces(s, i);
    if j < |s| && SingleCharToken(s[j]).None? && IsAlphanumeric(s[j]) {
      RunStepIgnoresSuffix(s, u, j, parsesAsDouble);
    }
  }

  /**
   * An unknown character (`=` or `#`, say) silently truncates the input:
   * what follows it is never lexed, and no error is reported.
   */
  lemma {:induction false} UnknownCharDropsRest(s: seq<char>, c: char, t: seq<char>, i: nat, parsesAsDouble: string -> bool)
    requires i <= |s| && IsUnknownChar(c)
    ensures LexFrom(s + [c] + t, i, parsesAsDouble) == LexFrom(s, i, parsesAsDouble)
    decreases |s| - i
  {
    assert s + [c] + t == s + ([c] + t);
    NextTokenIgnoresSuffix(s, [c] + t, i, parsesAsDouble);
    var (step, j) := NextToken(s, i, parsesAsDouble);
    if step.Yield? {
      UnknownCharDropsRest(s, c, t, j, parsesAsDouble);
    }
  }

  /** `=` is not a token of this lexer: it ends the token stream. */
  lemma EqualsSignEndsLexing(s: seq<char>, t: seq<char>, parsesAsDouble: string -> bool)
    ensures LexFrom(s + ['='] + t, 0, parsesAsDouble) == LexFrom(s, 0, parsesAsDouble)
  {
    UnknownCharDropsRest(s, '=', t, 0, parsesAsDouble);
  }
}
