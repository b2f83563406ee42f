/**
 * Lexer of the extended front end (Part3/Sources/Kaleidoscope/Lexer.swift):
 * it knows `=` and the keywords `if`, `then`, `else`, and reads a number
 * or identifier as one maximal run of alphanumerics, `_` and `.`.
 *
 * The input is a sequence of characters; `Double(str) != nil` is the
 * lexer's `parsesAsDouble` predicate, supplied from outside, and a number
 * token carries its lexeme instead of a floating-point value.
 */
module ExtLexer {
  import opened Wrappers
  import opened Chars

  datatype BinaryOperator = Plus | Minus | Times | Divide | Mod | Equals

  /** The raw character of each operator. */
  function OperatorChar(op: BinaryOperator): (r: char)
  {
    match op
    case Plus => '+'
    case Minus => '-'
    case Times => '*'
    case Divide => '/'
    case Mod => '%'
    case Equals => '='
  }

  datatype Token =
    | LeftParen | RightParen | Def | Extern | Comma | Semicolon | If | Then | Else
    | Identifier(name: string)
    | Number(lexeme: string)
    | Operator(op: BinaryOperator)

  /** `Token.==` as written: a case-by-case comparison of tags and payloads. */
  predicate TokenEquals(lhs: Token, rhs: Token)
  {
    match (lhs, rhs)
    case (LeftParen, LeftParen) => true
    case (RightParen, RightParen) => true
    case (Def, Def) => true
    case (Extern, Extern) => true
    case (Comma, Comma) => true
    case (Semicolon, Semicolon) => true
    case (If, If) => true
    case (Then, Then) => true
    case (Else, Else) => true
    case (Identifier(id1), Identifier(id2)) => id1 == id2
    case (Number(n1), Number(n2)) => n1 == n2
    case (Operator(op1), Operator(op2)) => op1 == op2
    case _ => false
  }

  /** Token equality is structural: the hand-written `==` is Dafny's equality of values. */
  lemma TokenEqualsIsStructural(lhs: Token, rhs: Token)
    ensures TokenEquals(lhs, rhs) <==> lhs == rhs
  {
  }

  /** The `singleTokMapping` dictionary. */
  function SingleCharToken(c: char): (r: Option<Token>)
    ensures r.Some? <==> c in ",();+-*/%="
    ensures forall op :: OperatorChar(op) == c ==> r == Some(Operator(op))
    ensures r.Some? && r.value.Operator? ==> OperatorChar(r.value.op) == c
  {
    match c
    case ',' => Some(Comma)
    case '(' => Some(LeftParen)
    case ')' => Some(RightParen)
    case ';' => Some(Semicolon)
    case '+' => Some(Operator(Plus))
    case '-' => Some(Operator(Minus))
    case '*' => Some(Operator(Times))
    case '/' => Some(Operator(Divide))
    case '%' => Some(Operator(Mod))
    case '=' => Some(Operator(Equals))
    case _ => None
  }

  /** The characters `readIdentifierOrNumber` accepts. */
  predicate IsLexemeChar(c: char)
  {
    IsAlphanumeric(c) || c == '.'
  }

  /** Where the run of spaces starting at `i` ends. */
  function SkipSpaces(input: string, i: nat): (j: nat)
    requires i <= |input|
    ensures i <= j <= |input|
    ensures forall k :: i <= k < j ==> IsSpace(input[k])
    ensures j == |input| || !IsSpace(input[j])
    decreases |input| - i
  {
    if i < |input| && IsSpace(input[i]) then SkipSpaces(input, i + 1) else i
  }

  /** Where the maximal run of lexeme characters starting at `i` ends. */
  function LexemeEnd(input: string, i: nat): (j: nat)
    requires i <= |input|
    ensures i <= j <= |input|
    ensures forall k :: i <= k < j ==> IsLexemeChar(input[k])
    ensures j == |input| || !IsLexemeChar(input[j])
    decreases |input| - i
  {
    if i < |input| && IsLexemeChar(input[i]) then LexemeEnd(input, i + 1) else i
  }

  /**
   * The token a lexeme becomes: a number when it parses as a double (tested
   * before the keywords), else a keyword, else an identifier with exactly
   * the lexeme's text.
   */
  function Classify(str: string, parsesAsDouble: string -> bool): (t: Token)
    ensures t.Number? <==> parsesAsDouble(str)
    ensures t.Number? ==> t.lexeme == str
    ensures !parsesAsDouble(str) ==>
      (t == Def <==> str == "def") && (t == Extern <==> str == "extern") &&
      (t == If <==> str == "if") && (t == Then <==> str == "then") && (t == Else <==> str == "else")
    ensures t.Identifier? <==> !parsesAsDouble(str) && str !in {"def", "extern", "if", "then", "else"}
    ensures t.Identifier? ==> t.name == str
  {
    if parsesAsDouble(str) then Number(str)
    else
      match str
      case "def" => Def
      case "extern" => Extern
      case "if" => If
      case "then" => Then
      case "else" => Else
      case _ => Identifier(str)
  }

  /**
   * `advanceToNextToken` from index `i`: the token produced (None at the end
   * of the input or at a character that starts no token) and the new index.
   */
  function NextToken(input: string, i: nat, parsesAsDouble: string -> bool): (r: (Option<Token>, nat))
    requires i <= |input|
    ensures i <= r.1 <= |input|
    ensures r.0.Some? ==> i < r.1
  {
    var j := SkipSpaces(input, i);
    if j == |input| then (None, j)
    else
      var c := input[j];
      match SingleCharToken(c)
      case Some(t) => (Some(t), j + 1)
      case None =>
        if IsAlphanumeric(c) then
          var k := LexemeEnd(input, j);
          (Some(Classify(input[j..k], parsesAsDouble)), k)
        else (None, j)
  }

  /** `lex` from index `i`: the tokens produced until `advanceToNextToken` returns nil. */
  function LexFrom(input: string, i: nat, parsesAsDouble: string -> bool): (r: seq<Token>)
    requires i <= |input|
    decreases |input| - i
  {
    match NextToken(input, i, parsesAsDouble)
    case (None, _) => []
    case (Some(t), j) => [t] + LexFrom(input, j, parsesAsDouble)
  }

  class Lexer {
    const input: string
    /** Swift's `Double(str) != nil`. */
    const parsesAsDouble: string -> bool
    var index: nat

    ghost predicate Valid()
      reads this
    {
      index <= |input|
    }

    constructor (input: string, parsesAsDouble: string -> bool)
      ensures Valid() && this.input == input && this.parsesAsDouble == parsesAsDouble && index == 0
    {
      this.input := input;
      this.parsesAsDouble := parsesAsDouble;
      index := 0;
    }

    method AdvanceIndex()
      requires index < |input|
      modifies this
      ensures index == old(index) + 1
    {
      index := index + 1;
    }

    method ReadIdentifierOrNumber() returns (str: string)
      requires Valid()
      modifies this
      ensures Valid()
      ensures index == LexemeEnd(input, old(index))
      ensures str == input[old(index)..index]
    {
      str := "";
      while index < |input| && IsLexemeChar(input[index])
        invariant old(index) <= index <= |input|
        invariant str == input[old(index)..index]
        invariant LexemeEnd(input, index) == LexemeEnd(input, old(index))
        decreases |input| - index
      {
        assert input[old(index)..index + 1] == input[old(index)..index] + [input[index]];
        str := str + [input[index]];
        AdvanceIndex();
      }
    }

    method AdvanceToNextToken() returns (tok: Option<Token>)
      requires Valid()
      modifies this
      ensures Valid()
      ensures (tok, index) == NextToken(input, old(index), parsesAsDouble)
    {
      while index < |input| && IsSpace(input[index])
        invariant old(index) <= index <= |input|
        invariant SkipSpaces(input, index) == SkipSpaces(input, old(index))
        decreases |input| - index
      {
        AdvanceIndex();
      }
      if index == |input| {
        return None;
      }
      var c := input[index];
      var single := SingleCharToken(c);
      if single.Some? {
        AdvanceIndex();
        return single;
      }
      if IsAlphanumeric(c) {
        var str := ReadIdentifierOrNumber();
        return Some(Classify(str, parsesAsDouble));
      }
      return None;
    }

    method Lex() returns (toks: seq<Token>)
      requires Valid()
      modifies this
      ensures Valid()
      ensures toks == LexFrom(input, old(index), parsesAsDouble)
    {
      toks := [];
      while true
        invariant Valid()
        invariant toks + LexFrom(input, index, parsesAsDouble) == LexFrom(input, old(index), parsesAsDouble)
        decreases |input| - index
      {
        var tok := AdvanceToNextToken();
        if tok.None? {
          return;
        }
        toks := toks + [tok.value];
      }
    }
  }

  // ---------------------------------------------------------------------
  // Properties of the token stream

  /**
   * Every token starts after the spaces that follow the index, at a
   * non-space character, and its text holds no space.
   */
  lemma TokenFollowsSpaces(input: string, i: nat, parsesAsDouble: string -> bool)
    requires i <= |input|
    requires NextToken(input, i, parsesAsDouble).0.Some?
    ensures SkipSpaces(input, i) < NextToken(input, i, parsesAsDouble).1
    ensures forall k :: i <= k < SkipSpaces(input, i) ==> IsSpace(input[k])
    ensures forall k :: SkipSpaces(input, i) <= k < NextToken(input, i, parsesAsDouble).1 ==> !IsSpace(input[k])
  {
  }

  /** A character of `singleTokMapping` yields its token and advances past exactly that character. */
  lemma SingleCharAdvancesByOne(input: string, i: nat, parsesAsDouble: string -> bool)
    requires i <= |input|
    requires SkipSpaces(input, i) < |input| && SingleCharToken(input[SkipSpaces(input, i)]).Some?
    ensures NextToken(input, i, parsesAsDouble) == (SingleCharToken(input[SkipSpaces(input, i)]), SkipSpaces(input, i) + 1)
  {
  }

  /**
   * An alphanumeric start reads the maximal run of alphanumerics, `_` and
   * `.`; the token is classified from exactly that text.
   */
  lemma LexemeIsMaximalRun(input: string, i: nat, parsesAsDouble: string -> bool)
    requires i <= |input|
    requires SkipSpaces(input, i) < |input| && IsAlphanumeric(input[SkipSpaces(input, i)])
    ensures var j, k := SkipSpaces(input, i), NextToken(input, i, parsesAsDouble).1;
      && NextToken(input, i, parsesAsDouble).0 == Some(Classify(input[j..k], parsesAsDouble))
      && (forall m :: j <= m < k ==> IsLexemeChar(input[m]))
      && (k == |input| || !IsLexemeChar(input[k]))
  {
  }

  /** Example: `a.b` is one identifier lexeme (when it does not parse as a double). */
  lemma DottedNameIsOneIdentifier(parsesAsDouble: string -> bool)
    requires !parsesAsDouble("a.b")
    ensures LexFrom("a.b", 0, parsesAsDouble) == [Identifier("a.b")]
  {
    var s := "a.b";
    assert LexemeEnd(s, 3) == 3;
    assert LexemeEnd(s, 2) == 3;
    assert LexemeEnd(s, 1) == 3;
    assert LexemeEnd(s, 0) == 3;
    assert s[0..3] == "a.b";
    assert NextToken(s, 0, parsesAsDouble) == (Some(Identifier("a.b")), 3);
    assert NextToken(s, 3, parsesAsDouble) == (None, 3);
  }

  /** A `.` where a token should start ends the token stream. */
  lemma LeadingDotEndsLexing(input: string, i: nat, parsesAsDouble: string -> bool)
    requires i <= |input|
    requires SkipSpaces(input, i) < |input| && input[SkipSpaces(input, i)] == '.'
    ensures LexFrom(input, i, parsesAsDouble) == []
  {
  }

  /** A character that is neither a space, a token character nor a lexeme character. */
  predicate IsUnknownChar(c: char)
  {
    !IsSpace(c) && SingleCharToken(c).None? && !IsLexemeChar(c)
  }

  lemma {:induction false} SkipSpacesIgnoresSuffix(s: string, u: string, i: nat)
    requires i <= |s| && u != [] && !IsSpace(u[0])
    ensures SkipSpaces(s + u, i) == SkipSpaces(s, i)
    decreases |s| - i
  {
    if i < |s| && IsSpace(s[i]) {
      SkipSpacesIgnoresSuffix(s, u, i + 1);
    }
  }

  lemma {:induction false} LexemeEndIgnoresSuffix(s: string, u: string, i: nat)
    requires i <= |s| && u != [] && !IsLexemeChar(u[0])
    ensures LexemeEnd(s + u, i) == LexemeEnd(s, i)
    decreases |s| - i
  {
    if i < |s| && IsLexemeChar(s[i]) {
      LexemeEndIgnoresSuffix(s, u, i + 1);
    }
  }

  lemma NextTokenIgnoresSuffix(s: string, u: string, i: nat, parsesAsDouble: string -> bool)
    requires i <= |s| && u != [] && IsUnknownChar(u[0])
    ensures NextToken(s + u, i, parsesAsDouble) == NextToken(s, i, parsesAsDouble)
  {
    SkipSpacesIgnoresSuffix(s, u, i);
    var j := SkipSpaces(s, i);
    if j < |s| && SingleCharToken(s[j]).None? && IsAlphanumeric(s[j]) {
      LexemeEndIgnoresSuffix(s, u, j);
      var k := LexemeEnd(s, j);
      assert (s + u)[j..k] == s[j..k];
    }
  }

  /**
   * An unknown character (such as `#`) silently truncates the input: what
   * follows it is never lexed, and no error is reported.
   */
  lemma {:induction false} UnknownCharDropsRest(s: string, c: char, t: string, i: nat, parsesAsDouble: string -> bool)
    requires i <= |s| && IsUnknownChar(c)
    ensures LexFrom(s + [c] + t, i, parsesAsDouble) == LexFrom(s, i, parsesAsDouble)
    decreases |s| - i
  {
    assert s + [c] + t == s + ([c] + t);
    NextTokenIgnoresSuffix(s, [c] + t, i, parsesAsDouble);
    var (tok, j) := NextToken(s, i, parsesAsDouble);
    if tok.Some? {
      UnknownCharDropsRest(s, c, t, j, parsesAsDouble);
    }
  }
}
