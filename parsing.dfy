/**
 * The outcome of a parse step, shared by both recursive-descent parsers
 * (each source parser declares the same `ParseError` enum over its own
 * token type).
 */
module Parsing {
  /** `enum ParseError`: a token other than the one required, or no token left. */
  datatype ParseError<Tok> = UnexpectedToken(token: Tok) | UnexpectedEOF

  /** The value read and the index just past it, or the error thrown. */
  datatype Parsed<Tok, +T> = Parsed(value: T, next: nat) | Failed(error: ParseError<Tok>)

  /** The result of continuing a list after `xs` were already read. */
  function Prepend<Tok, T>(xs: seq<T>, r: Parsed<Tok, seq<T>>): (result: Parsed<Tok, seq<T>>)
  {
    match r
    case Parsed(ys, next) => Parsed(xs + ys, next)
    case Failed(e) => Failed(e)
  }

  lemma PrependNil<Tok, T>(r: Parsed<Tok, seq<T>>)
    ensures Prepend([], r) == r
  {
    if r.Parsed? {
      assert [] + r.value == r.value;
    }
  }

  lemma PrependPrepend<Tok, T>(xs: seq<T>, ys: seq<T>, r: Parsed<Tok, seq<T>>)
    ensures Prepend(xs, Prepend(ys, r)) == Prepend(xs + ys, r)
  {
    if r.Parsed? {
      assert xs + (ys + r.value) == (xs + ys) + r.value;
    }
  }

  /** `s` occurs in `toks` at index `i`. */
  ghost predicate At<T>(toks: seq<T>, i: nat, s: seq<T>)
  {
    i + |s| <= |toks| && forall k :: 0 <= k < |s| ==> toks[i + k] == s[k]
  }

  lemma AtConcat<T>(toks: seq<T>, i: nat, a: seq<T>, b: seq<T>)
    requires At(toks, i, a + b)
    ensures At(toks, i, a) && At(toks, i + |a|, b)
  {
    forall k | 0 <= k < |a|
      ensures toks[i + k] == a[k]
    {
      assert (a + b)[k] == a[k];
    }
    forall k | 0 <= k < |b|
      ensures toks[i + |a| + k] == b[k]
    {
      assert (a + b)[|a| + k] == b[k];
    }
  }

  lemma AtHead<T>(toks: seq<T>, i: nat, s: seq<T>)
    requires At(toks, i, s) && |s| > 0
    ensures toks[i] == s[0]
  {
    assert toks[i + 0] == s[0];
  }

  /** Every sequence occurs in itself at index 0. */
  lemma AtSelf<T>(toks: seq<T>)
    ensures At(toks, 0, toks)
  {
    forall k | 0 <= k < |toks|
      ensures toks[0 + k] == toks[k]
    {
    }
  }
}
