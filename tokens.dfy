/**
  * Tokens, the token cursor and parse errors of the calculator front end.
  */
module Tokens {

  /** The JavaScript `token.value`: a string for every kind but `Value`, a number for `Value`. */
  datatype TokenValue = Str(s: string) | Num(n: real)

  /**
    * One token. The constructors are the members of the source's `Kind` table; the
    * payload a token carries is fixed by its kind, as the tokenizer always builds them.
    * `Empty` is the sentinel the cursor hands out past the end of the token list.
    */
  datatype Token =
    | Empty
    | Plus
    | Hyphen
    | Asterisk
    | Slash
    | Equals
    | Semicolon
    | OpenParenthesis
    | CloseParenthesis
    | Value(number: real)
    | Identifier(name: string)
  {
    /** The token's `value` field. */
    function Payload(): TokenValue {
      match this
      case Empty => Str("")
      case Plus => Str("+")
      case Hyphen => Str("-")
      case Asterisk => Str("*")
      case Slash => Str("/")
      case Equals => Str("=")
      case Semicolon => Str(";")
      case OpenParenthesis => Str("(")
      case CloseParenthesis => Str(")")
      case Value(n) => Num(n)
      case Identifier(s) => Str(s)
    }
  }

  /** A token list in which no token is the `Empty` sentinel (every list the tokenizer builds). */
  ghost predicate NoEmpty(toks: seq<Token>) {
    forall k :: 0 <= k < |toks| ==> !toks[k].Empty?
  }

  /**
    * `peekToken(step)`: the token `step` places after the cursor `i`, or the `Empty` sentinel.
    * In a list free of sentinels, the sentinel comes back exactly when the position is out of range.
    */
  function Peek(toks: seq<Token>, i: nat, step: nat): (tok: Token)
    ensures NoEmpty(toks) ==> (tok.Empty? <==> i + step >= |toks|)
  {
    if i + step < |toks| then toks[i + step] else Empty
  }

  /**
    * The cursor after `moveNextToken`: one step forward exactly when it is inside the list,
    * otherwise unchanged, so a cursor within `0..|toks|` stays there.
    */
  function Advance(toks: seq<Token>, i: nat): (j: nat)
    ensures j == i || j == i + 1
    ensures j == i + 1 <==> i < |toks|
    ensures i <= |toks| ==> j <= |toks|
  {
    if i < |toks| then i + 1 else i
  }

  /** `ParseError(errorToken, needToken)`: the value of the offending token and what the rule needed. */
  datatype ParseError = ParseError(found: TokenValue, needed: string)
}
