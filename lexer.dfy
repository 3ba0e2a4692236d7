/**
  * The tokenizer's character classes and a reference definition of what it produces.
  * `Lex(s)` is the token list the scanner builds from the text `s`, or `None` when the
  * scanner stops with its tokenize error.
  */
module Lexer {
  import opened Outcomes
  import opened Tokens

  /**
    * `_isSpace`: space, tab, line feed, carriage return, form feed. A whitespace character
    * is in no other class the scanner distinguishes.
    */
  predicate IsSpace(ch: char): (b: bool)
    ensures b ==> !IsDigit(ch) && !IsAlpha(ch) && OperatorToken(ch).None? && ch != '.'
  {
    ch == ' ' || ch == '\t' || ch == '\n' || ch == '\r' || ch == '\U{C}'
  }

  /**
    * `_isDigit`: an ASCII decimal digit, that is, a character whose `parseInt` value is
    * 0 to 9. A digit is neither a letter, an operator nor the `.`.
    */
  predicate IsDigit(ch: char): (b: bool)
    ensures b <==> 0 <= DigitValue(ch) <= 9
    ensures b ==> !IsAlpha(ch) && OperatorToken(ch).None? && ch != '.'
  {
    '0' <= ch <= '9'
  }

  /** `_isAlpha`: an ASCII letter. A letter is neither an operator nor the `.`. */
  predicate IsAlpha(ch: char): (b: bool)
    ensures b ==> OperatorToken(ch).None? && ch != '.'
  {
    ('A' <= ch <= 'Z') || ('a' <= ch <= 'z')
  }

  /** `parseInt(ch, 10)` of a digit. */
  function DigitValue(ch: char): int {
    ch as int - '0' as int
  }

  /** The single-character operators and the tokens they stand for. */
  function OperatorToken(ch: char): (r: Option<Token>)
    ensures r.Some? <==> ch in "+-*/=;()"
    ensures r.Some? ==> r.value.Payload() == Str([ch])
  {
    match ch
    case '+' => Some(Plus)
    case '-' => Some(Hyphen)
    case '*' => Some(Asterisk)
    case '/' => Some(Slash)
    case '=' => Some(Equals)
    case ';' => Some(Semicolon)
    case '(' => Some(OpenParenthesis)
    case ')' => Some(CloseParenthesis)
    case _ => None
  }

  /** The two kinds of character run the scanner collects: digits and letters. */
  datatype RunClass = DigitRun | LetterRun

  predicate InRun(cls: RunClass, ch: char) {
    match cls
    case DigitRun => IsDigit(ch)
    case LetterRun => IsAlpha(ch)
  }

  /** Length of the longest prefix of `s` whose characters all belong to the run class `cls`. */
  function LeadingRun(s: string, cls: RunClass): (n: nat)
    ensures n <= |s|
    ensures forall k :: 0 <= k < n ==> InRun(cls, s[k])
    ensures n == |s| || !InRun(cls, s[n])
  {
    if s != [] && InRun(cls, s[0]) then 1 + LeadingRun(s[1..], cls) else 0
  }

  /** The integer a digit string spells, folded left to right as `sum = sum * 10 + digit`. */
  function DigitsValue(ds: string): int {
    if ds == [] then 0 else DigitsValue(ds[..|ds| - 1]) * 10 + DigitValue(ds[|ds| - 1])
  }

  function Pow10(m: nat): (r: nat)
    ensures r >= 1
  {
    if m == 0 then 1 else 10 * Pow10(m - 1)
  }

  /** The value of the digit string `ds` with its last `m` digits after the point. */
  function Scaled(ds: string, m: nat): real {
    (DigitsValue(ds) as real) / (Pow10(m) as real)
  }

  /**
    * A numeric literal at the head of `s` (which starts with a digit): its value and its
    * length. All digits, fractional ones included, go into one accumulator, which is divided
    * once by ten to the number of fractional digits when a `.` follows the integer digits.
    */
  function ScanNumber(s: string): (r: (real, nat))
    requires s != [] && IsDigit(s[0])
    ensures 0 < r.1 <= |s|
  {
    var k := LeadingRun(s, DigitRun);
    if k < |s| && s[k] == '.' then Fraction(s[..k], s[k + 1..])
    else (DigitsValue(s[..k]) as real, k)
  }

  /** The literal made of the integer digits `ds`, a `.`, and the digits at the head of `rest`. */
  function Fraction(ds: string, rest: string): (r: (real, nat))
    ensures r.1 == |ds| + 1 + LeadingRun(rest, DigitRun)
  {
    var m := LeadingRun(rest, DigitRun);
    (Scaled(ds + rest[..m], m), |ds| + 1 + m)
  }

  /** Prepends the tokens of a successful result to another, or propagates the failure. */
  function Join(first: Option<seq<Token>>, second: Option<seq<Token>>): Option<seq<Token>> {
    if first.Some? && second.Some? then Some(first.value + second.value) else None
  }

  /** The tokens the scanner produces from `s`, in source order, or `None` for "Tokenize error.". */
  function Lex(s: string): (r: Option<seq<Token>>)
    ensures r.Some? ==> NoEmpty(r.value)
    decreases |s|
  {
    if s == [] then Some([])
    else if IsSpace(s[0]) then Lex(s[1..])
    else if IsDigit(s[0]) then
      var (v, n) := ScanNumber(s);
      Join(Some([Value(v)]), Lex(s[n..]))
    else if IsAlpha(s[0]) then
      var n := LeadingRun(s, LetterRun);
      Join(Some([Identifier(s[..n])]), Lex(s[n..]))
    else
      match OperatorToken(s[0])
      case None => None
      case Some(tok) => Join(Some([tok]), Lex(s[1..]))
  }

  /** Characters that end any token and start a new one: whitespace and the operators. */
  predicate Separator(ch: char) {
    IsSpace(ch) || OperatorToken(ch).Some?
  }

  /** Characters the scanner can consume at all. */
  predicate Scannable(ch: char) {
    IsSpace(ch) || IsDigit(ch) || IsAlpha(ch) || ch == '.' || OperatorToken(ch).Some?
  }
}
