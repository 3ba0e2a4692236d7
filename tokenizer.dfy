/**
  * The `Tokenizer` object: it scans its text once, at construction, into a token list,
  * and then serves that list to the parser through a cursor.
  */
module Scanning {
  import opened Outcomes
  import opened Tokens
  import opened Lexer
  import opened LexerFacts

  /** What one pass of the scanning loop found. */
  datatype ScanStep = Scanned(tok: Token) | AtEnd | Unrecognized

  class Tokenizer {
    const text: string
    /** Character cursor into `text` (`_pos`). */
    var pos: nat
    /** Tokens produced so far (`_tokens`). */
    var tokens: seq<Token>
    /** Token cursor into `tokens` (`_index`). */
    var index: nat

    ghost predicate Valid()
      reads this
    {
      pos <= |text| && index <= |tokens|
    }

    /** The field initialisation of the constructor; scanning is done by `Tokenize`. */
    constructor (text: string)
      ensures Valid()
      ensures this.text == text && pos == 0 && tokens == [] && index == 0
    {
      this.text := text;
      pos := 0;
      tokens := [];
      index := 0;
    }

    /** The token `step` places after the cursor, or the `Empty` sentinel past the end. */
    method PeekToken(step: nat) returns (tok: Token)
      ensures tok == Peek(tokens, index, step)
    {
      tok := if index + step < |tokens| then tokens[index + step] else Empty;
    }

    /** Moves the token cursor one step, unless it is already at the end. */
    method MoveNextToken()
      requires Valid()
      modifies this`index
      ensures Valid()
      ensures index == Advance(tokens, old(index))
    {
      if index < |tokens| {
        index := index + 1;
      }
    }

    /** The character under the cursor; `None` stands for the `''` returned at the end. */
    function PeekChar(): Option<char>
      reads this
    {
      if pos < |text| then Some(text[pos]) else None
    }

    /** Moves the character cursor one step, unless it is already at the end. */
    method MoveNextChar()
      modifies this`pos
      ensures pos == if old(pos) < |text| then old(pos) + 1 else old(pos)
    {
      if pos < |text| {
        pos := pos + 1;
      }
    }

    /** Skips a maximal run of whitespace; what remains scans to the same tokens. */
    method SkipWhitespace()
      requires Valid()
      modifies this`pos
      ensures Valid() && old(pos) <= pos
      ensures forall k :: old(pos) <= k < pos ==> IsSpace(text[k])
      ensures pos == |text| || !IsSpace(text[pos])
      ensures Lex(text[pos..]) == Lex(text[old(pos)..])
    {
      while pos < |text| && IsSpace(text[pos])
        invariant old(pos) <= pos <= |text|
        invariant forall k :: old(pos) <= k < pos ==> IsSpace(text[k])
        invariant Lex(text[pos..]) == Lex(text[old(pos)..])
      {
        assert text[pos..][1..] == text[pos + 1..];
        pos := pos + 1;
      }
    }

    /**
      * `_tokenize`: scans the rest of the text, appending one token per literal, identifier
      * or operator. It succeeds exactly when the reference scanner does, and then it has
      * appended exactly the reference tokens and stopped at the end of the text.
      */
    method Tokenize() returns (ok: bool)
      requires Valid()
      modifies this`pos, this`tokens
      ensures Valid()
      ensures ok <==> Lex(text[old(pos)..]).Some?
      ensures ok ==> tokens == old(tokens) + Lex(text[old(pos)..]).value && pos == |text|
    {
      while true
        invariant Valid()
        invariant Join(Some(tokens), Lex(text[pos..])) == Join(Some(old(tokens)), Lex(text[old(pos)..]))
        decreases |text| - pos
      {
        SkipWhitespace();
        var step := ScanToken();
        match step
        case Scanned(tok) =>
          JoinSnoc(tokens, tok, Lex(text[pos..]));
          tokens := tokens + [tok];
        case AtEnd =>
          assert tokens + [] == tokens;
          return true;
        case Unrecognized =>
          return false;
      }
    }

    /**
      * One pass of the `_tokenize` loop after the whitespace: the token at the cursor, the end
      * of the text, or the tokenize error for a character no branch accepts.
      */
    method ScanToken() returns (step: ScanStep)
      requires Valid() && (pos == |text| || !IsSpace(text[pos]))
      modifies this`pos
      ensures Valid() && old(pos) <= pos
      ensures step.Scanned? ==> old(pos) < pos && Lex(text[old(pos)..]) == Join(Some([step.tok]), Lex(text[pos..]))
      ensures step.AtEnd? <==> old(pos) == |text|
      ensures step.AtEnd? ==> pos == |text| && Lex(text[old(pos)..]) == Some([])
      ensures step.Unrecognized? ==> Lex(text[old(pos)..]) == None
      ensures old(pos) < |text| && IsDigit(text[old(pos)]) ==>
                step.Scanned? && step.tok.Value? && step.tok.number == ScanNumber(text[old(pos)..]).0
                && pos - old(pos) == ScanNumber(text[old(pos)..]).1
      ensures old(pos) < |text| && IsAlpha(text[old(pos)]) ==>
                step == Scanned(Identifier(text[old(pos)..pos])) && pos - old(pos) == LeadingRun(text[old(pos)..], LetterRun)
      ensures old(pos) < |text| && OperatorToken(text[old(pos)]).Some? ==>
                step == Scanned(OperatorToken(text[old(pos)]).value) && pos == old(pos) + 1
      ensures step.Unrecognized? <==>
                old(pos) < |text| && !IsDigit(text[old(pos)]) && !IsAlpha(text[old(pos)]) && OperatorToken(text[old(pos)]).None?
    {
      ghost var start := pos;
      var ch := PeekChar();
      if ch.Some? && IsDigit(ch.value) {
        var value := ScanNumberAt();
        NumberScanned(text, start, pos, value);
        step := Scanned(Value(value));
      } else if ch.Some? && IsAlpha(ch.value) {
        var name := ScanIdentifierAt();
        WordScanned(text, start, pos, name);
        step := Scanned(Identifier(name));
      } else if ch.None? {
        assert text[pos..] == [];
        step := AtEnd;
      } else {
        match OperatorToken(ch.value)
        case None =>
          LexForeignHead(text[pos..]);
          step := Unrecognized;
        case Some(tok) =>
          OperatorScanned(text, start, tok);
          MoveNextChar();
          step := Scanned(tok);
      }
    }

    /**
      * The numeric-literal branch of `_tokenize`: folds every digit, fractional ones
      * included, into `sum`, and divides once by `pow` when a `.` follows the integer digits.
      */
    method ScanNumberAt() returns (value: real)
      requires Valid() && pos < |text| && IsDigit(text[pos])
      modifies this`pos
      ensures Valid() && old(pos) < pos
      ensures ScanNumber(text[old(pos)..]).0 == value && ScanNumber(text[old(pos)..]).1 == pos - old(pos)
    {
      ghost var start := pos;
      var sum := ScanIntegerDigits();
      ghost var dot := pos;
      var ch := PeekChar();
      if ch == Some('.') {
        value := ScanFractionAt(start, sum);
      } else {
        NumberWithoutFraction(text, start, dot, sum);
        value := sum as real;
      }
    }

    /** The rest of the numeric-literal branch from a `.` after the integer digits. */
    method ScanFractionAt(ghost start: nat, sum0: int) returns (value: real)
      requires Valid() && start < pos < |text| && text[pos] == '.'
      requires pos - start == LeadingRun(text[start..], DigitRun)
      requires sum0 == DigitsValue(text[start..pos])
      modifies this`pos
      ensures Valid() && old(pos) < pos
      ensures ScanNumber(text[start..]).0 == value && ScanNumber(text[start..]).1 == pos - start
    {
      ghost var dot := pos;
      MoveNextChar();
      var sum, pow := ScanFractionDigits(dot, sum0);
      NumberWithFraction(text, start, dot, pos, sum, pow);
      value := (sum as real) / (pow as real);
    }

    /** The integer-digit loop of the numeric-literal branch: folds a maximal run of digits into `sum`. */
    method ScanIntegerDigits() returns (sum: int)
      requires Valid()
      modifies this`pos
      ensures Valid() && old(pos) <= pos
      ensures pos - old(pos) == LeadingRun(text[old(pos)..], DigitRun)
      ensures sum == DigitsValue(text[old(pos)..pos])
    {
      ghost var start := pos;
      sum := 0;
      var ch := PeekChar();
      while ch.Some? && IsDigit(ch.value)
        invariant start <= pos <= |text| && ch == PeekChar()
        invariant forall k :: start <= k < pos ==> IsDigit(text[k])
        invariant sum == DigitsValue(text[start..pos])
        decreases |text| - pos
      {
        IntegerFoldStep(text, start, pos);
        sum := sum * 10 + DigitValue(ch.value);
        MoveNextChar();
        ch := PeekChar();
      }
      LeadingRunIs(text[start..], pos - start, DigitRun);
    }

    /**
      * The fractional-digit loop of the numeric-literal branch: keeps folding digits into
      * `sum` and multiplies `pow` by ten for each.
      */
    method ScanFractionDigits(ghost dot: nat, sum0: int) returns (sum: int, pow: int)
      requires Valid() && pos == dot + 1 <= |text|
      modifies this`pos
      ensures Valid() && dot + 1 <= pos
      ensures pos - dot - 1 == LeadingRun(text[dot + 1..], DigitRun)
      ensures sum == Folded(sum0, text[dot + 1..pos])
      ensures pow == Pow10(pos - dot - 1)
    {
      sum, pow := sum0, 1;
      assert text[dot + 1..pos] == [];
      while PeekChar().Some? && IsDigit(PeekChar().value)
        invariant dot + 1 <= pos <= |text|
        invariant pos - dot - 1 <= LeadingRun(text[dot + 1..], DigitRun)
        invariant sum == Folded(sum0, text[dot + 1..pos])
        invariant pow == Pow10(pos - dot - 1)
        decreases |text| - pos
      {
        FractionDigitStep(text, dot, pos, sum0);
        sum := sum * 10 + DigitValue(text[pos]);
        pow := pow * 10;
        MoveNextChar();
      }
      RunEndsAt(text, dot + 1, pos, DigitRun);
    }

    /** The identifier branch of `_tokenize`: collects a maximal run of letters. */
    method ScanIdentifierAt() returns (name: string)
      requires Valid() && pos < |text| && IsAlpha(text[pos])
      modifies this`pos
      ensures Valid() && old(pos) < pos
      ensures name == text[old(pos)..pos] && LeadingRun(text[old(pos)..], LetterRun) == pos - old(pos)
    {
      ghost var start := pos;
      name := "";
      var ch := PeekChar();
      while ch.Some? && IsAlpha(ch.value)
        invariant start <= pos <= |text| && ch == PeekChar()
        invariant name == text[start..pos]
        invariant forall k :: start <= k < pos ==> IsAlpha(text[k])
        decreases |text| - pos
      {
        name := name + [ch.value];
        MoveNextChar();
        ch := PeekChar();
      }
      ghost var s := text[start..];
      assert s[..pos - start] == name;
      LeadingRunIs(s, pos - start, LetterRun);
    }
  }

  /**
    * `new Tokenizer(text)`: initialises the cursors and scans the whole text, failing with
    * the tokenize error exactly when the reference scanner fails.
    */
  method Open(text: string) returns (r: Option<Tokenizer>)
    ensures r.Some? <==> Lex(text).Some?
    ensures r.Some? ==> fresh(r.value) && r.value.Valid() && r.value.text == text
                        && r.value.tokens == Lex(text).value && r.value.index == 0
  {
    var t := new Tokenizer(text);
    assert text[0..] == text;
    var ok := t.Tokenize();
    r := if ok then Some(t) else None;
  }

  /** The numeric-literal branch consumed `text[start..end]`, one value token. */
  lemma NumberScanned(text: string, start: nat, end: nat, value: real)
    requires start < end <= |text| && IsDigit(text[start])
    requires ScanNumber(text[start..]).0 == value && ScanNumber(text[start..]).1 == end - start
    ensures Lex(text[start..]) == Join(Some([Value(value)]), Lex(text[end..]))
  {
    SuffixOfSuffix(text, start, end);
    NumberHead(text[start..], end - start, value, text[end..]);
  }

  lemma SuffixOfSuffix(text: string, start: nat, end: nat)
    requires start <= end <= |text|
    ensures text[start..][end - start..] == text[end..]
  {
  }

  /** The identifier branch consumed `text[start..end]`, one identifier token. */
  lemma WordScanned(text: string, start: nat, end: nat, name: string)
    requires start < end <= |text| && IsAlpha(text[start])
    requires name == text[start..end] && LeadingRun(text[start..], LetterRun) == end - start
    ensures Lex(text[start..]) == Join(Some([Identifier(name)]), Lex(text[end..]))
  {
    LexWordHead(text[start..]);
    assert text[start..][..end - start] == name;
    assert text[start..][end - start..] == text[end..];
  }

  /** The operator branch consumed one character, one operator token. */
  lemma OperatorScanned(text: string, start: nat, tok: Token)
    requires start < |text| && OperatorToken(text[start]) == Some(tok)
    ensures Lex(text[start..]) == Join(Some([tok]), Lex(text[start + 1..]))
  {
    assert text[start..][1..] == text[start + 1..];
    LexOperatorHead(text[start..]);
  }

  /** One more digit read by the integer-digit loop. */
  lemma IntegerFoldStep(text: string, start: nat, pos: nat)
    requires start <= pos < |text|
    ensures DigitsValue(text[start..pos + 1]) == DigitsValue(text[start..pos]) * 10 + DigitValue(text[pos])
  {
    assert text[start..pos + 1][..pos - start] == text[start..pos];
  }

  /** One more fractional digit: the run of digits after the `.` reaches past it. */
  lemma FractionDigitStep(text: string, dot: nat, pos: nat, acc: int)
    requires dot < pos < |text| && IsDigit(text[pos])
    requires pos - dot - 1 <= LeadingRun(text[dot + 1..], DigitRun)
    ensures pos + 1 - dot - 1 <= LeadingRun(text[dot + 1..], DigitRun)
    ensures Folded(acc, text[dot + 1..pos + 1]) == Folded(acc, text[dot + 1..pos]) * 10 + DigitValue(text[pos])
    ensures Pow10(pos + 1 - dot - 1) == Pow10(pos - dot - 1) * 10
  {
    assert text[dot + 1..][pos - dot - 1] == text[pos];
    assert text[dot + 1..pos + 1][..pos - dot - 1] == text[dot + 1..pos];
  }

  /** A loop over a run of characters that stops at a character outside the run has read all of it. */
  lemma RunEndsAt(text: string, from: nat, pos: nat, cls: RunClass)
    requires from <= pos <= |text| && pos - from <= LeadingRun(text[from..], cls)
    requires pos == |text| || !InRun(cls, text[pos])
    ensures pos - from == LeadingRun(text[from..], cls)
  {
    if pos < |text| {
      assert text[from..][pos - from] == text[pos];
    }
  }

  /** The accumulator after a digit loop that starts from `acc` has folded in the digits `ds`. */
  ghost function Folded(acc: int, ds: string): int {
    if ds == [] then acc else Folded(acc, ds[..|ds| - 1]) * 10 + DigitValue(ds[|ds| - 1])
  }

  /** Folding more digits into the value of `a` gives the value of the longer digit string. */
  lemma {:induction false} FoldedConcat(a: string, b: string)
    ensures Folded(DigitsValue(a), b) == DigitsValue(a + b)
    decreases |b|
  {
    if b == [] {
      assert a + b == a;
    } else {
      var b' := b[..|b| - 1];
      assert (a + b)[..|a + b| - 1] == a + b';
      FoldedConcat(a, b');
    }
  }

  /** A literal whose integer digits end at `dot`, where a `.` and then fractional digits up to `end` follow. */
  lemma NumberWithFraction(text: string, start: nat, dot: nat, end: nat, sum: int, pow: int)
    requires start < dot < end <= |text| && text[dot] == '.'
    requires dot - start == LeadingRun(text[start..], DigitRun)
    requires end - dot - 1 == LeadingRun(text[dot + 1..], DigitRun)
    requires sum == Folded(DigitsValue(text[start..dot]), text[dot + 1..end]) && pow == Pow10(end - dot - 1)
    ensures ScanNumber(text[start..]).0 == (sum as real) / (pow as real)
    ensures ScanNumber(text[start..]).1 == end - start
  {
    FoldedConcat(text[start..dot], text[dot + 1..end]);
    var s := text[start..];
    var k := dot - start;
    assert s[..k] == text[start..dot];
    assert s[k] == '.' && s[k + 1..] == text[dot + 1..];
    assert text[dot + 1..][..end - dot - 1] == text[dot + 1..end];
    assert ScanNumber(s) == Fraction(text[start..dot], text[dot + 1..]);
  }

  /** A literal whose integer digits end at `dot`, with no `.` there. */
  lemma NumberWithoutFraction(text: string, start: nat, dot: nat, sum: int)
    requires start < dot <= |text| && (dot == |text| || text[dot] != '.')
    requires dot - start == LeadingRun(text[start..], DigitRun)
    requires sum == DigitsValue(text[start..dot])
    ensures ScanNumber(text[start..]).0 == sum as real && ScanNumber(text[start..]).1 == dot - start
  {
    var s := text[start..];
    var k := dot - start;
    assert s[..k] == text[start..dot];
    assert k == |s| || s[k] == text[dot];
  }
}
