/**
  * Properties of the reference scanner `Lexer.Lex`: how literals are valued, that
  * whitespace and operators split the text into independently scanned pieces, and that a
  * character outside the scanner's alphabet always fails the scan.
  */
module LexerFacts {
  import opened Outcomes
  import opened Tokens
  import opened Lexer

  predicate AllDigits(s: string) {
    forall k :: 0 <= k < |s| ==> IsDigit(s[k])
  }

  predicate AllAlpha(s: string) {
    forall k :: 0 <= k < |s| ==> IsAlpha(s[k])
  }

  /** Folding `a + b` digit by digit is folding `a`, shifting by `|b|` places, and adding `b`. */
  lemma {:induction false} DigitsValueConcat(a: string, b: string)
    ensures DigitsValue(a + b) == DigitsValue(a) * Pow10(|b|) + DigitsValue(b)
    decreases |b|
  {
    if b == [] {
      assert a + b == a;
    } else {
      var b' := b[..|b| - 1];
      assert (a + b)[..|a + b| - 1] == a + b';
      assert (a + b)[|a + b| - 1] == b[|b| - 1];
      DigitsValueConcat(a, b');
      calc {
        DigitsValue(a + b);
        DigitsValue(a + b') * 10 + DigitValue(b[|b| - 1]);
        (DigitsValue(a) * Pow10(|b'|) + DigitsValue(b')) * 10 + DigitValue(b[|b| - 1]);
        { assert (DigitsValue(a) * Pow10(|b'|)) * 10 == DigitsValue(a) * (10 * Pow10(|b'|)); }
        DigitsValue(a) * Pow10(|b|) + (DigitsValue(b') * 10 + DigitValue(b[|b| - 1]));
      }
    }
  }

  /** A run that covers the whole string is the whole string. */
  lemma {:induction false} LeadingRunAll(s: string, cls: RunClass)
    requires forall k :: 0 <= k < |s| ==> InRun(cls, s[k])
    ensures LeadingRun(s, cls) == |s|
    decreases |s|
  {
    if s != [] {
      LeadingRunAll(s[1..], cls);
    }
  }

  /** A character outside the run class ends the run: nothing after it is looked at. */
  lemma {:induction false} LeadingRunStops(a: string, c: char, b: string, cls: RunClass)
    requires !InRun(cls, c)
    ensures LeadingRun(a + [c] + b, cls) == LeadingRun(a, cls)
    decreases |a|
  {
    if a == [] {
      assert a + [c] + b == [c] + b;
    } else if InRun(cls, a[0]) {
      assert (a + [c] + b)[1..] == a[1..] + [c] + b;
      LeadingRunStops(a[1..], c, b, cls);
    }
  }

  /** A numeric literal ends before any character that is neither a digit nor a `.`. */
  lemma ScanNumberStops(a: string, c: char, b: string)
    requires a != [] && IsDigit(a[0])
    requires !IsDigit(c) && c != '.'
    ensures ScanNumber(a + [c] + b) == ScanNumber(a)
  {
    LeadingRunStops(a, c, b, DigitRun);
    var k := LeadingRun(a, DigitRun);
    if k < |a| && a[k] == '.' {
      DottedNumberStops(a, c, b, k);
    } else {
      PlainNumberStops(a, c, b, k);
    }
  }

  lemma PlainNumberStops(a: string, c: char, b: string, k: nat)
    requires a != [] && IsDigit(a[0]) && !IsDigit(c) && c != '.'
    requires k == LeadingRun(a, DigitRun) == LeadingRun(a + [c] + b, DigitRun)
    requires !(k < |a| && a[k] == '.')
    ensures ScanNumber(a + [c] + b) == ScanNumber(a)
  {
    var s := a + [c] + b;
    assert s[..k] == a[..k];
    assert k == |a| ==> s[k] == c;
    assert k < |a| ==> s[k] == a[k];
  }

  lemma DottedNumberStops(a: string, c: char, b: string, k: nat)
    requires a != [] && IsDigit(a[0]) && !IsDigit(c) && c != '.'
    requires k == LeadingRun(a, DigitRun) == LeadingRun(a + [c] + b, DigitRun)
    requires k < |a| && a[k] == '.'
    ensures ScanNumber(a + [c] + b) == ScanNumber(a)
  {
    var s := a + [c] + b;
    var f := a[k + 1..];
    assert s[k + 1..] == f + [c] + b;
    assert s[..k] == a[..k];
    assert s[k] == '.';
    FractionStops(a[..k], f, c, b);
    assert ScanNumber(s) == Fraction(a[..k], f + [c] + b);
    assert ScanNumber(a) == Fraction(a[..k], f);
  }

  /** The fractional digits end before a character that is not a digit. */
  lemma FractionStops(ds: string, f: string, c: char, b: string)
    requires !IsDigit(c)
    ensures Fraction(ds, f + [c] + b) == Fraction(ds, f)
  {
    LeadingRunStops(f, c, b, DigitRun);
    var m := LeadingRun(f, DigitRun);
    assert (f + [c] + b)[..m] == f[..m];
  }

  lemma JoinEmpty(x: Option<seq<Token>>)
    ensures Join(Some([]), x) == x
  {
    if x.Some? {
      assert [] + x.value == x.value;
    }
  }

  /** A lone whitespace character scans to nothing, a lone operator to its own token. */
  lemma LexSingle(c: char)
    requires Separator(c)
    ensures Lex([c]) == (if IsSpace(c) then Some([]) else Some([OperatorToken(c).value]))
  {
    assert [c][1..] == [];
    if !IsSpace(c) {
      assert [OperatorToken(c).value] + [] == [OperatorToken(c).value];
    }
  }

  lemma JoinAssociative(x: Option<seq<Token>>, y: Option<seq<Token>>, z: Option<seq<Token>>)
    ensures Join(Join(x, y), z) == Join(x, Join(y, z))
  {
    if x.Some? && y.Some? && z.Some? {
      assert (x.value + y.value) + z.value == x.value + (y.value + z.value);
    }
  }

  /**
    * One step of `LexSeparated`: when `a` begins with a token of length `n` that ends
    * inside `a`, the separated scan follows from the scan of what remains of `a`.
    */
  lemma LexSeparatedStep(a: string, c: char, b: string, head: seq<Token>, n: nat)
    requires 0 < n <= |a|
    requires Lex(a) == Join(Some(head), Lex(a[n..]))
    requires Lex(a + [c] + b) == Join(Some(head), Lex((a + [c] + b)[n..]))
    requires Lex(a[n..] + [c] + b) == Join(Lex(a[n..]), Join(Lex([c]), Lex(b)))
    ensures Lex(a + [c] + b) == Join(Lex(a), Join(Lex([c]), Lex(b)))
  {
    assert (a + [c] + b)[n..] == a[n..] + [c] + b;
    JoinAssociative(Some(head), Lex(a[n..]), Join(Lex([c]), Lex(b)));
  }

  /**
    * Whitespace and operators separate tokens: the text on either side of one is scanned
    * independently; with `LexSingle`, a whitespace character yields no token and an
    * operator exactly its own.
    */
  lemma {:induction false} LexSeparated(a: string, c: char, b: string)
    requires Separator(c)
    ensures Lex(a + [c] + b) == Join(Lex(a), Join(Lex([c]), Lex(b)))
    decreases |a|
  {
    var s := a + [c] + b;
    if a == [] {
      assert s == [c] + b;
      assert s[1..] == b;
      LexSingle(c);
      JoinEmpty(Join(Lex([c]), Lex(b)));
      if IsSpace(c) {
        JoinEmpty(Lex(b));
      }
    } else {
      assert s[0] == a[0];
      if IsSpace(a[0]) {
        assert s[1..] == a[1..] + [c] + b;
        LexSeparated(a[1..], c, b);
      } else if IsDigit(a[0]) {
        ScanNumberStops(a, c, b);
        var n := ScanNumber(a).1;
        LexSeparated(a[n..], c, b);
        LexSeparatedStep(a, c, b, [Value(ScanNumber(a).0)], n);
      } else if IsAlpha(a[0]) {
        LeadingRunStops(a, c, b, LetterRun);
        var n := LeadingRun(a, LetterRun);
        assert s[..n] == a[..n];
        LexSeparated(a[n..], c, b);
        LexSeparatedStep(a, c, b, [Identifier(a[..n])], n);
      } else if OperatorToken(a[0]).Some? {
        LexSeparated(a[1..], c, b);
        LexSeparatedStep(a, c, b, [OperatorToken(a[0]).value], 1);
      }
    }
  }

  /** A character the scanner cannot consume anywhere in the text makes the whole scan fail. */
  lemma {:induction false} LexRejects(s: string, k: nat)
    requires k < |s| && !Scannable(s[k])
    ensures Lex(s) == None
    decreases |s|
  {
    if IsSpace(s[0]) {
      LexRejects(s[1..], k - 1);
    } else if IsDigit(s[0]) {
      var n := ScanNumber(s).1;
      LexRejects(s[n..], k - n);
    } else if IsAlpha(s[0]) {
      var n := LeadingRun(s, LetterRun);
      LexRejects(s[n..], k - n);
    } else if OperatorToken(s[0]).Some? {
      LexRejects(s[1..], k - 1);
    }
  }

  /** A maximal run of letters is one identifier token holding exactly that text. */
  lemma LexWord(w: string)
    requires w != [] && AllAlpha(w)
    ensures Lex(w) == Some([Identifier(w)])
  {
    LeadingRunAll(w, LetterRun);
    assert w[..|w|] == w;
    assert w[|w|..] == [];
    assert [Identifier(w)] + [] == [Identifier(w)];
  }

  /** A run of digits is one `Value` token holding the integer it spells. */
  lemma LexInteger(ds: string)
    requires ds != [] && AllDigits(ds)
    ensures Lex(ds) == Some([Value(DigitsValue(ds) as real)])
  {
    LeadingRunAll(ds, DigitRun);
    assert ds[..|ds|] == ds;
    assert ds[|ds|..] == [];
    assert [Value(DigitsValue(ds) as real)] + [] == [Value(DigitsValue(ds) as real)];
  }

  /** The scanner reads `d1..dk.f1..fm` whole, dividing all k+m digits by 10^m. */
  lemma ScanDecimal(ds: string, fs: string)
    requires ds != [] && AllDigits(ds) && AllDigits(fs)
    ensures ScanNumber(ds + "." + fs)
         == (Scaled(ds + fs, |fs|), |ds| + 1 + |fs|)
  {
    var s := ds + "." + fs;
    assert s == ds + ['.'] + fs;
    LeadingRunStops(ds, '.', fs, DigitRun);
    LeadingRunAll(ds, DigitRun);
    var k := |ds|;
    assert s[k] == '.';
    assert s[k + 1..] == fs;
    LeadingRunAll(fs, DigitRun);
    assert s[..k] == ds;
    assert fs[..|fs|] == fs;
  }

  lemma DivideShifted(x: real, y: real, p: real)
    requires p > 0.0
    ensures (x * p + y) / p == x + y / p
  {
  }

  lemma CastProduct(a: int, b: int)
    ensures (a * b) as real == (a as real) * (b as real)
  {
  }

  /** Dividing all digits by 10^m gives the integer part plus the fractional digits over 10^m. */
  lemma DecimalValue(ds: string, fs: string)
    ensures Scaled(ds + fs, |fs|)
         == DigitsValue(ds) as real + (DigitsValue(fs) as real) / (Pow10(|fs|) as real)
  {
    DigitsValueConcat(ds, fs);
    ShiftedQuotient(DigitsValue(ds), DigitsValue(fs), Pow10(|fs|));
  }

  /** `(a * p + b) / p` splits into `a + b / p` over the reals. */
  lemma ShiftedQuotient(a: int, b: int, p: int)
    requires p >= 1
    ensures ((a * p + b) as real) / (p as real) == a as real + (b as real) / (p as real)
  {
    CastProduct(a, p);
    DivideShifted(a as real, b as real, p as real);
  }

  /**
    * `d1..dk.f1..fm` is one `Value` token whose value, computed as all k+m digits over
    * 10^m, is the decimal number the literal denotes: the integer part plus the
    * fractional digits over 10^m. With no fractional digits the divisor is 1.
    */
  lemma LexDecimal(ds: string, fs: string)
    requires ds != [] && AllDigits(ds) && AllDigits(fs)
    ensures Lex(ds + "." + fs) == Some([Value(Scaled(ds + fs, |fs|))])
    ensures Scaled(ds + fs, |fs|)
         == DigitsValue(ds) as real + (DigitsValue(fs) as real) / (Pow10(|fs|) as real)
  {
    var s := ds + "." + fs;
    ScanDecimal(ds, fs);
    assert s[0] == ds[0];
    LexNumberHead(s);
    assert s[|s|..] == [];
    var v := Scaled(ds + fs, |fs|);
    assert [Value(v)] + [] == [Value(v)];
    DecimalValue(ds, fs);
  }

  /** `1.25` is computed as 125 / 100; `1.` leaves the divisor at 1. */
  lemma LexExamples(text: string, dotted: string)
    requires text == "1.25" && dotted == "1."
    ensures Lex(text) == Some([Value(1.25)])
    ensures Lex(dotted) == Some([Value(1.0)])
  {
    TwentyFiveHundredths("1", "25");
    assert "1" + "." + "25" == text;
    OneDotted("1", "");
    assert "1" + "." + "" == dotted;
  }

  lemma OneDotted(one: string, none: string)
    requires one == "1" && none == ""
    ensures Lex(one + "." + none) == Some([Value(1.0)])
  {
    OneValue(one);
    assert one + none == one;
    LexDecimal(one, none);
  }

  lemma OneValue(one: string)
    requires one == "1"
    ensures DigitsValue(one) == 1
  {
    assert one[..0] == [];
  }

  lemma TwentyFiveHundredths(one: string, twoFive: string)
    requires one == "1" && twoFive == "25"
    ensures Lex(one + "." + twoFive) == Some([Value(1.25)])
  {
    OneValue(one);
    assert AllDigits(twoFive);
    assert DigitsValue(twoFive) == 25 by {
      assert twoFive[..1] == "2";
      assert "2"[..0] == [];
    }
    assert Pow10(|twoFive|) == 100;
    LexDecimal(one, twoFive);
  }

  /** The run length is the one position where the run class first fails. */
  lemma {:induction false} LeadingRunIs(s: string, n: nat, cls: RunClass)
    requires n <= |s|
    requires forall k :: 0 <= k < n ==> InRun(cls, s[k])
    requires n == |s| || !InRun(cls, s[n])
    ensures LeadingRun(s, cls) == n
    decreases n
  {
    if n > 0 {
      LeadingRunIs(s[1..], n - 1, cls);
    }
  }

  /** A literal of `k` digits not followed by a digit or `.` is read as the integer they spell. */
  lemma ScanInteger(s: string, k: nat)
    requires 0 < k <= |s|
    requires forall j :: 0 <= j < k ==> IsDigit(s[j])
    requires k == |s| || (!IsDigit(s[k]) && s[k] != '.')
    ensures ScanNumber(s) == (DigitsValue(s[..k]) as real, k)
  {
    LeadingRunIs(s, k, DigitRun);
  }

  /**
    * A literal of `k` integer digits, a `.` and `m` fractional digits not followed by a digit
    * is read as all k+m digits divided by 10^m.
    */
  lemma ScanFraction(s: string, k: nat, m: nat)
    requires 0 < k && k + 1 + m <= |s| && s[k] == '.'
    requires forall j :: 0 <= j < k ==> IsDigit(s[j])
    requires forall j :: k + 1 <= j < k + 1 + m ==> IsDigit(s[j])
    requires k + 1 + m == |s| || !IsDigit(s[k + 1 + m])
    ensures ScanNumber(s)
         == (Scaled(s[..k] + s[k + 1..k + 1 + m], m), k + 1 + m)
  {
    LeadingRunIs(s, k, DigitRun);
    var f := s[k + 1..];
    assert forall j :: 0 <= j < m ==> IsDigit(f[j]) by {
      forall j | 0 <= j < m ensures IsDigit(f[j]) {
        assert f[j] == s[k + 1 + j];
      }
    }
    assert m == |f| || f[m] == s[k + 1 + m];
    LeadingRunIs(f, m, DigitRun);
    assert f[..m] == s[k + 1..k + 1 + m];
  }

  /** A numeric literal at the head of the text is one `Value` token; scanning resumes after it. */
  lemma LexNumberHead(s: string)
    requires s != [] && IsDigit(s[0])
    ensures Lex(s) == Join(Some([Value(ScanNumber(s).0)]), Lex(s[ScanNumber(s).1..]))
  {
  }

  /** A run of letters at the head of the text is one identifier token; scanning resumes after it. */
  lemma LexWordHead(s: string)
    requires s != [] && IsAlpha(s[0])
    ensures Lex(s) == Join(Some([Identifier(s[..LeadingRun(s, LetterRun)])]), Lex(s[LeadingRun(s, LetterRun)..]))
  {
  }

  /**
    * A name is the maximal run of letters: whatever follows it that is not a letter (a digit,
    * a `.`, a foreign character, as well as whitespace or an operator) starts a new scan.
    */
  lemma WordThenAny(w: string, c: char, r: string)
    requires w != [] && AllAlpha(w) && !IsAlpha(c)
    ensures Lex(w + [c] + r) == Join(Some([Identifier(w)]), Lex([c] + r))
  {
    var s := w + [c] + r;
    LeadingRunStops(w, c, r, LetterRun);
    LeadingRunAll(w, LetterRun);
    assert s[0] == w[0];
    LexWordHead(s);
    assert s[..|w|] == w;
    assert s[|w|..] == [c] + r;
  }

  /**
    * An integer literal is the maximal run of digits: whatever follows it that is neither a
    * digit nor a `.` (a letter, a foreign character, as well as whitespace or an operator)
    * starts a new scan.
    */
  lemma NumberThenAny(ds: string, c: char, r: string)
    requires ds != [] && AllDigits(ds) && !IsDigit(c) && c != '.'
    ensures Lex(ds + [c] + r) == Join(Some([Value(DigitsValue(ds) as real)]), Lex([c] + r))
  {
    var s := ds + [c] + r;
    IntegerThenAny(ds, c, r);
    assert s[0] == ds[0];
    assert s[|ds|..] == [c] + r;
    NumberHead(s, |ds|, DigitsValue(ds) as real, [c] + r);
  }

  lemma IntegerThenAny(ds: string, c: char, r: string)
    requires ds != [] && AllDigits(ds) && !IsDigit(c) && c != '.'
    ensures ScanNumber(ds + [c] + r).0 == DigitsValue(ds) as real && ScanNumber(ds + [c] + r).1 == |ds|
  {
    ScanNumberStops(ds, c, r);
    ScanInteger(ds, |ds|);
    assert ds[..|ds|] == ds;
  }

  /** A numeric literal of length `n` and value `value` at the head, then the text `rest`. */
  lemma NumberHead(s: string, n: nat, value: real, rest: string)
    requires s != [] && IsDigit(s[0]) && ScanNumber(s).0 == value && ScanNumber(s).1 == n && s[n..] == rest
    ensures Lex(s) == Join(Some([Value(value)]), Lex(rest))
  {
    LexNumberHead(s);
  }

  /** Appending one token to a successful prefix. */
  lemma JoinSnoc(done: seq<Token>, tok: Token, rest: Option<seq<Token>>)
    ensures Join(Some(done), Join(Some([tok]), rest)) == Join(Some(done + [tok]), rest)
  {
    JoinAssociative(Some(done), Some([tok]), rest);
  }

  /** An operator at the head of the text is one token, and scanning resumes right after it. */
  lemma LexOperatorHead(s: string)
    requires s != [] && OperatorToken(s[0]).Some?
    ensures Lex(s) == Join(Some([OperatorToken(s[0]).value]), Lex(s[1..]))
  {
  }

  /** A character that is neither whitespace, digit, letter nor operator at the head fails the scan. */
  lemma LexForeignHead(s: string)
    requires s != [] && !IsSpace(s[0]) && !IsDigit(s[0]) && !IsAlpha(s[0]) && OperatorToken(s[0]).None?
    ensures Lex(s) == None
  {
  }
}
