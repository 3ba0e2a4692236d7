/**
  * What the grammar's shape means for whole programs: `+`/`-` and `*`/`/` do not chain,
  * assignments nest to the right, a `-` takes the next token unchecked, and characters
  * outside the alphabet stop the scan. Each general fact comes with a small program.
  */
module Quirks {
  import opened Outcomes
  import opened Tokens
  import opened Lexer
  import opened LexerFacts
  import opened Syntax
  import opened Grammar
  import opened GrammarFacts

  /**
    * An expression holds at most one `+`/`-`: after `a + b` a second `+` or `-` is left
    * for the statement, which wants `;` and reports the operator instead.
    */
  lemma SumsDoNotChain(toks: seq<Token>, i: nat, e: ExpressionNode, next: Token)
    requires e.BinaryTerms? && WellFormedExpression(e)
    requires At(toks, i, ExpressionTokens(e) + [next]) && (next.Plus? || next.Hyphen?)
    ensures Statement(toks, i) == Failure(ParseError(next.Payload(), ";"))
  {
    AtSplit(toks, i, ExpressionTokens(e), [next]);
    AtHead(toks, i + |ExpressionTokens(e)|, [next]);
    BinaryTermsComplete(toks, i, e);
  }

  /**
    * A term holds at most one `*`/`/`: after `a * b` a second `*` or `/` ends the
    * expression, and the statement reports it where it wants `;`.
    */
  lemma ProductsDoNotChain(toks: seq<Token>, i: nat, t: TermNode, next: Token)
    requires t.BinaryFactors? && WellFormedTerm(t)
    requires At(toks, i, TermTokens(t) + [next]) && (next.Asterisk? || next.Slash?)
    ensures Statement(toks, i) == Failure(ParseError(next.Payload(), ";"))
  {
    AtSplit(toks, i, TermTokens(t), [next]);
    AtHead(toks, i + |TermTokens(t)|, [next]);
    ExpressionComplete(toks, i, SingleTerm(t));
  }

  /**
    * The assignment branch is chosen by one token of lookahead: an expression is an
    * assignment exactly when it starts with an identifier followed by `=`, and that
    * identifier is the target.
    */
  lemma AssignmentByLookahead(toks: seq<Token>, i: nat)
    requires i <= |toks| && Expression(toks, i).Success?
    ensures Expression(toks, i).value.node.Assignment? <==> Peek(toks, i, 0).Identifier? && Peek(toks, i, 1).Equals?
    ensures Expression(toks, i).value.node.Assignment? ==> Expression(toks, i).value.node.target == Peek(toks, i, 0).name
  {
  }

  /**
    * A factor starts with `(`, a name, `-` or a number; any other lookahead, the `Empty`
    * sentinel included, fails with `<factor>`, and a parenthesised expression that is not
    * closed fails with `)`.
    */
  lemma FactorRejects(toks: seq<Token>, i: nat)
    requires i <= |toks|
    ensures var tok := Peek(toks, i, 0);
      (Factor(toks, i).Success? ==> tok.OpenParenthesis? || tok.Identifier? || tok.Hyphen? || tok.Value?)
      && (!(tok.OpenParenthesis? || tok.Identifier? || tok.Hyphen? || tok.Value?) ==> Factor(toks, i) == Failure(ParseError(tok.Payload(), "<factor>")))
    ensures i == |toks| ==> Factor(toks, i) == Failure(ParseError(Str(""), "<factor>"))
    ensures Peek(toks, i, 0).OpenParenthesis? && Expression(toks, i + 1).Success?
            && !Peek(toks, Expression(toks, i + 1).value.next, 0).CloseParenthesis? ==>
              Factor(toks, i) == Failure(ParseError(Peek(toks, Expression(toks, i + 1).value.next, 0).Payload(), ")"))
  {
  }

  /** The value rule fails, consuming nothing, exactly when the lookahead is neither `-` nor a number. */
  lemma ValueRejects(toks: seq<Token>, i: nat)
    requires i <= |toks|
    ensures ValueLiteral(toks, i).Failure? <==> !(Peek(toks, i, 0).Hyphen? || Peek(toks, i, 0).Value?)
    ensures ValueLiteral(toks, i).Failure? ==> ValueLiteral(toks, i).error == ParseError(Peek(toks, i, 0).Payload(), "- or <value>")
  {
  }

  /** A `-` factor takes whatever token follows as its operand, or the sentinel at the end. */
  lemma MinusTakesAnyToken(toks: seq<Token>, i: nat)
    requires i < |toks| && toks[i].Hyphen?
    ensures Factor(toks, i) == Success(Parsed(Literal(true, Peek(toks, i, 1)), if i + 1 < |toks| then i + 2 else i + 1))
    ensures CompileFactor(Factor(toks, i).value.node)
         == if Peek(toks, i, 1).Value? then [PushValue(-Peek(toks, i, 1).number)]
            else [PushCoerced(Peek(toks, i, 1).Payload().s)]
  {
  }

  /** The single-digit literal `c`. */
  lemma LexDigit(c: char)
    requires IsDigit(c)
    ensures Lex([c]) == Some([Value(DigitValue(c) as real)])
  {
    assert [c][..0] == [];
    LexInteger([c]);
  }

  /** The single-letter name `c`. */
  lemma LexLetter(c: char)
    requires IsAlpha(c)
    ensures Lex([c]) == Some([Identifier([c])])
  {
    LexWord([c]);
  }

  /** A one-character token `c` directly followed by the operator `op`. */
  lemma LexPairThenRest(c: char, op: char, rest: string, tok: Token)
    requires Separator(op) && !IsSpace(op) && Lex([c]) == Some([tok])
    ensures Lex([c, op] + rest) == Join(Some([tok, OperatorToken(op).value]), Lex(rest))
  {
    assert [c] + [op] + rest == [c, op] + rest;
    LexSeparated([c], op, rest);
    LexSingle(op);
    JoinAssociative(Some([tok]), Some([OperatorToken(op).value]), Lex(rest));
    assert [tok] + [OperatorToken(op).value] == [tok, OperatorToken(op).value];
  }

  /** A one-character token and an operator in front of a text that scans. */
  lemma LexPairPrefix(c: char, op: char, rest: string, s: string, tok: Token, opTok: Token, vs: seq<Token>, ts: seq<Token>)
    requires OperatorToken(op) == Some(opTok)
    requires Lex([c]) == Some([tok]) && Lex(rest) == Some(vs)
    requires s == [c, op] + rest && ts == [tok, opTok] + vs
    ensures Lex(s) == Some(ts)
  {
    assert Separator(op) && !IsSpace(op);
    LexPairThenRest(c, op, rest, tok);
  }

  /** The token `c` and then `;`. */
  lemma LexLastStatement(c: char, tok: Token)
    requires Lex([c]) == Some([tok])
    ensures Lex([c, ';']) == Some([tok, Semicolon])
  {
    var empty: string, none: seq<Token> := [], [];
    assert Lex(empty) == Some(none);
    LexPairPrefix(c, ';', empty, [c, ';'], tok, Semicolon, none, [tok, Semicolon]);
  }

  /** `b+c;` for digits `b`, `c`. */
  lemma SumScan(b: char, c: char)
    requires IsDigit(b) && IsDigit(c)
    ensures Lex([b, '+', c, ';']) == Some([Value(DigitValue(b) as real), Plus, Value(DigitValue(c) as real), Semicolon])
  {
    var vb, vc := Value(DigitValue(b) as real), Value(DigitValue(c) as real);
    LexDigit(b);
    LexDigit(c);
    LexLastStatement(c, vc);
    LexPairPrefix(b, '+', [c, ';'], [b, '+', c, ';'], vb, Plus, [vc, Semicolon], [vb, Plus, vc, Semicolon]);
  }

  /** `a+b+c;` for digits `a`, `b`, `c` scans to three values, two `+` and the `;`. */
  lemma ChainedSumScan(a: char, b: char, c: char)
    requires IsDigit(a) && IsDigit(b) && IsDigit(c)
    ensures Lex([a, '+', b, '+', c, ';'])
         == Some([Value(DigitValue(a) as real), Plus, Value(DigitValue(b) as real), Plus, Value(DigitValue(c) as real), Semicolon])
  {
    var va, vb, vc := Value(DigitValue(a) as real), Value(DigitValue(b) as real), Value(DigitValue(c) as real);
    LexDigit(a);
    SumScan(b, c);
    LexPairPrefix(a, '+', [b, '+', c, ';'], [a, '+', b, '+', c, ';'], va, Plus, [vb, Plus, vc, Semicolon], [va, Plus, vb, Plus, vc, Semicolon]);
  }

  /** `1+2+3;` scans to six tokens and is rejected at the second `+`. */
  lemma ChainedSumRejected()
    ensures Block([Value(1.0), Plus, Value(2.0), Plus, Value(3.0), Semicolon], 0)
         == Failure(ParseError(Str("+"), ";"))
  {
    var toks := [Value(1.0), Plus, Value(2.0), Plus, Value(3.0), Semicolon];
    var e := BinaryTerms(SingleFactor(Literal(false, Value(1.0))), AddOp, SingleFactor(Literal(false, Value(2.0))));
    assert ExpressionTokens(e) + [Plus] == toks[0..4];
    SumsDoNotChain(toks, 0, e, Plus);
  }

  /** `y=d;` for a letter `y` and a digit `d`. */
  lemma AssignmentScan(y: char, d: char)
    requires IsAlpha(y) && IsDigit(d)
    ensures Lex([y, '=', d, ';']) == Some([Identifier([y]), Equals, Value(DigitValue(d) as real), Semicolon])
  {
    var vd := Value(DigitValue(d) as real);
    LexLetter(y);
    LexDigit(d);
    LexLastStatement(d, vd);
    LexPairPrefix(y, '=', [d, ';'], [y, '=', d, ';'], Identifier([y]), Equals, [vd, Semicolon], [Identifier([y]), Equals, vd, Semicolon]);
  }

  /** `x=y=d;` for letters `x`, `y` and a digit `d` scans to two names, two `=`, a value and `;`. */
  lemma ChainedAssignmentScan(x: char, y: char, d: char)
    requires IsAlpha(x) && IsAlpha(y) && IsDigit(d)
    ensures Lex([x, '=', y, '=', d, ';'])
         == Some([Identifier([x]), Equals, Identifier([y]), Equals, Value(DigitValue(d) as real), Semicolon])
  {
    var vd := Value(DigitValue(d) as real);
    LexLetter(x);
    AssignmentScan(y, d);
    LexPairPrefix(x, '=', [y, '=', d, ';'], [x, '=', y, '=', d, ';'], Identifier([x]), Equals,
      [Identifier([y]), Equals, vd, Semicolon], [Identifier([x]), Equals, Identifier([y]), Equals, vd, Semicolon]);
  }

  /** `x=y=2;` nests to the right: both addresses are pushed before the value, then two stores. */
  lemma ChainedAssignment()
    ensures var e := Assignment("x", Assignment("y", SingleTerm(SingleFactor(Literal(false, Value(2.0))))));
      Block([Identifier("x"), Equals, Identifier("y"), Equals, Value(2.0), Semicolon], 0) == Success([e])
      && CompileBlock([e]) == [PushAddr("x"), PushAddr("y"), PushValue(2.0), Store, Store]
  {
    var e := Assignment("x", Assignment("y", SingleTerm(SingleFactor(Literal(false, Value(2.0))))));
    var toks := [Identifier("x"), Equals, Identifier("y"), Equals, Value(2.0), Semicolon];
    assert [e][1..] == [];
    assert BlockTokens([e]) == toks;
    assert toks[0..] == toks;
    BlockComplete(toks, 0, [e]);
  }

  /** `-;;` is accepted: the `-` swallows the first `;` as its operand. */
  lemma DanglingMinus()
    ensures var e := SingleTerm(SingleFactor(Literal(true, Semicolon)));
      Block([Hyphen, Semicolon, Semicolon], 0) == Success([e])
      && CompileBlock([e]) == [PushCoerced(";")]
  {
    var toks := [Hyphen, Semicolon, Semicolon];
    var e := SingleTerm(SingleFactor(Literal(true, Semicolon)));
    assert [e][1..] == [];
    assert BlockTokens([e]) == toks;
    assert toks[0..] == toks;
    BlockComplete(toks, 0, [e]);
  }

  /** `%` is not an operator of the language: a text containing it does not scan. */
  lemma ModuloRejected()
    ensures Lex("7%2;") == None
  {
    assert !Scannable("7%2;"[1]);
    LexRejects("7%2;", 1);
  }
}
