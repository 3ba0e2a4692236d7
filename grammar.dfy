/**
  * The recursive-descent grammar as functions over the token list and a cursor. Each rule
  * returns the phrase it recognised and the cursor after it, or the parse error its first
  * mismatch throws. Peeking and advancing follow the token cursor exactly
  * (`Tokens.Peek`, `Tokens.Advance`).
  */
module Grammar {
  import opened Outcomes
  import opened Tokens
  import opened Syntax

  /** A recognised phrase and the cursor just after it. */
  datatype Parsed<T> = Parsed(node: T, next: nat)

  /**
    * `BlockNode`: statements until the lookahead is the `Empty` sentinel. A block is empty
    * exactly when it starts at the sentinel, and each statement takes at least two tokens.
    */
  function Block(toks: seq<Token>, i: nat): (r: Result<seq<ExpressionNode>, ParseError>)
    requires i <= |toks|
    ensures r.Success? ==> (r.value == [] <==> Peek(toks, i, 0).Empty?)
    ensures r.Success? ==> 2 * |r.value| <= |toks| - i
    decreases |toks| - i
  {
    if Peek(toks, i, 0).Empty? then Success([])
    else
      match Statement(toks, i)
      case Failure(err) => Failure(err)
      case Success(stmt) =>
        match Block(toks, stmt.next)
        case Failure(err) => Failure(err)
        case Success(rest) => Success([stmt.node] + rest)
  }

  /** `StatementNode`: an expression and the `;` after it. */
  function Statement(toks: seq<Token>, i: nat): (r: Result<Parsed<ExpressionNode>, ParseError>)
    requires i <= |toks|
    ensures r.Success? ==> i + 1 < r.value.next <= |toks|
  {
    match Expression(toks, i)
    case Failure(err) => Failure(err)
    case Success(e) =>
      var tok := Peek(toks, e.next, 0);
      if !tok.Semicolon? then Failure(ParseError(tok.Payload(), ";"))
      else Success(Parsed(e.node, Advance(toks, e.next)))
  }

  /**
    * `ExpressionNode`: an assignment when the lookahead is an identifier followed by `=`,
    * otherwise a term and at most one `+`/`-` term.
    */
  function Expression(toks: seq<Token>, i: nat): (r: Result<Parsed<ExpressionNode>, ParseError>)
    requires i <= |toks|
    ensures r.Success? ==> i < r.value.next <= |toks|
    decreases |toks| - i, 3
  {
    if Peek(toks, i, 0).Identifier? && Peek(toks, i, 1).Equals? then
      match IdentifierName(toks, i)
      case Failure(err) => Failure(err)
      case Success(target) =>
        match Expression(toks, Advance(toks, target.next))
        case Failure(err) => Failure(err)
        case Success(rhs) => Success(Parsed(Assignment(target.node, rhs.node), rhs.next))
    else
      match Term(toks, i)
      case Failure(err) => Failure(err)
      case Success(left) =>
        var op := Peek(toks, left.next, 0);
        if op.Plus? || op.Hyphen? then
          match Term(toks, Advance(toks, left.next))
          case Failure(err) => Failure(err)
          case Success(right) =>
            Success(Parsed(BinaryTerms(left.node, if op.Plus? then AddOp else SubOp, right.node), right.next))
        else
          Success(Parsed(SingleTerm(left.node), left.next))
  }

  /** `TermNode`: a factor and at most one `*`/`/` factor. */
  function Term(toks: seq<Token>, i: nat): (r: Result<Parsed<TermNode>, ParseError>)
    requires i <= |toks|
    ensures r.Success? ==> i < r.value.next <= |toks|
    decreases |toks| - i, 2
  {
    match Factor(toks, i)
    case Failure(err) => Failure(err)
    case Success(left) =>
      var op := Peek(toks, left.next, 0);
      if op.Asterisk? || op.Slash? then
        match Factor(toks, Advance(toks, left.next))
        case Failure(err) => Failure(err)
        case Success(right) =>
          Success(Parsed(BinaryFactors(left.node, if op.Asterisk? then MulOp else DivOp, right.node), right.next))
      else
        Success(Parsed(SingleFactor(left.node), left.next))
  }

  /** `FactorNode`: a parenthesised expression, a variable, or a literal. */
  function Factor(toks: seq<Token>, i: nat): (r: Result<Parsed<FactorNode>, ParseError>)
    requires i <= |toks|
    ensures r.Success? ==> i < r.value.next <= |toks|
    decreases |toks| - i, 1
  {
    var tok := Peek(toks, i, 0);
    match tok
    case OpenParenthesis =>
      (match Expression(toks, Advance(toks, i))
       case Failure(err) => Failure(err)
       case Success(inner) =>
         var close := Peek(toks, inner.next, 0);
         if !close.CloseParenthesis? then Failure(ParseError(close.Payload(), ")"))
         else Success(Parsed(Parenthesized(inner.node), Advance(toks, inner.next))))
    case Identifier(_) =>
      (match IdentifierName(toks, i)
       case Failure(err) => Failure(err)
       case Success(name) => Success(Parsed(Variable(name.node), name.next)))
    case Hyphen => ValueLiteral(toks, i)
    case Value(_) => ValueLiteral(toks, i)
    case _ => Failure(ParseError(tok.Payload(), "<factor>"))
  }

  /** `IdentiferNode`: exactly one identifier token. */
  function IdentifierName(toks: seq<Token>, i: nat): (r: Result<Parsed<string>, ParseError>)
    requires i <= |toks|
    ensures r.Success? <==> Peek(toks, i, 0).Identifier?
    ensures r.Success? ==> r.value == Parsed(Peek(toks, i, 0).name, i + 1) && i < |toks|
    ensures r.Failure? ==> r.error == ParseError(Peek(toks, i, 0).Payload(), "<identifer>")
  {
    var tok := Peek(toks, i, 0);
    if !tok.Identifier? then Failure(ParseError(tok.Payload(), "<identifer>"))
    else Success(Parsed(tok.name, Advance(toks, i)))
  }

  /**
    * `ValueNode`: an optional `-`, then the next token whatever its kind; only the first
    * token is checked.
    */
  function ValueLiteral(toks: seq<Token>, i: nat): (r: Result<Parsed<FactorNode>, ParseError>)
    requires i <= |toks|
    ensures r.Success? ==> i < r.value.next <= |toks|
  {
    var tok := Peek(toks, i, 0);
    if !(tok.Hyphen? || tok.Value?) then Failure(ParseError(tok.Payload(), "- or <value>"))
    else
      var negated := tok.Hyphen?;
      var j := if negated then Advance(toks, i) else i;
      Success(Parsed(Literal(negated, Peek(toks, j, 0)), Advance(toks, j)))
  }
}
