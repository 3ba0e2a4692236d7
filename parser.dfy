/**
  * The parse methods of the grammar-node classes. They share the tokenizer's token cursor,
  * advance it through `MoveNextToken`, and print one code line per instruction as they go;
  * here the printing appends to an `Emitter`. Each method is proved to do what the
  * corresponding `Grammar` rule describes: on success it leaves the cursor after the phrase
  * and has emitted exactly that phrase's code; on failure it reports the rule's parse error.
  */
module Parser {
  import opened Outcomes
  import opened Tokens
  import opened Syntax
  import opened Grammar
  import opened Scanning

  /** The code output, in the order the lines are printed. */
  class Emitter {
    var code: seq<Instr>

    constructor ()
      ensures code == []
    {
      code := [];
    }

    method Emit(ins: Instr)
      modifies this`code
      ensures code == old(code) + [ins]
    {
      code := code + [ins];
    }
  }

  /** The code of a block is the code of its statements, one after another. */
  lemma {:induction false} CompileBlockSnoc(stmts: seq<ExpressionNode>, s: ExpressionNode)
    ensures CompileBlock(stmts + [s]) == CompileBlock(stmts) + CompileExpression(s)
    decreases |stmts|
  {
    if stmts == [] {
      assert [] + [s] == [s];
      assert [s][1..] == [];
    } else {
      assert (stmts + [s])[1..] == stmts[1..] + [s];
      CompileBlockSnoc(stmts[1..], s);
    }
  }

  /** How `Expression` continues on an assignment lookahead. */
  lemma AssignmentUnfold(toks: seq<Token>, i: nat)
    requires i + 1 < |toks| && toks[i].Identifier? && toks[i + 1].Equals?
    ensures Expression(toks, i)
         == match Expression(toks, i + 2)
            case Failure(e) => Failure(e)
            case Success(rhs) => Success(Parsed(Assignment(toks[i].name, rhs.node), rhs.next))
  {
  }

  /** How `Expression` continues once the left term has been parsed. */
  lemma TermsUnfold(toks: seq<Token>, i: nat)
    requires i <= |toks| && !(Peek(toks, i, 0).Identifier? && Peek(toks, i, 1).Equals?)
    ensures Term(toks, i).Failure? ==> Expression(toks, i) == Failure(Term(toks, i).error)
    ensures Term(toks, i).Success? ==>
      var left := Term(toks, i).value;
      var op := Peek(toks, left.next, 0);
      if op.Plus? || op.Hyphen? then
        match Term(toks, Advance(toks, left.next))
        case Failure(e) => Expression(toks, i) == Failure(e)
        case Success(right) =>
          Expression(toks, i) == Success(Parsed(BinaryTerms(left.node, if op.Plus? then AddOp else SubOp, right.node), right.next))
      else
        Expression(toks, i) == Success(Parsed(SingleTerm(left.node), left.next))
  {
  }

  /** `done` statements parsed in front of what `rest` parses. */
  function Preceded(done: seq<ExpressionNode>, rest: Result<seq<ExpressionNode>, ParseError>): Result<seq<ExpressionNode>, ParseError> {
    match rest
    case Success(more) => Success(done + more)
    case Failure(e) => Failure(e)
  }

  /** A statement that fails to parse ends the block with its error. */
  lemma BlockStops(toks: seq<Token>, start: nat, done: seq<ExpressionNode>, i: nat)
    requires start <= |toks| && i <= |toks| && !Peek(toks, i, 0).Empty?
    requires Block(toks, start) == Preceded(done, Block(toks, i)) && Statement(toks, i).Failure?
    ensures Block(toks, start) == Failure(Statement(toks, i).error)
  {
  }

  /** A statement that parses joins the statements already parsed. */
  lemma BlockContinues(toks: seq<Token>, start: nat, done: seq<ExpressionNode>, i: nat, s: ExpressionNode, j: nat)
    requires start <= |toks| && i <= j <= |toks| && !Peek(toks, i, 0).Empty?
    requires Block(toks, start) == Preceded(done, Block(toks, i))
    requires Statement(toks, i) == Success(Parsed(s, j))
    ensures Block(toks, start) == Preceded(done + [s], Block(toks, j))
  {
    assert Block(toks, i) == Preceded([s], Block(toks, j));
    assert forall more :: done + ([s] + more) == (done + [s]) + more;
  }

  /** `BlockNode.parse`: statements until the lookahead is the `Empty` sentinel. */
  method ParseBlock(t: Tokenizer, out: Emitter) returns (err: Option<ParseError>)
    requires t.Valid()
    modifies t`index, out`code
    ensures t.Valid()
    ensures match Block(t.tokens, old(t.index))
      case Success(stmts) =>
        err == None && Peek(t.tokens, t.index, 0).Empty? && out.code == old(out.code) + CompileBlock(stmts)
      case Failure(e) => err == Some(e)
  {
    ghost var done: seq<ExpressionNode> := [];
    assert forall more :: done + more == more;
    while true
      invariant t.Valid()
      invariant out.code == old(out.code) + CompileBlock(done)
      invariant Block(t.tokens, old(t.index)) == Preceded(done, Block(t.tokens, t.index))
      decreases |t.tokens| - t.index
    {
      var tok := t.PeekToken(0);
      if tok.Empty? {
        assert done + [] == done;
        return None;
      }
      ghost var before := t.index;
      err := ParseStatement(t, out);
      if err.Some? {
        BlockStops(t.tokens, old(t.index), done, before);
        return;
      }
      ghost var s := Statement(t.tokens, before).value.node;
      BlockContinues(t.tokens, old(t.index), done, before, s, t.index);
      CompileBlockSnoc(done, s);
      done := done + [s];
    }
  }

  /** `StatementNode.parse`: an expression, then a `;`. */
  method ParseStatement(t: Tokenizer, out: Emitter) returns (err: Option<ParseError>)
    requires t.Valid()
    modifies t`index, out`code
    ensures t.Valid()
    ensures match Statement(t.tokens, old(t.index))
      case Success(p) =>
        err == None && t.index == p.next && out.code == old(out.code) + CompileExpression(p.node)
      case Failure(e) => err == Some(e)
  {
    err := ParseExpression(t, out);
    if err.Some? {
      return;
    }
    var tok := t.PeekToken(0);
    if !tok.Semicolon? {
      return Some(ParseError(tok.Payload(), ";"));
    }
    t.MoveNextToken();
  }

  /**
    * `ExpressionNode.parse`: on an identifier followed by `=`, an assignment; otherwise a
    * term and at most one `+`/`-` term.
    */
  method ParseExpression(t: Tokenizer, out: Emitter) returns (err: Option<ParseError>)
    requires t.Valid()
    modifies t`index, out`code
    ensures t.Valid()
    ensures match Expression(t.tokens, old(t.index))
      case Success(p) =>
        err == None && t.index == p.next && out.code == old(out.code) + CompileExpression(p.node)
      case Failure(e) => err == Some(e)
    decreases |t.tokens| - t.index, 4
  {
    var first := t.PeekToken(0);
    var second := t.PeekToken(1);
    if first.Identifier? && second.Equals? {
      AssignmentUnfold(t.tokens, t.index);
      err := ParseAssignment(t, out);
    } else {
      TermsUnfold(t.tokens, t.index);
      err := ParseSum(t, out);
    }
  }

  /** The assignment branch: the target's address, the value's code, then `store`. */
  method ParseAssignment(t: Tokenizer, out: Emitter) returns (err: Option<ParseError>)
    requires t.Valid() && t.index + 1 < |t.tokens|
    requires t.tokens[t.index].Identifier? && t.tokens[t.index + 1].Equals?
    modifies t`index, out`code
    ensures t.Valid()
    ensures match Expression(t.tokens, old(t.index) + 2)
      case Success(p) =>
        err == None && t.index == p.next
        && out.code == old(out.code) + CompileExpression(Assignment(t.tokens[old(t.index)].name, p.node))
      case Failure(e) => err == Some(e)
    decreases |t.tokens| - t.index, 3
  {
    err := ParseIdentifier(t, out);
    t.MoveNextToken();
    err := ParseExpression(t, out);
    if err.Some? {
      return;
    }
    out.Emit(Store);
  }

  /** The other branch: a term and at most one `+`/`-` term, then `add`/`sub`. */
  method ParseSum(t: Tokenizer, out: Emitter) returns (err: Option<ParseError>)
    requires t.Valid()
    modifies t`index, out`code
    ensures t.Valid()
    ensures match Term(t.tokens, old(t.index))
      case Failure(e) => err == Some(e)
      case Success(left) =>
        var op := Peek(t.tokens, left.next, 0);
        if op.Plus? || op.Hyphen? then
          match Term(t.tokens, Advance(t.tokens, left.next))
          case Failure(e) => err == Some(e)
          case Success(right) =>
            err == None && t.index == right.next
            && out.code == old(out.code) + CompileExpression(BinaryTerms(left.node, if op.Plus? then AddOp else SubOp, right.node))
        else
          err == None && t.index == left.next && out.code == old(out.code) + CompileExpression(SingleTerm(left.node))
    decreases |t.tokens| - t.index, 3
  {
    err := ParseTerm(t, out);
    if err.Some? {
      return;
    }
    var op := t.PeekToken(0);
    if op.Plus? || op.Hyphen? {
      t.MoveNextToken();
      err := ParseTerm(t, out);
      if err.Some? {
        return;
      }
      out.Emit(if op.Plus? then Add else Sub);
    }
  }

  /** `TermNode.parse`: a factor and at most one `*`/`/` factor, then `mul`/`div`. */
  method ParseTerm(t: Tokenizer, out: Emitter) returns (err: Option<ParseError>)
    requires t.Valid()
    modifies t`index, out`code
    ensures t.Valid()
    ensures match Term(t.tokens, old(t.index))
      case Success(p) =>
        err == None && t.index == p.next && out.code == old(out.code) + CompileTerm(p.node)
      case Failure(e) => err == Some(e)
    decreases |t.tokens| - t.index, 2
  {
    err := ParseFactor(t, out);
    if err.Some? {
      return;
    }
    var op := t.PeekToken(0);
    if op.Asterisk? || op.Slash? {
      t.MoveNextToken();
      err := ParseFactor(t, out);
      if err.Some? {
        return;
      }
      out.Emit(if op.Asterisk? then Mul else Div);
    }
  }

  /**
    * `FactorNode.parse`: a parenthesised expression emits only the inner code; a variable
    * its address and `load`; `-` or a number goes to the value rule; anything else fails.
    */
  method ParseFactor(t: Tokenizer, out: Emitter) returns (err: Option<ParseError>)
    requires t.Valid()
    modifies t`index, out`code
    ensures t.Valid()
    ensures match Factor(t.tokens, old(t.index))
      case Success(p) =>
        err == None && t.index == p.next && out.code == old(out.code) + CompileFactor(p.node)
      case Failure(e) => err == Some(e)
    decreases |t.tokens| - t.index, 1
  {
    var tok := t.PeekToken(0);
    match tok
    case OpenParenthesis =>
      t.MoveNextToken();
      err := ParseExpression(t, out);
      if err.Some? {
        return;
      }
      var close := t.PeekToken(0);
      if !close.CloseParenthesis? {
        return Some(ParseError(close.Payload(), ")"));
      }
      t.MoveNextToken();
    case Identifier(_) =>
      err := ParseIdentifier(t, out);
      out.Emit(Load);
    case Hyphen =>
      err := ParseValue(t, out);
    case Value(_) =>
      err := ParseValue(t, out);
    case _ =>
      err := Some(ParseError(tok.Payload(), "<factor>"));
  }

  /** `IdentiferNode.parse`: one identifier, whose address is pushed. */
  method ParseIdentifier(t: Tokenizer, out: Emitter) returns (err: Option<ParseError>)
    requires t.Valid()
    modifies t`index, out`code
    ensures t.Valid()
    ensures match IdentifierName(t.tokens, old(t.index))
      case Success(p) =>
        err == None && t.index == p.next && out.code == old(out.code) + [PushAddr(p.node)]
      case Failure(e) => err == Some(e) && t.index == old(t.index) && out.code == old(out.code)
  {
    var tok := t.PeekToken(0);
    if !tok.Identifier? {
      return Some(ParseError(tok.Payload(), "<identifer>"));
    }
    var name := tok.name;
    t.MoveNextToken();
    out.Emit(PushAddr(name));
    err := None;
  }

  /**
    * `ValueNode.parse`: checks only that the lookahead is `-` or a number, takes an optional
    * `-` as the sign, then consumes the next token unchecked and pushes its value times the sign.
    */
  method ParseValue(t: Tokenizer, out: Emitter) returns (err: Option<ParseError>)
    requires t.Valid()
    modifies t`index, out`code
    ensures t.Valid()
    ensures match ValueLiteral(t.tokens, old(t.index))
      case Success(p) =>
        err == None && t.index == p.next && out.code == old(out.code) + CompileFactor(p.node)
      case Failure(e) => err == Some(e) && t.index == old(t.index) && out.code == old(out.code)
  {
    var sign := 1.0;
    var tok := t.PeekToken(0);
    if !(tok.Hyphen? || tok.Value?) {
      return Some(ParseError(tok.Payload(), "- or <value>"));
    }
    if tok.Hyphen? {
      sign := -1.0;
      t.MoveNextToken();
    }
    var operand := t.PeekToken(0);
    t.MoveNextToken();
    var ins := match operand.Payload()
      case Num(v) => PushValue(v * sign)
      case Str(s) => PushCoerced(s);
    assert ins == LiteralCode(tok.Hyphen?, operand);
    out.Emit(ins);
    err := None;
  }
}
