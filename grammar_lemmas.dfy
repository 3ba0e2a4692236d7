/**
  * The grammar functions and the phrase spelling are inverse to each other: every
  * well-formed phrase, spelled out and followed by a token its parser does not read on
  * into, is parsed back to itself (completeness); and every phrase the parser recognises
  * in a token list without sentinels is spelled by exactly the tokens it consumed, and
  * stops in front of the next one (soundness).
  */
module GrammarFacts {
  import opened Outcomes
  import opened Tokens
  import opened Syntax
  import opened Grammar

  /** The tokens `u` occur in `toks` from position `i` on. */
  predicate At(toks: seq<Token>, i: nat, u: seq<Token>) {
    i + |u| <= |toks| && toks[i..i + |u|] == u
  }

  lemma AtSplit(toks: seq<Token>, i: nat, a: seq<Token>, b: seq<Token>)
    requires At(toks, i, a + b)
    ensures At(toks, i, a) && At(toks, i + |a|, b)
  {
    assert toks[i..i + |a|] == toks[i..i + |a + b|][..|a|];
    assert toks[i + |a|..i + |a| + |b|] == toks[i..i + |a + b|][|a|..];
  }

  lemma AtJoin(toks: seq<Token>, i: nat, a: seq<Token>, b: seq<Token>)
    requires At(toks, i, a) && At(toks, i + |a|, b)
    ensures At(toks, i, a + b)
  {
    assert toks[i..i + |a + b|] == toks[i..i + |a|] + toks[i + |a|..i + |a| + |b|];
  }

  lemma AtHead(toks: seq<Token>, i: nat, u: seq<Token>)
    requires At(toks, i, u) && u != []
    ensures Peek(toks, i, 0) == toks[i] == u[0]
  {
    assert toks[i..i + |u|][0] == toks[i];
  }

  lemma AtSingle(toks: seq<Token>, i: nat)
    requires i < |toks|
    ensures At(toks, i, [toks[i]])
  {
  }

  // ---------------------------------------------------------------- first tokens

  /**
    * An assignment pushes the target's address, then the value's code, then stores; the
    * address is never loaded, since the value's code starts with a push.
    */
  lemma AssignmentTargetNotLoaded(x: string, rhs: ExpressionNode)
    ensures var code := CompileExpression(Assignment(x, rhs));
      code == [PushAddr(x)] + CompileExpression(rhs) + [Store]
      && |code| >= 3 && code[1] != Load && code[|code| - 1] == Store
  {
  }

  /** A well-formed phrase is spelled by at least one token, and its first token is a real one. */
  lemma {:induction false} ExpressionFirstToken(e: ExpressionNode)
    requires WellFormedExpression(e)
    ensures |ExpressionTokens(e)| > 0 && !ExpressionTokens(e)[0].Empty?
    decreases e, 2
  {
    match e
    case Assignment(_, _) =>
    case SingleTerm(t) => TermFirstToken(t);
    case BinaryTerms(l, _, _) => TermFirstToken(l);
  }

  lemma {:induction false} TermFirstToken(t: TermNode)
    requires WellFormedTerm(t)
    ensures |TermTokens(t)| > 0 && !TermTokens(t)[0].Empty?
    decreases t, 1
  {
    match t
    case SingleFactor(f) => FactorFirstToken(f);
    case BinaryFactors(l, _, _) => FactorFirstToken(l);
  }

  lemma {:induction false} FactorFirstToken(f: FactorNode)
    requires WellFormedFactor(f)
    ensures |FactorTokens(f)| > 0 && !FactorTokens(f)[0].Empty?
    decreases f, 0
  {
  }

  /** `;`, `)` and the end of input stop every expression. */
  lemma {:induction false} StopsBeforeTerminator(e: ExpressionNode, next: Token)
    requires next.Semicolon? || next.CloseParenthesis? || next.Empty?
    ensures StopsBefore(e, next)
  {
    if e.Assignment? {
      StopsBeforeTerminator(e.rhs, next);
    }
  }

  /**
    * A spelled-out term does not look like the start of an assignment unless it is a lone
    * variable followed by `=`.
    */
  lemma NotAssignmentStart(toks: seq<Token>, i: nat, t: TermNode)
    requires WellFormedTerm(t) && At(toks, i, TermTokens(t))
    requires !(t.SingleFactor? && t.factor.Variable? && Peek(toks, i + |TermTokens(t)|, 0).Equals?)
    ensures !(Peek(toks, i, 0).Identifier? && Peek(toks, i, 1).Equals?)
  {
    var f := if t.SingleFactor? then t.factor else t.left;
    TermFirstToken(t);
    AtHead(toks, i, TermTokens(t));
    if f.Variable? {
      if t.BinaryFactors? {
        assert TermTokens(t)[1] == MultiplicativeToken(t.mulOp);
        assert toks[i..i + |TermTokens(t)|][1] == toks[i + 1];
      }
    } else if f.Literal? {
      assert TermTokens(t)[0] == FactorTokens(f)[0];
    }
  }

  // ---------------------------------------------------------------- completeness

  /** Every well-formed expression is read back from its spelling, up to a token it stops before. */
  lemma {:induction false} ExpressionComplete(toks: seq<Token>, i: nat, e: ExpressionNode)
    requires WellFormedExpression(e) && At(toks, i, ExpressionTokens(e))
    requires StopsBefore(e, Peek(toks, i + |ExpressionTokens(e)|, 0))
    ensures Expression(toks, i) == Success(Parsed(e, i + |ExpressionTokens(e)|))
    decreases e, 4
  {
    match e
    case Assignment(_, _) => AssignmentComplete(toks, i, e);
    case SingleTerm(_) => SingleTermComplete(toks, i, e);
    case BinaryTerms(_, _, _) => BinaryTermsComplete(toks, i, e);
  }

  lemma {:induction false} AssignmentComplete(toks: seq<Token>, i: nat, e: ExpressionNode)
    requires e.Assignment? && WellFormedExpression(e) && At(toks, i, ExpressionTokens(e))
    requires StopsBefore(e, Peek(toks, i + |ExpressionTokens(e)|, 0))
    ensures Expression(toks, i) == Success(Parsed(e, i + |ExpressionTokens(e)|))
    decreases e, 3
  {
    var x, rhs := e.target, e.rhs;
    AtSplit(toks, i, [Identifier(x), Equals], ExpressionTokens(rhs));
    assert toks[i..i + 2][0] == toks[i] && toks[i..i + 2][1] == toks[i + 1];
    assert IdentifierName(toks, i) == Success(Parsed(x, i + 1));
    ExpressionComplete(toks, i + 2, rhs);
  }

  lemma {:induction false} SingleTermComplete(toks: seq<Token>, i: nat, e: ExpressionNode)
    requires e.SingleTerm? && WellFormedExpression(e) && At(toks, i, ExpressionTokens(e))
    requires StopsBefore(e, Peek(toks, i + |ExpressionTokens(e)|, 0))
    ensures Expression(toks, i) == Success(Parsed(e, i + |ExpressionTokens(e)|))
    decreases e, 3
  {
    NotAssignmentStart(toks, i, e.term);
    TermComplete(toks, i, e.term);
  }

  /** The expression rule on a non-assignment start with a `+`/`-` after the first term. */
  lemma ExpressionBinaryStep(toks: seq<Token>, i: nat, l: TermNode, j: nat, op: AdditiveOp, r: TermNode, k: nat)
    requires i <= |toks| && !(Peek(toks, i, 0).Identifier? && Peek(toks, i, 1).Equals?)
    requires Term(toks, i) == Success(Parsed(l, j))
    requires Peek(toks, j, 0) == AdditiveToken(op)
    requires Term(toks, j + 1) == Success(Parsed(r, k))
    ensures Expression(toks, i) == Success(Parsed(BinaryTerms(l, op, r), k))
  {
  }

  /** The term rule with a `*`/`/` after the first factor. */
  lemma TermBinaryStep(toks: seq<Token>, i: nat, l: FactorNode, j: nat, op: MultiplicativeOp, r: FactorNode, k: nat)
    requires i <= |toks|
    requires Factor(toks, i) == Success(Parsed(l, j))
    requires Peek(toks, j, 0) == MultiplicativeToken(op)
    requires Factor(toks, j + 1) == Success(Parsed(r, k))
    ensures Term(toks, i) == Success(Parsed(BinaryFactors(l, op, r), k))
  {
  }

  /** A spelling made of a left part, one operator token and a right part. */
  lemma AtAround(toks: seq<Token>, i: nat, a: seq<Token>, m: Token, b: seq<Token>)
    requires At(toks, i, a + [m] + b)
    ensures At(toks, i, a) && Peek(toks, i + |a|, 0) == m && At(toks, i + |a| + 1, b)
  {
    AtSplit(toks, i, a + [m], b);
    AtSplit(toks, i, a, [m]);
    AtHead(toks, i + |a|, [m]);
  }

  lemma {:induction false} BinaryTermsComplete(toks: seq<Token>, i: nat, e: ExpressionNode)
    requires e.BinaryTerms? && WellFormedExpression(e) && At(toks, i, ExpressionTokens(e))
    requires StopsBefore(e, Peek(toks, i + |ExpressionTokens(e)|, 0))
    ensures Expression(toks, i) == Success(Parsed(e, i + |ExpressionTokens(e)|))
    decreases e, 3
  {
    var l, op, r := e.left, e.addOp, e.right;
    var j := i + |TermTokens(l)|;
    var k := j + 1 + |TermTokens(r)|;
    assert ExpressionTokens(e) == TermTokens(l) + [AdditiveToken(op)] + TermTokens(r);
    assert i + |ExpressionTokens(e)| == k;
    OperandsComplete(toks, i, e, l, j, op, r, k);
    assert e == BinaryTerms(l, op, r);
  }

  /** Two terms spelled out around a `+`/`-` are read back as one expression. */
  lemma {:induction false} OperandsComplete(toks: seq<Token>, i: nat, e: ExpressionNode,
                                            l: TermNode, j: nat, op: AdditiveOp, r: TermNode, k: nat)
    requires e.BinaryTerms? && l == e.left && r == e.right
    requires WellFormedTerm(l) && WellFormedTerm(r)
    requires At(toks, i, TermTokens(l) + [AdditiveToken(op)] + TermTokens(r))
    requires j == i + |TermTokens(l)| && k == j + 1 + |TermTokens(r)|
    requires TermStopsBefore(r, Peek(toks, k, 0))
    ensures Expression(toks, i) == Success(Parsed(BinaryTerms(l, op, r), k))
    decreases e, 2
  {
    AtAround(toks, i, TermTokens(l), AdditiveToken(op), TermTokens(r));
    OperandTerms(toks, i, e, l, j, r, k);
    NotAssignmentStart(toks, i, l);
    ExpressionBinaryStep(toks, i, l, j, op, r, k);
  }

  lemma {:induction false} OperandTerms(toks: seq<Token>, i: nat, e: ExpressionNode, l: TermNode, j: nat, r: TermNode, k: nat)
    requires e.BinaryTerms? && l == e.left && r == e.right
    requires WellFormedTerm(l) && WellFormedTerm(r)
    requires At(toks, i, TermTokens(l)) && j == i + |TermTokens(l)| && TermStopsBefore(l, Peek(toks, j, 0))
    requires At(toks, j + 1, TermTokens(r)) && k == j + 1 + |TermTokens(r)| && TermStopsBefore(r, Peek(toks, k, 0))
    ensures Term(toks, i) == Success(Parsed(l, j)) && Term(toks, j + 1) == Success(Parsed(r, k))
    decreases e, 1
  {
    TermCompleteTo(toks, i, l, j);
    TermCompleteTo(toks, j + 1, r, k);
  }

  /** `TermComplete` with the end of the term's spelling given as `j`. */
  lemma {:induction false} TermCompleteTo(toks: seq<Token>, i: nat, t: TermNode, j: nat)
    requires WellFormedTerm(t) && At(toks, i, TermTokens(t))
    requires j == i + |TermTokens(t)| && TermStopsBefore(t, Peek(toks, j, 0))
    ensures Term(toks, i) == Success(Parsed(t, j))
    decreases t, 4
  {
    TermComplete(toks, i, t);
  }

  lemma {:induction false} TermComplete(toks: seq<Token>, i: nat, t: TermNode)
    requires WellFormedTerm(t) && At(toks, i, TermTokens(t))
    requires TermStopsBefore(t, Peek(toks, i + |TermTokens(t)|, 0))
    ensures Term(toks, i) == Success(Parsed(t, i + |TermTokens(t)|))
    decreases t, 3
  {
    match t
    case SingleFactor(f) =>
      FactorComplete(toks, i, f);
    case BinaryFactors(l, op, r) =>
      BinaryFactorsComplete(toks, i, t);
  }

  lemma {:induction false} BinaryFactorsComplete(toks: seq<Token>, i: nat, t: TermNode)
    requires t.BinaryFactors? && WellFormedTerm(t) && At(toks, i, TermTokens(t))
    ensures Term(toks, i) == Success(Parsed(t, i + |TermTokens(t)|))
    decreases t, 2
  {
    var l, op, r := t.left, t.mulOp, t.right;
    var j := i + |FactorTokens(l)|;
    var k := j + 1 + |FactorTokens(r)|;
    assert TermTokens(t) == FactorTokens(l) + [MultiplicativeToken(op)] + FactorTokens(r);
    assert i + |TermTokens(t)| == k;
    FactorOperandsComplete(toks, i, t, l, j, op, r, k);
    assert t == BinaryFactors(l, op, r);
  }

  /** Two factors spelled out around a `*`/`/` are read back as one term. */
  lemma {:induction false} FactorOperandsComplete(toks: seq<Token>, i: nat, t: TermNode,
                                                  l: FactorNode, j: nat, op: MultiplicativeOp, r: FactorNode, k: nat)
    requires t.BinaryFactors? && l == t.left && r == t.right
    requires WellFormedFactor(l) && WellFormedFactor(r)
    requires At(toks, i, FactorTokens(l) + [MultiplicativeToken(op)] + FactorTokens(r))
    requires j == i + |FactorTokens(l)| && k == j + 1 + |FactorTokens(r)|
    ensures Term(toks, i) == Success(Parsed(BinaryFactors(l, op, r), k))
    decreases t, 1
  {
    AtAround(toks, i, FactorTokens(l), MultiplicativeToken(op), FactorTokens(r));
    FactorPairComplete(toks, i, t, l, j, r, k);
    TermBinaryStep(toks, i, l, j, op, r, k);
  }

  lemma {:induction false} FactorPairComplete(toks: seq<Token>, i: nat, t: TermNode,
                                              l: FactorNode, j: nat, r: FactorNode, k: nat)
    requires t.BinaryFactors? && l == t.left && r == t.right
    requires WellFormedFactor(l) && WellFormedFactor(r)
    requires At(toks, i, FactorTokens(l)) && j == i + |FactorTokens(l)|
    requires At(toks, j + 1, FactorTokens(r)) && k == j + 1 + |FactorTokens(r)|
    ensures Factor(toks, i) == Success(Parsed(l, j)) && Factor(toks, j + 1) == Success(Parsed(r, k))
    decreases t, 0
  {
    FactorComplete(toks, i, l);
    FactorComplete(toks, j + 1, r);
  }

  lemma {:induction false} FactorComplete(toks: seq<Token>, i: nat, f: FactorNode)
    requires WellFormedFactor(f) && At(toks, i, FactorTokens(f))
    ensures Factor(toks, i) == Success(Parsed(f, i + |FactorTokens(f)|))
    decreases f, 1
  {
    match f
    case Parenthesized(e) =>
      var j := i + 1 + |ExpressionTokens(e)|;
      assert FactorTokens(f) == [OpenParenthesis] + ExpressionTokens(e) + [CloseParenthesis];
      assert i + |FactorTokens(f)| == j + 1;
      InnerComplete(toks, i, f, e, j);
      ParenthesizedStep(toks, i, e, j);
    case Variable(x) =>
      AtHead(toks, i, [Identifier(x)]);
    case Literal(negated, operand) =>
      if negated {
        assert FactorTokens(f) == [Hyphen, operand];
        assert toks[i..i + 2][0] == toks[i] && toks[i..i + 2][1] == toks[i + 1];
      } else {
        AtHead(toks, i, [operand]);
      }
  }

  /** The factor rule on `(`, with the inner expression followed by `)`. */
  lemma ParenthesizedStep(toks: seq<Token>, i: nat, e: ExpressionNode, j: nat)
    requires i < |toks| && toks[i].OpenParenthesis?
    requires Expression(toks, i + 1) == Success(Parsed(e, j)) && Peek(toks, j, 0).CloseParenthesis?
    ensures Factor(toks, i) == Success(Parsed(Parenthesized(e), j + 1))
  {
  }

  /** The expression spelled out between `(` and `)` is read back up to the `)`. */
  lemma {:induction false} InnerComplete(toks: seq<Token>, i: nat, f: FactorNode, e: ExpressionNode, j: nat)
    requires f.Parenthesized? && e == f.inner && WellFormedExpression(e)
    requires At(toks, i, [OpenParenthesis] + ExpressionTokens(e) + [CloseParenthesis])
    requires j == i + 1 + |ExpressionTokens(e)|
    ensures i < |toks| && toks[i].OpenParenthesis? && Peek(toks, j, 0).CloseParenthesis?
    ensures Expression(toks, i + 1) == Success(Parsed(e, j))
    decreases f, 0
  {
    var u := ExpressionTokens(e);
    AtSplit(toks, i, [OpenParenthesis] + u, [CloseParenthesis]);
    AtSplit(toks, i, [OpenParenthesis], u);
    AtHead(toks, i, [OpenParenthesis]);
    AtHead(toks, j, [CloseParenthesis]);
    StopsBeforeTerminator(e, CloseParenthesis);
    ExpressionComplete(toks, i + 1, e);
  }

  /** A well-formed statement followed by its `;` is read back, consuming exactly those tokens. */
  lemma StatementComplete(toks: seq<Token>, i: nat, e: ExpressionNode)
    requires WellFormedExpression(e) && At(toks, i, ExpressionTokens(e) + [Semicolon])
    ensures Statement(toks, i) == Success(Parsed(e, i + |ExpressionTokens(e)| + 1))
  {
    AtSplit(toks, i, ExpressionTokens(e), [Semicolon]);
    AtHead(toks, i + |ExpressionTokens(e)|, [Semicolon]);
    StopsBeforeTerminator(e, Semicolon);
    ExpressionComplete(toks, i, e);
  }

  /** The spelling of a block of well-formed statements parses back to exactly those statements. */
  lemma {:induction false} BlockComplete(toks: seq<Token>, i: nat, stmts: seq<ExpressionNode>)
    requires i <= |toks| && toks[i..] == BlockTokens(stmts)
    requires forall k :: 0 <= k < |stmts| ==> WellFormedExpression(stmts[k])
    ensures Block(toks, i) == Success(stmts)
    decreases |stmts|
  {
    if stmts != [] {
      var u := ExpressionTokens(stmts[0]) + [Semicolon];
      assert toks[i..] == u + BlockTokens(stmts[1..]);
      assert toks[i..i + |u|] == u;
      ExpressionFirstToken(stmts[0]);
      assert toks[i] == u[0];
      StatementComplete(toks, i, stmts[0]);
      assert toks[i + |u|..] == BlockTokens(stmts[1..]);
      BlockComplete(toks, i + |u|, stmts[1..]);
      assert [stmts[0]] + stmts[1..] == stmts;
    }
  }

  // ---------------------------------------------------------------- soundness

  /**
    * What the expression rule recognises is spelled by exactly the tokens it consumed, and
    * the rule stops in front of the token after them.
    */
  lemma {:induction false} ExpressionSound(toks: seq<Token>, i: nat)
    requires i <= |toks| && NoEmpty(toks) && Expression(toks, i).Success?
    ensures var p := Expression(toks, i).value;
      At(toks, i, ExpressionTokens(p.node)) && p.next == i + |ExpressionTokens(p.node)|
      && StopsBefore(p.node, Peek(toks, p.next, 0))
    decreases |toks| - i, 5
  {
    if Peek(toks, i, 0).Identifier? && Peek(toks, i, 1).Equals? {
      AssignmentSound(toks, i);
    } else {
      TermsSound(toks, i);
    }
  }

  lemma {:induction false} AssignmentSound(toks: seq<Token>, i: nat)
    requires i <= |toks| && NoEmpty(toks) && Expression(toks, i).Success?
    requires Peek(toks, i, 0).Identifier? && Peek(toks, i, 1).Equals?
    ensures var p := Expression(toks, i).value;
      At(toks, i, ExpressionTokens(p.node)) && p.next == i + |ExpressionTokens(p.node)|
      && StopsBefore(p.node, Peek(toks, p.next, 0))
    decreases |toks| - i, 4
  {
    var p := Expression(toks, i).value;
    var x := toks[i].name;
    assert IdentifierName(toks, i) == Success(Parsed(x, i + 1));
    ExpressionSound(toks, i + 2);
    var rhs := Expression(toks, i + 2).value;
    assert p == Parsed(Assignment(x, rhs.node), rhs.next);
    assert toks[i..i + 2] == [Identifier(x), Equals];
    AtJoin(toks, i, [Identifier(x), Equals], ExpressionTokens(rhs.node));
  }

  /** The converse of `AtAround`. */
  lemma AtAroundJoin(toks: seq<Token>, i: nat, a: seq<Token>, m: Token, b: seq<Token>)
    requires At(toks, i, a) && i + |a| < |toks| && toks[i + |a|] == m && At(toks, i + |a| + 1, b)
    ensures At(toks, i, a + [m] + b)
  {
    AtSingle(toks, i + |a|);
    AtJoin(toks, i, a, [m]);
    AtJoin(toks, i, a + [m], b);
  }

  lemma {:induction false} TermsSound(toks: seq<Token>, i: nat)
    requires i <= |toks| && NoEmpty(toks) && Expression(toks, i).Success?
    requires !(Peek(toks, i, 0).Identifier? && Peek(toks, i, 1).Equals?)
    ensures var p := Expression(toks, i).value;
      At(toks, i, ExpressionTokens(p.node)) && p.next == i + |ExpressionTokens(p.node)|
      && StopsBefore(p.node, Peek(toks, p.next, 0))
    decreases |toks| - i, 4
  {
    TermSound(toks, i);
    var left := Term(toks, i).value;
    var op := Peek(toks, left.next, 0);
    if op.Plus? || op.Hyphen? {
      BinaryTermsSound(toks, i, left);
    } else {
      assert Expression(toks, i).value == Parsed(SingleTerm(left.node), left.next);
      if left.node.SingleFactor? && left.node.factor.Variable? {
        AtHead(toks, i, TermTokens(left.node));
      }
    }
  }

  lemma {:induction false} BinaryTermsSound(toks: seq<Token>, i: nat, left: Parsed<TermNode>)
    requires i <= |toks| && NoEmpty(toks) && Expression(toks, i).Success?
    requires !(Peek(toks, i, 0).Identifier? && Peek(toks, i, 1).Equals?)
    requires Term(toks, i) == Success(left)
    requires At(toks, i, TermTokens(left.node)) && left.next == i + |TermTokens(left.node)|
    requires Peek(toks, left.next, 0).Plus? || Peek(toks, left.next, 0).Hyphen?
    ensures var p := Expression(toks, i).value;
      At(toks, i, ExpressionTokens(p.node)) && p.next == i + |ExpressionTokens(p.node)|
      && StopsBefore(p.node, Peek(toks, p.next, 0))
    decreases |toks| - i, 3
  {
    var aop := if Peek(toks, left.next, 0).Plus? then AddOp else SubOp;
    assert Term(toks, left.next + 1).Success?;
    TermSound(toks, left.next + 1);
    var right := Term(toks, left.next + 1).value;
    ExpressionBinaryStep(toks, i, left.node, left.next, aop, right.node, right.next);
    AtAroundJoin(toks, i, TermTokens(left.node), AdditiveToken(aop), TermTokens(right.node));
  }

  lemma {:induction false} TermSound(toks: seq<Token>, i: nat)
    requires i <= |toks| && NoEmpty(toks) && Term(toks, i).Success?
    ensures var p := Term(toks, i).value;
      At(toks, i, TermTokens(p.node)) && p.next == i + |TermTokens(p.node)|
      && TermStopsBefore(p.node, Peek(toks, p.next, 0))
    decreases |toks| - i, 3
  {
    FactorSound(toks, i);
    var left := Factor(toks, i).value;
    var op := Peek(toks, left.next, 0);
    if op.Asterisk? || op.Slash? {
      BinaryFactorsSound(toks, i, left);
    }
  }

  lemma {:induction false} BinaryFactorsSound(toks: seq<Token>, i: nat, left: Parsed<FactorNode>)
    requires i <= |toks| && NoEmpty(toks) && Term(toks, i).Success?
    requires Factor(toks, i) == Success(left)
    requires At(toks, i, FactorTokens(left.node)) && left.next == i + |FactorTokens(left.node)|
    requires Peek(toks, left.next, 0).Asterisk? || Peek(toks, left.next, 0).Slash?
    ensures var p := Term(toks, i).value;
      At(toks, i, TermTokens(p.node)) && p.next == i + |TermTokens(p.node)|
    decreases |toks| - i, 2
  {
    var mop := if Peek(toks, left.next, 0).Asterisk? then MulOp else DivOp;
    assert Factor(toks, left.next + 1).Success?;
    FactorSound(toks, left.next + 1);
    var right := Factor(toks, left.next + 1).value;
    TermBinaryStep(toks, i, left.node, left.next, mop, right.node, right.next);
    AtAroundJoin(toks, i, FactorTokens(left.node), MultiplicativeToken(mop), FactorTokens(right.node));
  }

  lemma {:induction false} FactorSound(toks: seq<Token>, i: nat)
    requires i <= |toks| && NoEmpty(toks) && Factor(toks, i).Success?
    ensures var p := Factor(toks, i).value;
      At(toks, i, FactorTokens(p.node)) && p.next == i + |FactorTokens(p.node)|
    decreases |toks| - i, 2
  {
    var tok := Peek(toks, i, 0);
    match tok
    case OpenParenthesis =>
      ParenthesizedSound(toks, i);
    case Identifier(_) =>
      AtSingle(toks, i);
    case Hyphen =>
      AtSingle(toks, i);
      if i + 1 < |toks| {
        AtSingle(toks, i + 1);
        AtJoin(toks, i, [Hyphen], [toks[i + 1]]);
      }
    case Value(_) =>
      AtSingle(toks, i);
    case _ =>
  }

  lemma {:induction false} ParenthesizedSound(toks: seq<Token>, i: nat)
    requires i < |toks| && NoEmpty(toks) && toks[i].OpenParenthesis? && Factor(toks, i).Success?
    ensures var p := Factor(toks, i).value;
      At(toks, i, FactorTokens(p.node)) && p.next == i + |FactorTokens(p.node)|
    decreases |toks| - i, 1
  {
    assert Expression(toks, i + 1).Success?;
    ExpressionSound(toks, i + 1);
    var inner := Expression(toks, i + 1).value;
    assert Factor(toks, i).value == Parsed(Parenthesized(inner.node), inner.next + 1);
    AtSingle(toks, i);
    AtJoin(toks, i, [OpenParenthesis], ExpressionTokens(inner.node));
    AtAroundJoin(toks, i, [OpenParenthesis] + ExpressionTokens(inner.node), CloseParenthesis, []);
  }

  lemma StatementSound(toks: seq<Token>, i: nat)
    requires i <= |toks| && NoEmpty(toks) && Statement(toks, i).Success?
    ensures var p := Statement(toks, i).value;
      At(toks, i, ExpressionTokens(p.node) + [Semicolon]) && p.next == i + |ExpressionTokens(p.node)| + 1
  {
    ExpressionSound(toks, i);
    var e := Expression(toks, i).value;
    AtSingle(toks, e.next);
    AtJoin(toks, i, ExpressionTokens(e.node), [Semicolon]);
  }

  /** A block parsed from a token list without sentinels is spelled by the whole rest of the list. */
  lemma {:induction false} BlockSound(toks: seq<Token>, i: nat)
    requires i <= |toks| && NoEmpty(toks) && Block(toks, i).Success?
    ensures toks[i..] == BlockTokens(Block(toks, i).value)
    decreases |toks| - i
  {
    if !Peek(toks, i, 0).Empty? {
      assert Statement(toks, i).Success?;
      StatementSound(toks, i);
      var s := Statement(toks, i).value;
      BlockSound(toks, s.next);
      var rest := Block(toks, s.next).value;
      BlockStep(toks, i, s.node, s.next, rest);
      BlockSpelled(toks, i, s.node, s.next, rest);
    }
  }

  /** The block rule on a statement followed by a block. */
  lemma BlockStep(toks: seq<Token>, i: nat, e: ExpressionNode, j: nat, rest: seq<ExpressionNode>)
    requires i <= j <= |toks| && !Peek(toks, i, 0).Empty?
    requires Statement(toks, i) == Success(Parsed(e, j)) && Block(toks, j) == Success(rest)
    ensures Block(toks, i) == Success([e] + rest)
  {
  }

  lemma BlockSpelled(toks: seq<Token>, i: nat, e: ExpressionNode, j: nat, rest: seq<ExpressionNode>)
    requires At(toks, i, ExpressionTokens(e) + [Semicolon]) && j == i + |ExpressionTokens(e)| + 1
    requires toks[j..] == BlockTokens(rest)
    ensures toks[i..] == BlockTokens([e] + rest)
  {
    assert ([e] + rest)[1..] == rest;
    assert toks[i..] == toks[i..j] + toks[j..];
  }

  /**
    * The block rule accepts a token list without sentinels exactly when the list spells a
    * sequence of statements, and then it returns those statements.
    */
  lemma BlockExact(toks: seq<Token>, stmts: seq<ExpressionNode>)
    requires NoEmpty(toks)
    requires forall k :: 0 <= k < |stmts| ==> WellFormedExpression(stmts[k])
    ensures Block(toks, 0) == Success(stmts) <==> toks == BlockTokens(stmts)
  {
    assert toks[0..] == toks;
    if toks == BlockTokens(stmts) {
      BlockComplete(toks, 0, stmts);
    }
    if Block(toks, 0) == Success(stmts) {
      BlockSound(toks, 0);
    }
  }
}
