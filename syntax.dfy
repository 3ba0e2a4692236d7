/**
  * The phrase structure the recursive-descent parser recognises, the stack-machine
  * instructions it emits for each phrase, and the token spelling of each phrase.
  */
module Syntax {
  import opened Tokens

  /**
    * The code lines the parser prints: `push &name`, `push v`, `load`, `store`, `add`,
    * `sub`, `mul`, `div`. `PushCoerced(text)` is `push v` where `v` is a string operand
    * multiplied by -1 under the host's string-to-number coercion, which is not evaluated here.
    */
  datatype Instr =
    | PushAddr(name: string)
    | PushValue(v: real)
    | PushCoerced(text: string)
    | Load
    | Store
    | Add
    | Sub
    | Mul
    | Div

  datatype AdditiveOp = AddOp | SubOp
  datatype MultiplicativeOp = MulOp | DivOp

  /** `ExpressionNode`: an assignment, or a term with at most one `+`/`-` and a second term. */
  datatype ExpressionNode =
    | Assignment(target: string, rhs: ExpressionNode)
    | SingleTerm(term: TermNode)
    | BinaryTerms(left: TermNode, addOp: AdditiveOp, right: TermNode)

  /** `TermNode`: a factor with at most one `*`/`/` and a second factor. */
  datatype TermNode =
    | SingleFactor(factor: FactorNode)
    | BinaryFactors(left: FactorNode, mulOp: MultiplicativeOp, right: FactorNode)

  /**
    * `FactorNode`: a parenthesised expression, a variable, or a `ValueNode` literal. A literal
    * keeps the operand token it consumed, which after a `-` may be any token at all (or the
    * `Empty` sentinel when the `-` was the last token).
    */
  datatype FactorNode =
    | Parenthesized(inner: ExpressionNode)
    | Variable(name: string)
    | Literal(negated: bool, operand: Token)

  // ---------------------------------------------------------------- code generation

  /** The instructions that put a new item on the stack: an address or a value. */
  predicate IsPush(ins: Instr) {
    ins.PushAddr? || ins.PushValue? || ins.PushCoerced?
  }

  /**
    * The code of an expression, in postfix order: operands before the operator, the
    * assigned value before `store`. It always starts by pushing something.
    */
  function CompileExpression(e: ExpressionNode): (code: seq<Instr>)
    ensures |code| > 0 && IsPush(code[0])
  {
    match e
    case Assignment(x, rhs) => [PushAddr(x)] + CompileExpression(rhs) + [Store]
    case SingleTerm(t) => CompileTerm(t)
    case BinaryTerms(l, op, r) => CompileTerm(l) + CompileTerm(r) + [if op == AddOp then Add else Sub]
  }

  function CompileTerm(t: TermNode): (code: seq<Instr>)
    ensures |code| > 0 && IsPush(code[0])
  {
    match t
    case SingleFactor(f) => CompileFactor(f)
    case BinaryFactors(l, op, r) => CompileFactor(l) + CompileFactor(r) + [if op == MulOp then Mul else Div]
  }

  function CompileFactor(f: FactorNode): (code: seq<Instr>)
    ensures |code| > 0 && IsPush(code[0])
  {
    match f
    case Parenthesized(e) => CompileExpression(e)
    case Variable(x) => [PushAddr(x), Load]
    case Literal(negated, operand) => [LiteralCode(negated, operand)]
  }

  /**
    * `push value * sign`: a numeric operand times the sign, exact; any other operand is
    * left to the host's coercion of its text.
    */
  function LiteralCode(negated: bool, operand: Token): (ins: Instr)
    ensures operand.Value? ==> ins == PushValue((if negated then -1.0 else 1.0) * operand.number)
    ensures !operand.Value? ==> ins == PushCoerced(operand.Payload().s)
  {
    match operand.Payload()
    case Num(v) => PushValue(if negated then -v else v)
    case Str(s) => PushCoerced(s)
  }

  /** The code of the statements of a block, one after another. */
  function CompileBlock(stmts: seq<ExpressionNode>): seq<Instr> {
    if stmts == [] then [] else CompileExpression(stmts[0]) + CompileBlock(stmts[1..])
  }

  // ---------------------------------------------------------------- spelling

  function AdditiveToken(op: AdditiveOp): Token {
    if op == AddOp then Plus else Hyphen
  }

  function MultiplicativeToken(op: MultiplicativeOp): Token {
    if op == MulOp then Asterisk else Slash
  }

  function ExpressionTokens(e: ExpressionNode): seq<Token> {
    match e
    case Assignment(x, rhs) => [Identifier(x), Equals] + ExpressionTokens(rhs)
    case SingleTerm(t) => TermTokens(t)
    case BinaryTerms(l, op, r) => TermTokens(l) + [AdditiveToken(op)] + TermTokens(r)
  }

  function TermTokens(t: TermNode): seq<Token> {
    match t
    case SingleFactor(f) => FactorTokens(f)
    case BinaryFactors(l, op, r) => FactorTokens(l) + [MultiplicativeToken(op)] + FactorTokens(r)
  }

  function FactorTokens(f: FactorNode): seq<Token> {
    match f
    case Parenthesized(e) => [OpenParenthesis] + ExpressionTokens(e) + [CloseParenthesis]
    case Variable(x) => [Identifier(x)]
    case Literal(negated, operand) =>
      (if negated then [Hyphen] else []) + (if operand.Empty? then [] else [operand])
  }

  /** Each statement followed by its `;`. */
  function BlockTokens(stmts: seq<ExpressionNode>): seq<Token> {
    if stmts == [] then [] else ExpressionTokens(stmts[0]) + [Semicolon] + BlockTokens(stmts[1..])
  }

  // ---------------------------------------------------------------- well-formedness

  /**
    * Phrases whose spelling the parser reads back as the same phrase: a literal's operand
    * is a real token, and a literal without `-` has a numeric operand.
    */
  predicate WellFormedExpression(e: ExpressionNode) {
    match e
    case Assignment(_, rhs) => WellFormedExpression(rhs)
    case SingleTerm(t) => WellFormedTerm(t)
    case BinaryTerms(l, _, r) => WellFormedTerm(l) && WellFormedTerm(r)
  }

  predicate WellFormedTerm(t: TermNode) {
    match t
    case SingleFactor(f) => WellFormedFactor(f)
    case BinaryFactors(l, _, r) => WellFormedFactor(l) && WellFormedFactor(r)
  }

  predicate WellFormedFactor(f: FactorNode) {
    match f
    case Parenthesized(e) => WellFormedExpression(e)
    case Variable(_) => true
    case Literal(negated, operand) => !operand.Empty? && (negated || operand.Value?)
  }

  /**
    * The parser of `e` stops in front of the token `next` rather than reading on: a lone
    * term is not followed by `+` or `-`, a lone factor not by `*` or `/`, and a lone
    * variable not by `=` (which would make it an assignment target).
    */
  predicate StopsBefore(e: ExpressionNode, next: Token) {
    match e
    case Assignment(_, rhs) => StopsBefore(rhs, next)
    case SingleTerm(t) =>
      !next.Plus? && !next.Hyphen? && TermStopsBefore(t, next)
      && !(t.SingleFactor? && t.factor.Variable? && next.Equals?)
    case BinaryTerms(_, _, r) => TermStopsBefore(r, next)
  }

  predicate TermStopsBefore(t: TermNode, next: Token) {
    t.SingleFactor? ==> !next.Asterisk? && !next.Slash?
  }
}
