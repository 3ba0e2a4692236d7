# scalc front end in Dafny

`index.js` is the front end of a small calculator language. A program is a sequence of
statements, each ended by `;`. A statement is an assignment `name = expression`, or an
expression built from `+ - * /`, parentheses, names and decimal literals. The front end
has three parts:

- a `Tokenizer` object that scans the text into tokens once, at construction;
- a token cursor (`peekToken` / `moveNextToken`);
- a recursive-descent parser, one class per grammar rule, that prints stack-machine code
  (`push &name`, `push v`, `load`, `store`, `add`, `sub`, `mul`, `div`) while it parses.

The model keeps that shape. Each module and what it holds:

| module | file | holds |
|---|---|---|
| `Tokens` | `tokens.dfy` | The `Token` datatype. Its constructors are the members of `Kind`. `Payload()` is the JavaScript `token.value`. Also the cursor functions `Peek` / `Advance` and `ParseError(found, needed)`. |
| `Lexer` | `lexer.dfy` | The character classes. Also a pure reference scanner `Lex(s)`, which gives the token list of the text `s`, or `None` for the tokenize error. |
| `LexerFacts` | `lexer_lemmas.dfy` | What `Lex` does with literals, names, operators, whitespace and foreign characters. |
| `Scanning` | `tokenizer.dfy` | The `Tokenizer` class. Its fields are `text`, `pos`, `tokens` and `index`. Its methods mirror `_tokenize`, `_skipWhitespace`, `_peekChar`, `_moveNextChar`, `peekToken` and `moveNextToken`. `Tokenize` is proved to append exactly `Lex(text[pos..])`, and to fail exactly when `Lex` does. |
| `Syntax` | `syntax.dfy` | The phrase datatypes (`ExpressionNode`, `TermNode`, `FactorNode`) and the instructions (`Instr`). Also the code each phrase compiles to (`Compile*`), and the token spelling of each phrase (`*Tokens`). |
| `Grammar` | `grammar.dfy` | The grammar rules as functions from a token list and a cursor to a phrase and the next cursor, or to the `ParseError` the rule throws. |
| `GrammarFacts` | `grammar_lemmas.dfy` | Parsing and spelling are inverse. Completeness: a well-formed phrase, spelled out, parses back to itself. Soundness: every parsed phrase is spelled by exactly the tokens it consumed. Also facts about the emitted code. |
| `Parser` | `parser.dfy` | The `parse` methods of `BlockNode` … `ValueNode`, working on the shared `Tokenizer`. `console.log` becomes appends to an `Emitter`'s `code: seq<Instr>`. Each method is proved to move the cursor as its `Grammar` rule says, and to emit exactly the code of the phrase that rule recognises, or to return the rule's error. |
| `Quirks` | `quirks.dfy` | The consequences of the grammar's shape, each with a concrete program. Sums and products do not chain. Assignments nest to the right. A `-` takes any token as its operand. `%` does not scan. |

Numbers are exact `real`s. A literal's value is the integer formed by all its digits,
divided by ten to the number of fractional digits, as the source computes it. A throw
becomes a returned error: `Option<ParseError>` from the parse methods, and `None` / `false`
from the scanner.

## Model

| member | source | states |
|---|---|---|
| Tokens.Peek | index.js:50-53 | `peekToken(step)`: in a token list without sentinels, the result is the `Empty` sentinel exactly when the position is out of range. |
| Tokens.Advance | index.js:54-58 | `moveNextToken`: the cursor moves one step exactly when it is inside the list, and otherwise stays. A cursor within the list's bounds stays within them. |
| Lexer.IsSpace | index.js:109-115 | A whitespace character is not a digit, a letter, an operator or `.`, so it never starts a token. |
| Lexer.IsDigit | index.js:116-121 | A character is a digit exactly when its `parseInt` value is 0 to 9. A digit is not a letter, an operator or `.`. |
| Lexer.IsAlpha | index.js:122-127 | A letter is neither an operator nor `.`. |
| Lexer.OperatorToken | index.js:90-100 | Exactly the eight characters `+ - * / = ; ( )` are operators, and each token's value is its own character. |
| Lexer.LeadingRun | index.js:81-86 | Gives the length of the maximal run of letters or digits at the head of the text: every character inside belongs, and the next one does not. |
| Lexer.ScanNumber | index.js:63-79 | A numeric literal consumes at least one character and stays within the text. |
| Lexer.Lex | index.js:59-108 | The scanner never produces the `Empty` sentinel. |
| LexerFacts.ScanNumberStops | index.js:63-79 | A literal ends before any character that is neither a digit nor `.`. Nothing after that character changes its value or length. |
| LexerFacts.FractionStops | index.js:72-76 | The fractional digits end before the first non-digit. |
| LexerFacts.LexSingle | index.js:90-100 | A lone whitespace character scans to no token. A lone operator scans to its own token. |
| LexerFacts.LexSeparated | index.js:59-108 | Whitespace and operators split the text: the text on either side is scanned independently, and the results are concatenated in source order. |
| LexerFacts.LexRejects | index.js:102-103 | A character outside whitespace, digits, letters, `.` and the operators, anywhere in the text, makes the whole scan fail. |
| LexerFacts.LexWord | index.js:81-88 | A run of letters is one identifier token holding exactly that text. |
| LexerFacts.WordThenAny | index.js:81-88 | A name is the maximal run of letters: any following non-letter, a digit included (`ab1`), ends the identifier token, and scanning starts again at that character. |
| LexerFacts.LexInteger | index.js:63-79 | A run of digits is one `Value` token holding the integer it spells. |
| LexerFacts.NumberThenAny | index.js:63-79 | An integer literal is the maximal run of digits: any following character that is neither a digit nor `.` (a letter included, as in `12ab`) ends the `Value` token holding that integer, and scanning starts again at that character. |
| LexerFacts.ScanDecimal | index.js:63-79 | `d1..dk.f1..fm` is read whole. Its value is all k+m digits over 10^m. |
| LexerFacts.DecimalValue | index.js:71-77 | All k+m digits over 10^m equals the integer part plus the fractional digits over 10^m. |
| LexerFacts.LexDecimal | index.js:63-79 | `d1..dk.f1..fm` alone is exactly one `Value` token, whose value is the decimal number it denotes. |
| LexerFacts.LexExamples | index.js:63-79 | `1.25` scans to the value 1.25. `1.` scans to 1, because the divisor stays 1. |
| LexerFacts.ScanInteger | index.js:63-79 | A literal of k digits, not followed by a digit or `.`, has length k and the value those digits spell. |
| LexerFacts.ScanFraction | index.js:63-78 | A literal of k digits, `.`, then m digits, not followed by a digit, has length k+1+m. Its value is all k+m digits over 10^m. |
| Scanning.Tokenizer.constructor | index.js:42-47 | Starts with both cursors at 0 and no tokens. |
| Scanning.Tokenizer.PeekToken | index.js:50-53 | Returns the token `step` places after the cursor, or the `Empty` sentinel out of range. |
| Scanning.Tokenizer.MoveNextToken | index.js:54-58 | Advances the token cursor by one only while it is inside the list, and keeps it within bounds. |
| Scanning.Tokenizer.MoveNextChar | index.js:137-141 | Advances the character cursor by one only while it is inside the text. |
| Scanning.Tokenizer.SkipWhitespace | index.js:128-132 | Skips exactly the maximal whitespace run, without changing what the rest scans to. |
| Scanning.Tokenizer.Tokenize | index.js:59-108 | Succeeds exactly when the reference scanner does. Then it has appended exactly the reference tokens and stopped at the end of the text. |
| Scanning.Tokenizer.ScanToken | index.js:61-106 | One pass of the loop, after the whitespace. A digit yields the `Value` token of the reference literal and consumes exactly its length. A letter yields the identifier of exactly the maximal letter run. An operator yields its own token and consumes one character. The end of the text is reported exactly when the cursor is there. The tokenize error comes back exactly when the character is none of these. In each case the text consumed scans to exactly the token returned. |
| Scanning.Tokenizer.ScanNumberAt | index.js:63-79 | The literal branch consumes exactly the reference literal's characters and computes its value. |
| Scanning.Tokenizer.ScanIntegerDigits | index.js:64-68 | The first digit loop consumes the maximal digit run and folds it into the integer it spells. |
| Scanning.Tokenizer.ScanFractionAt | index.js:69-78 | After `.`, consumes the fractional digits. The value is the accumulator divided by `pow`, which equals the reference value. |
| Scanning.Tokenizer.ScanFractionDigits | index.js:71-76 | The second digit loop consumes the maximal digit run, keeps folding into `sum`, and leaves `pow` = 10^(digits read). |
| Scanning.Tokenizer.ScanIdentifierAt | index.js:81-87 | Collects exactly the maximal letter run. |
| Scanning.FoldedConcat | index.js:64-76 | Folding more digits into the value of the integer digits gives the value of all the digits together. |
| Scanning.NumberWithFraction | index.js:69-78 | The accumulator and `pow` left by the two loops give the reference literal's value and length. |
| Scanning.Open | index.js:42-49 | `new Tokenizer(text)` fails exactly when the reference scanner fails. Otherwise it holds exactly `Lex(text)`, with the token cursor at 0. |
| Grammar.Statement | index.js:152-160 | A statement that parses consumes at least two tokens, an expression and a `;`, so the cursor strictly advances. |
| Grammar.Expression | index.js:162-185 | An expression that parses consumes at least one token. |
| Grammar.Term | index.js:187-202 | A term that parses consumes at least one token. |
| Grammar.Factor | index.js:204-230 | A factor that parses consumes at least one token. |
| Grammar.IdentifierName | index.js:232-242 | Succeeds exactly on an identifier lookahead, with its name and the cursor after it. Otherwise it fails with needed `<identifer>`. |
| Grammar.ValueLiteral | index.js:244-258 | A value that parses consumes at least one token. |
| Grammar.Block | index.js:144-150 | A block parsed from position `i` is empty exactly when the lookahead there is the `Empty` sentinel. It holds at most half as many statements as there are tokens left, since each statement takes at least two. |
| Syntax.CompileExpression | index.js:162-185 | The code of every expression is non-empty and starts with a push (an address or a value). |
| Syntax.CompileTerm | index.js:187-202 | The code of every term is non-empty and starts with a push. |
| Syntax.CompileFactor | index.js:204-230 | The code of every factor is non-empty and starts with a push. |
| Syntax.LiteralCode | index.js:255-257 | A numeric operand is pushed as its value times the sign (-1 after `-`, otherwise 1). Any other operand is pushed as its text, left to the host's coercion. |
| Parser.ParseBlock | index.js:144-150 | On success, stops at the `Empty` sentinel having emitted the code of every statement in order. Otherwise returns the error of the first statement that fails. |
| Parser.ParseStatement | index.js:152-160 | Parses an expression and requires `;`, failing with that token's value and needed `;`. On success it has emitted exactly the expression's code. |
| Parser.ParseExpression | index.js:162-185 | Cursor, emitted code and error are exactly those of `Grammar.Expression`. |
| Parser.ParseAssignment | index.js:164-169 | Emits `push &name`, then the code of the right-hand expression, then `store`. |
| Parser.ParseSum | index.js:170-183 | A term, then at most one `+`/`-` term. Emits left code, right code, then `add` or `sub`. |
| Parser.ParseTerm | index.js:187-202 | A factor, then at most one `*`/`/` factor. Emits left code, right code, then `mul` or `div`. |
| Parser.ParseFactor | index.js:204-230 | `( e )` emits only the code of `e`, and fails with needed `)` when the `)` is missing. A name emits `push &name` then `load`. `-` or a number goes to the value rule. Anything else fails with needed `<factor>`. |
| Parser.ParseIdentifier | index.js:232-242 | One identifier: pushes its address and advances. Otherwise fails with needed `<identifer>`, consuming and emitting nothing. |
| Parser.ParseValue | index.js:244-258 | Checks only that the lookahead is `-` or a number. Takes an optional `-`, consumes the next token unchecked, and pushes its value times the sign. |
| GrammarFacts.AssignmentTargetNotLoaded | index.js:164-169 | An assignment's code is the target's address, the value's code, then `store`. The address is never followed by `load`. |
| GrammarFacts.ExpressionComplete | index.js:162-185 | A well-formed expression, spelled out and followed by a token it stops before, parses back to itself and consumes exactly its spelling. |
| GrammarFacts.TermComplete | index.js:187-202 | The same for terms. |
| GrammarFacts.FactorComplete | index.js:204-230 | The same for factors. |
| GrammarFacts.StatementComplete | index.js:152-160 | A well-formed expression followed by `;` parses back as that statement. |
| GrammarFacts.BlockComplete | index.js:144-150 | The spelling of well-formed statements parses back to exactly those statements. |
| GrammarFacts.ExpressionSound | index.js:162-185 | In a list without sentinels, a parsed expression is spelled by exactly the tokens it consumed, and stops before the token after them. |
| GrammarFacts.TermSound | index.js:187-202 | The same for terms. |
| GrammarFacts.FactorSound | index.js:204-230 | The same for factors. |
| GrammarFacts.StatementSound | index.js:152-160 | A parsed statement is its expression's spelling followed by `;`. |
| GrammarFacts.BlockSound | index.js:144-150 | A parsed block is spelled by the whole rest of the token list. |
| GrammarFacts.BlockExact | index.js:144-160 | A sentinel-free token list parses to well-formed statements exactly when it spells them. |
| Quirks.SumsDoNotChain | index.js:152-183 | After `a + b`, a second `+`/`-` is left for the statement, which fails with that operator and needed `;`. |
| Quirks.ProductsDoNotChain | index.js:187-201 | After `a * b`, a second `*`/`/` ends the expression, and the statement fails with it and needed `;`. |
| Quirks.AssignmentByLookahead | index.js:164-166 | An expression is an assignment exactly when it starts with an identifier followed by `=`, and that identifier is the target. |
| Quirks.FactorRejects | index.js:206-227 | A factor parses only from `(`, a name, `-` or a number. Any other lookahead, `Empty` included, fails with needed `<factor>`. An unclosed parenthesis fails with needed `)`. |
| Quirks.ValueRejects | index.js:246-250 | The value rule fails exactly when the lookahead is neither `-` nor a number, with needed `- or <value>`. |
| Quirks.MinusTakesAnyToken | index.js:251-257 | After `-`, whatever token follows, or the sentinel at the end, becomes the operand. A number operand is pushed negated. |
| Quirks.ChainedSumScan | index.js:63-104 | `a+b+c;` over digits scans to three values, two `+` and `;`. |
| Quirks.ChainedSumRejected | index.js:152-185 | `1+2+3;` fails at the second `+` with needed `;`. |
| Quirks.ChainedAssignmentScan | index.js:63-104 | `x=y=d;` scans to two names, two `=`, a value and `;`. |
| Quirks.ChainedAssignment | index.js:162-169 | `x=y=2;` nests to the right: `push &x`, `push &y`, `push 2`, `store`, `store`. |
| Quirks.DanglingMinus | index.js:244-258 | `-;;` is accepted: the `-` swallows the first `;` as its operand. |
| Quirks.ModuloRejected | index.js:102-103 | `7%2;` does not scan. |

## Left out

- The text of the printed code lines (`console.log` at index.js:168, 177, 180, 195, 198, 219, 240, 257). Each line is an `Instr` appended to `Emitter.code`; the string formatting is output only.
- The hard-coded demo run at index.js:268-269. It only applies `Open` and `ParseBlock` to one fixed text.
- The message string built at index.js:30. A `ParseError` keeps only the (found value, needed) pair.
- The numeric `Kind` codes (index.js:8-23). Tokens are only ever compared by kind, so the kind is a constructor of `Token`.
- IEEE-754 floating point. Numbers are exact `real`s, so the rounding of `sum`, `sum /= pow` and `value * sign` is not modelled.
- Host coercion. A non-numeric operand after `-` is multiplied by -1 by the host, which yields `NaN` or a coerced number. It is emitted as `PushCoerced(text)` and not evaluated.
- Parser.ParseBlock: when a statement fails, the code already printed for the earlier statements (and for the failing statement's earlier parts) stays printed. The contract states only the error on that path, not the code emitted before it.
- Scanning.Tokenizer.PeekChar: `_peekChar` (index.js:133-136) is a plain function of the cursor. The `''` it returns at the end is `None`. It has no contract of its own and is used by the scanning methods.
- Grammar.IdentifierName, Parser.ParseIdentifier: the needed string is `<identifer>`, as spelled in the code, rather than `<identifier>`.
