# go-calculator: the parser core in Dafny

This project models the core of a small interactive calculator written in Go
(`go_calculator.go`). Each input line, as delivered by `ReadBytes('\n')`, is
parsed by a recursive-descent parser into a syntax tree:

    statement  -> expression ('=' expression)?
    expression -> term (('+' | '-') term)*
    term       -> factor (('*' | '/') factor)*
    factor     -> letter | digit

The model has five modules:

- `Lexer` (`lexer.dfy`) holds the byte helpers `digitVal`, `isAlpha` and
  `isDigit`. It has the scanners `getNum` and `getSymbol` as loop methods.
  It also has the decimal rendering of `fmt.Sprintf("%d")` and the function
  `Decimal`, which states what `getNum` computes. Bytes are a `newtype` over
  `0..255`, and Go's wrapping `b - '0'` is written out as `% 256`.
- `Syntax` (`syntax.dfy`) holds the tree `Num | Symbol | BinOp | AssignOp`
  and its `String` renderings. It also has `Unparse`, the full text of a
  tree, and the predicates `TermShape`, `ExprShape` and `StmtShape`, which
  describe the trees the grammar can build.
- `Environment` (`environment.dfy`) holds the variable table `Env` as a
  class with a `map` field, plus `NewEnv`, `Set`, `envValue` and the
  evaluator `Eval`.
- `Parser` (`parser.dfy`) states each parse function as a specification
  function. The operator loops are tail-recursive folds (`TermTail`,
  `ExprTail`) over the accumulated tree. The Go `for` loops are `while`
  loops in `ParseTerm` and `ParseExpression`, proved equal to those
  functions.
- `ParserProperties` and `ParserExamples` (`parser_props.dfy`,
  `parser_examples.dfy`) hold the lemmas about the parser.

The Go program panics in three cases: an invalid factor, a non-symbol in
front of `=`, and reading `b[0]` or `n[0]` of an empty slice. The model
returns `Err(InvalidFactor)`, `Err(NotSymbol)` and `Err(IndexOutOfRange)`
instead.

The main results are these:

- Input that ends in a newline never reaches `IndexOutOfRange`.
- Every remainder is a non-empty suffix of the input that keeps the
  newline. Once an operator loop takes a turn, it returns at least two
  bytes fewer than it was given.
- A successful parse always gives a tree of the grammar's left-leaning
  shape, and the consumed prefix is exactly that tree's `Unparse` text.
- Conversely, every such tree is what the parser returns for its own text
  followed by any byte that is none of `+ - * / =`.

Together these fix the precedence and the left associativity for every
input. Concrete lines such as `2+3*4`, `1-2-3` and `a*b/c` are worked
examples of them.

The model follows the code as written, including where a reader might
expect more:

- `parseFactor` hands only the one-byte slice `b[:1]` to `getSymbol` and
  `getNum`, and it returns `b[1:]`. So a factor is one letter or one digit.
  `12` parses as `Num(1)` and leaves `2`; it is not read as one number.
- Every `Eval` returns its argument unchanged. There is no arithmetic
  evaluation, no division-by-zero error and no unbound-variable error.
- Blanks are not skipped.

## Model

| member | source | states |
|---|---|---|
| `Lexer.AlphaMatchesClass` | go_calculator.go:74-76 | `IsAlpha` holds exactly when the bracket expression `[A-Za-z]`, read as a list of ASCII ranges, matches the one-byte input. A byte at or above 0x80 never matches. |
| `Lexer.DigitMatchesClass` | go_calculator.go:77-79 | `IsDigit` holds exactly when the bracket expression `[0-9]`, read as a list of ASCII ranges, matches the one-byte input. |
| `Lexer.DigitVal` | go_calculator.go:61-63 | The result of the wrapping byte subtraction is always in `0..255`, so never negative. It is below 10 exactly when the byte is an ASCII digit, and it is then that digit's value. |
| `Lexer.GetNum` | go_calculator.go:47-59 | The returned number is `Decimal(buf)`: every byte's `digitVal` is shifted in as the next base-10 digit. The returned `nbuf` is always empty, because the `d >= 0` exit is never taken. |
| `Lexer.GetSymbol` | go_calculator.go:65-73 | `sym ++ nbuf == buf`. Every byte of `sym` is an ASCII letter or digit. `nbuf` is empty or starts with a byte that is neither, so `sym` is the longest alphanumeric prefix. |
| `Lexer.RenderNat` | go_calculator.go:90-92 | The `%d` rendering of a non-negative number is a non-empty run of ASCII digits. It starts with `0` only when the number is 0. |
| `Lexer.RenderInt` | go_calculator.go:90-92 | The `%d` rendering of any integer is non-empty. It is all digits exactly when the number is non-negative, and then it reads back to the number. A negative number renders as `-` followed by the digits of its absolute value. |
| `Lexer.DecimalOfRender` | go_calculator.go:127-134 | Reading a rendered non-negative number back with `getNum` gives the number. This is the round trip `envValue` relies on. |
| `Lexer.RenderOfDecimal` | go_calculator.go:47-63 | The converse round trip: take a digit string with no leading zero, read it with `getNum`, render the value, and you get the same string. |
| `Syntax.Ast.String` | go_calculator.go:88-105 | `Num` renders in decimal: a non-negative one as digits that read back to its value with `getNum`, a negative one as `-` and the digits of its absolute value. `Symbol` and `AssignOp` render as the variable's name (lines 143-145). `BinOp` renders as the UTF-8 text of its operator byte (lines 174-176): that byte alone below 0x80, and in every case a sequence that decodes to it. |
| `Syntax.RuneText` | go_calculator.go:174-176 | `string(b.Op)` converts the byte as a code point: one byte exactly when it is below 0x80, otherwise a two-byte sequence with lead byte 0xC2 or 0xC3 and a continuation byte. Either way it decodes back to the operator byte. |
| `Environment.NewEnv` | go_calculator.go:116-120 | Returns a fresh table whose map is empty. |
| `Environment.Set` | go_calculator.go:123-125 | The map becomes the old map with `key` bound to `Num(n)`. Every other key keeps its presence and its value. The table still holds only numbers. |
| `Environment.EnvValue` | go_calculator.go:127-134 | `ok` holds exactly when the key is bound. An unbound key gives `(0, false)`. A bound key gives `getNum` of the stored value's decimal rendering, which is the stored number itself when that number is non-negative. |
| `Environment.SetThenEnvValue` | go_calculator.go:123-134 | `Set(env, k, n)` followed by `envValue(env, k)` returns `(n, true)` for every `n >= 0`. Other bindings are unchanged. |
| `Environment.NewEnvIsEmpty` | go_calculator.go:116-134 | On a fresh table, `envValue` reports every key as unbound, with `(0, false)`. |
| `Environment.NegativeValueMisread` | go_calculator.go:127-134 | A stored `-5` reads back as `2535`, because `getNum` takes `'-'` as digit 253. |
| `Environment.Eval` | go_calculator.go:37-40 | The evaluator returns the tree it is given and does not touch the table. The same holds for the per-node `Eval` methods at lines 95-97, 108-110, 148-150 and 179-181. |
| `Parser.Factor` | go_calculator.go:205-217 | `parseFactor` succeeds exactly when the first byte is a letter or a digit. It then returns a one-letter or one-digit leaf and the rest `b[1:]`. An empty slice is the out-of-range read, and any other first byte is the invalid-factor failure on the whole slice. |
| `Parser.TermTail` | go_calculator.go:196-201 | The `*`/`/` loop returns a non-empty remainder no longer than its input. The remainder never starts with `*` or `/`, and it keeps a trailing newline. On newline-terminated input the loop never reads out of range, and it never fails with the not-symbol error. |
| `Parser.Term` | go_calculator.go:194-203 | `parseTerm` consumes at least one byte and leaves a non-empty remainder that keeps the trailing newline. The remainder never starts with `*` or `/`. On newline-terminated input it never reads out of range. |
| `Parser.ExprTail` | go_calculator.go:185-190 | The `+`/`-` loop returns a non-empty remainder no longer than its input. The remainder never starts with `+` or `-`, and it keeps a trailing newline. On newline-terminated input it never reads out of range. |
| `Parser.Expression` | go_calculator.go:183-192 | `parseExpression` consumes at least one byte and leaves a non-empty remainder that keeps the trailing newline. The remainder never starts with `+` or `-`. On newline-terminated input it never reads out of range. |
| `Parser.Statement` | go_calculator.go:152-164 | `parseStatement` consumes at least one byte and leaves a non-empty remainder. On newline-terminated input it never reads out of range. The `n[0]` test at line 154 is always in bounds. |
| `Parser.ParseFactor` | go_calculator.go:205-217 | The result equals `Factor`. A head letter gives `Symbol` of that one letter. A head digit gives `Num` of that digit's value. Either way the remainder is `b[1:]`, even though the code goes through `getSymbol(b[:1])` or `getNum(b[:1])`. Any other head byte is `InvalidFactor(b)`, and an empty slice is `IndexOutOfRange`. |
| `Parser.ParseTerm` | go_calculator.go:194-203 | The `for` loop, which reassigns `term` and `n`, returns exactly the left fold `Term` specifies. |
| `Parser.ParseExpression` | go_calculator.go:183-192 | The `for` loop, which reassigns `expr` and `n`, returns exactly the left fold `Expression` specifies. |
| `Parser.ParseStatement` | go_calculator.go:152-164 | Returns exactly `Statement`. |
| `Parser.Read` | go_calculator.go:43-45 | Returns what `parseStatement` returns. On a newline-terminated line it never reads out of range, and a successful result leaves a non-empty proper suffix. |
| `ParserProperties.FactorOfUnparse` | go_calculator.go:205-217 | A one-letter symbol or one-digit number is one byte of text, and `parseFactor` reads it back whatever follows. |
| `ParserProperties.FactorShape` | go_calculator.go:205-217 | The leaf `parseFactor` returns has exactly the consumed byte as its text, so the input is the leaf's text followed by the rest. |
| `ParserProperties.TermOfUnparse` | go_calculator.go:194-203 | Parsing the text of a term-shaped tree leads into the `*`/`/` loop with that tree already built. |
| `ParserProperties.TermTailShape` | go_calculator.go:196-201 | Each turn of the `*`/`/` loop keeps the term shape. It makes the left operand the tree built so far and consumes exactly the text it adds. |
| `ParserProperties.TermShapeOf` | go_calculator.go:194-203 | A successful `parseTerm` returns a term-shaped tree, and the input is that tree's text followed by the remainder. |
| `ParserProperties.TermTailProgress` | go_calculator.go:196-201 | Once the `*`/`/` loop takes a turn, a successful result leaves at least two bytes fewer than the loop was given: the operator and a factor. |
| `ParserProperties.ExprTailProgress` | go_calculator.go:185-190 | Once the `+`/`-` loop takes a turn, a successful result leaves at least two bytes fewer than the loop was given: the operator and a term. |
| `ParserProperties.ExprOfUnparse` | go_calculator.go:183-192 | Parsing the text of an expression-shaped tree, followed by a byte that is not `*` or `/`, leads into the `+`/`-` loop with that tree built. |
| `ParserProperties.ExprTailShape` | go_calculator.go:185-190 | Each turn of the `+`/`-` loop keeps the expression shape. A whole term is its right operand, and it consumes exactly the text it adds. |
| `ParserProperties.ExpressionShapeOf` | go_calculator.go:183-192 | A successful `parseExpression` returns an expression-shaped tree, and the input is that tree's text followed by the remainder. |
| `ParserProperties.StatementOfUnparse` | go_calculator.go:152-164 | Take any statement-shaped tree, and follow its text by a byte that is none of `+ - * / =`. That text parses back to exactly the tree, and the remainder is exactly the follower. |
| `ParserProperties.StatementShapeOf` | go_calculator.go:152-164 | A successful `parseStatement` returns an expression, or an assignment of an expression to a single letter. The input is that tree's text followed by the remainder. |
| `ParserProperties.NotSymbolExactly` | go_calculator.go:154-161 | The not-symbol failure happens exactly when `=` follows an expression that is not a bare symbol. |
| `ParserProperties.RemainderIsSuffix` | go_calculator.go:152-164 | The remainder of a successful parse is a suffix of the input, and it keeps the input's trailing newline. |
| `ParserExamples.Precedence` | go_calculator.go:183-203 | `2+3*4` gives `BinOp('+', 2, BinOp('*', 3, 4))`. |
| `ParserExamples.SubtractionLeansLeft` | go_calculator.go:183-192 | `1-2-3` gives `BinOp('-', BinOp('-', 1, 2), 3)`. |
| `ParserExamples.MulDivLeanLeft` | go_calculator.go:194-203 | `a*b/c` gives `BinOp('/', BinOp('*', a, b), c)`. |
| `ParserExamples.Assignment` | go_calculator.go:152-164 | `x=5` gives `AssignOp(x, 5)`. |
| `ParserExamples.OneDigitFactor` | go_calculator.go:205-217 | `12` gives `Num(1)` and leaves `2\n`. |
| `ParserExamples.NumberIsNoTarget` | go_calculator.go:154-161 | `2=3` is the not-symbol failure on `Num(2)`. |
| `ParserExamples.OperatorIsNoFactor` | go_calculator.go:214-216 | `+1` is the invalid-factor failure on the whole input. |
| `ParserExamples.MissingNewline` | go_calculator.go:194-203 | `a` without a newline, and the empty line, read past the end. |
| `ParserExamples.SecondEqualsLeftOver` | go_calculator.go:152-164 | `a=b=c` assigns `b` to `a` and leaves `=c\n` unconsumed. |
| `ParserExamples.NoBlanks` | go_calculator.go:205-217 | `2 +3` stops after `2` and leaves ` +3\n`. |

## Left out

- `main` and `readEvalPrint` (go_calculator.go:10-35) are left out. They read
  standard input, print the prompt and the result, and print the table in
  map-iteration order; all of that is I/O. `Read` is modelled, and
  `readEvalPrint` throws away the remainder it returns.
- `isAlpha` and `isDigit` compile a regular expression and match it for
  each byte. The model states what a bracket expression of ASCII ranges
  matches on one byte (`ClassMatch`). Compiling the pattern and the
  regular-expression engine itself are not part of this model.
- `GetNum`: Go's fixed-width `int` overflow in `n*10 + d` is not modelled;
  numbers are unbounded. The method requires a non-empty buffer, because
  the Go code indexes `buf[0]` unconditionally. Every caller passes a
  non-empty slice.
- `Environment.Set`: the stored value is an unbounded integer, not a
  64-bit Go `int`.
- `Environment.EnvValue`: the round trip holds only for non-negative
  values. For a negative value the contract states only the `getNum`
  reading of its rendering, and `NegativeValueMisread` shows one such
  value. The method requires the table invariant "every stored value is a
  `Num`", which holds because only `Set` writes the map.
- `fmt.Sprintf("%d")` is modelled only as the decimal rendering of an
  integer.
- There is no arithmetic evaluator, and no division-by-zero or
  unbound-variable error, because the code has none.
- The panic messages ("invalid factor:", "value is not symbol:") are
  error values carrying the offending input or tree, not strings.
