/**
 * The recursive-descent parser
 *
 *   statement  -> expression ('=' expression)?
 *   expression -> term (('+' | '-') term)*
 *   term       -> factor (('*' | '/') factor)*
 *   factor     -> letter | digit
 *
 * Each parse returns a tree and the unconsumed rest of the input. The
 * functions below are the specification: the operator loops are written as
 * tail-recursive folds (`TermTail`, `ExprTail`) over the accumulated tree.
 * The methods are the loops themselves, proved equal to the functions.
 * Where the program panics (an invalid factor, a non-symbol before `=`, or
 * reading the first byte of an empty slice) the model returns an error.
 */
module Parser {
  import opened Lexer
  import opened Syntax

  datatype ParseError =
    | InvalidFactor(input: seq<byte>)   // "invalid factor:" + the input
    | NotSymbol(lhs: Ast)               // "value is not symbol:" + lhs.String()
    | IndexOutOfRange                   // `b[0]` or `n[0]` on an empty slice

  datatype Parsed = Parsed(ast: Ast, rest: seq<byte>)

  datatype Result<T> = Ok(value: T) | Err(error: ParseError)

  /** `s` is a (not necessarily proper) suffix of `t`. */
  predicate IsSuffix(s: seq<byte>, t: seq<byte>) {
    |s| <= |t| && s == t[|t| - |s|..]
  }

  /** The shape of every line `ReadBytes('\n')` hands over. */
  predicate EndsWithNewline(s: seq<byte>) {
    |s| > 0 && s[|s| - 1] == NEWLINE
  }

  /**
   * `parseFactor`: one byte, a letter or a digit, and nothing more. It
   * succeeds exactly on a letter or digit, with a leaf and the rest
   * `b[1:]`; an empty slice is the out-of-range read, anything else the
   * invalid-factor failure on the whole slice.
   */
  function Factor(b: seq<byte>): (r: Result<Parsed>)
    ensures r.Ok? <==> |b| > 0 && IsAlnum(b[0])
    ensures r.Ok? ==> IsLeaf(r.value.ast) && r.value.rest == b[1..]
    ensures |b| == 0 ==> r == Err(IndexOutOfRange)
    ensures |b| > 0 && !IsAlnum(b[0]) ==> r == Err(InvalidFactor(b))
  {
    if |b| == 0 then Err(IndexOutOfRange)
    else if IsAlpha(b[0]) then Ok(Parsed(Symbol([b[0]]), b[1..]))
    else if IsDigit(b[0]) then Ok(Parsed(Num(DigitVal(b[0])), b[1..]))
    else Err(InvalidFactor(b))
  }

  /** The `for n[0] == '*' || n[0] == '/'` loop of `parseTerm`, from `acc`. */
  function TermTail(acc: Ast, n: seq<byte>): (r: Result<Parsed>)
    ensures r.Ok? ==> 0 < |r.value.rest| <= |n|
    ensures r.Ok? && EndsWithNewline(n) ==> EndsWithNewline(r.value.rest)
    ensures r.Ok? ==> !IsMulOp(r.value.rest[0])
    ensures EndsWithNewline(n) ==> r != Err(IndexOutOfRange)
    ensures r.Err? ==> !r.error.NotSymbol?
    decreases |n|
  {
    if |n| == 0 then Err(IndexOutOfRange)
    else if IsMulOp(n[0]) then
      match Factor(n[1..])
      case Err(e) => Err(e)
      case Ok(p) => TermTail(BinOp(n[0], acc, p.ast), p.rest)
    else Ok(Parsed(acc, n))
  }

  /** `parseTerm`. */
  function Term(b: seq<byte>): (r: Result<Parsed>)
    ensures r.Ok? ==> 0 < |r.value.rest| < |b|
    ensures r.Ok? && EndsWithNewline(b) ==> EndsWithNewline(r.value.rest)
    ensures r.Ok? ==> !IsMulOp(r.value.rest[0])
    ensures EndsWithNewline(b) ==> r != Err(IndexOutOfRange)
    ensures r.Err? ==> !r.error.NotSymbol?
  {
    match Factor(b)
    case Err(e) => Err(e)
    case Ok(p) => TermTail(p.ast, p.rest)
  }

  /** The `for n[0] == '+' || n[0] == '-'` loop of `parseExpression`, from `acc`. */
  function ExprTail(acc: Ast, n: seq<byte>): (r: Result<Parsed>)
    ensures r.Ok? ==> 0 < |r.value.rest| <= |n|
    ensures r.Ok? && EndsWithNewline(n) ==> EndsWithNewline(r.value.rest)
    ensures r.Ok? ==> !IsAddOp(r.value.rest[0])
    ensures EndsWithNewline(n) ==> r != Err(IndexOutOfRange)
    ensures r.Err? ==> !r.error.NotSymbol?
    decreases |n|
  {
    if |n| == 0 then Err(IndexOutOfRange)
    else if IsAddOp(n[0]) then
      match Term(n[1..])
      case Err(e) => Err(e)
      case Ok(p) => ExprTail(BinOp(n[0], acc, p.ast), p.rest)
    else Ok(Parsed(acc, n))
  }

  /** `parseExpression`. */
  function Expression(b: seq<byte>): (r: Result<Parsed>)
    ensures r.Ok? ==> 0 < |r.value.rest| < |b|
    ensures r.Ok? && EndsWithNewline(b) ==> EndsWithNewline(r.value.rest)
    ensures r.Ok? ==> !IsAddOp(r.value.rest[0])
    ensures EndsWithNewline(b) ==> r != Err(IndexOutOfRange)
    ensures r.Err? ==> !r.error.NotSymbol?
  {
    match Term(b)
    case Err(e) => Err(e)
    case Ok(p) => ExprTail(p.ast, p.rest)
  }

  /** `parseStatement`. */
  function Statement(b: seq<byte>): (r: Result<Parsed>)
    ensures r.Ok? ==> 0 < |r.value.rest| < |b|
    ensures r.Ok? && EndsWithNewline(b) ==> EndsWithNewline(r.value.rest)
    ensures EndsWithNewline(b) ==> r != Err(IndexOutOfRange)
  {
    var lhs := Expression(b);
    if lhs.Err? then lhs
    else if lhs.value.rest[0] != EQUALS then lhs
    else if !lhs.value.ast.Symbol? then Err(NotSymbol(lhs.value.ast))
    else
      var n := lhs.value.rest;
      var rhs := Expression(n[1..]);
      if rhs.Err? then Err(rhs.error)
      else Ok(Parsed(AssignOp(lhs.value.ast.name, rhs.value.ast), rhs.value.rest))
  }

  /**
   * `parseFactor`: `getSymbol` or `getNum` applied to the one-byte slice
   * `b[:1]`, and the rest `b[1:]`.
   */
  method ParseFactor(b: seq<byte>) returns (r: Result<Parsed>)
    ensures r == Factor(b)
  {
    if |b| == 0 {
      return Err(IndexOutOfRange);
    }
    if IsAlpha(b[0]) {
      var c := b[0];
      assert b[..1] == [c];
      var sym, n := GetSymbol(b[..1]);
      assert |n| == 1 ==> n == [c];
      assert sym + [] == sym;
      return Ok(Parsed(Symbol(sym), b[1..]));
    } else if IsDigit(b[0]) {
      var v, n := GetNum(b[..1]);
      assert b[..1][..0] == [];
      return Ok(Parsed(Num(v), b[1..]));
    } else {
      return Err(InvalidFactor(b));
    }
  }

  /** `parseTerm`: a factor, then `*` and `/` folded in from the left. */
  method ParseTerm(b: seq<byte>) returns (r: Result<Parsed>)
    ensures r == Term(b)
  {
    var first := ParseFactor(b);
    if first.Err? {
      return Err(first.error);
    }
    var term, n := first.value.ast, first.value.rest;
    while |n| > 0 && IsMulOp(n[0])
      invariant TermTail(term, n) == Term(b)
      decreases |n|
    {
      var op := n[0];
      var next := ParseFactor(n[1..]);
      if next.Err? {
        return Err(next.error);
      }
      term, n := BinOp(op, term, next.value.ast), next.value.rest;
    }
    if |n| == 0 {
      return Err(IndexOutOfRange);
    }
    return Ok(Parsed(term, n));
  }

  /** `parseExpression`: a term, then `+` and `-` folded in from the left. */
  method ParseExpression(b: seq<byte>) returns (r: Result<Parsed>)
    ensures r == Expression(b)
  {
    var first := ParseTerm(b);
    if first.Err? {
      return Err(first.error);
    }
    var expr, n := first.value.ast, first.value.rest;
    while |n| > 0 && IsAddOp(n[0])
      invariant ExprTail(expr, n) == Expression(b)
      decreases |n|
    {
      var op := n[0];
      var next := ParseTerm(n[1..]);
      if next.Err? {
        return Err(next.error);
      }
      expr, n := BinOp(op, expr, next.value.ast), next.value.rest;
    }
    if |n| == 0 {
      return Err(IndexOutOfRange);
    }
    return Ok(Parsed(expr, n));
  }

  /** `parseStatement`: an expression, and an assignment when `=` follows a symbol. */
  method ParseStatement(b: seq<byte>) returns (r: Result<Parsed>)
    ensures r == Statement(b)
  {
    r := ParseExpression(b);
    if r.Ok? && r.value.rest[0] == EQUALS {
      var stmt, n := r.value.ast, r.value.rest;
      if stmt.Symbol? {
        var rhs := ParseExpression(n[1..]);
        if rhs.Err? {
          return Err(rhs.error);
        }
        r := Ok(Parsed(AssignOp(stmt.name, rhs.value.ast), rhs.value.rest));
      } else {
        r := Err(NotSymbol(stmt));
      }
    }
  }

  /** `Read`: the whole line is parsed as one statement. */
  method Read(b: seq<byte>) returns (r: Result<Parsed>)
    ensures r == Statement(b)
    ensures EndsWithNewline(b) ==> r != Err(IndexOutOfRange)
    ensures r.Ok? ==> 0 < |r.value.rest| < |b|
    ensures r.Ok? && EndsWithNewline(b) ==> EndsWithNewline(r.value.rest)
  {
    r := ParseStatement(b);
  }
}
