/**
 * Concrete lines and what the parser makes of them: precedence, left
 * associativity, assignment, the one-byte factor, and each failure.
 */
module ParserExamples {
  import opened Lexer
  import opened Syntax
  import opened Parser
  import opened ParserProperties

  /** The bytes of an ASCII string literal. */
  function Text(s: string): (r: seq<byte>)
    ensures |r| == |s|
  {
    seq(|s|, i requires 0 <= i < |s| => (s[i] as int % 256) as byte)
  }

  /** `*` binds tighter than `+`: `2+3*4` is `2+(3*4)`. */
  lemma Precedence()
    ensures Statement(Text("2+3*4\n")) ==
      Ok(Parsed(BinOp(PLUS, Num(2), BinOp(STAR, Num(3), Num(4))), Text("\n")))
  {
    var t := BinOp(PLUS, Num(2), BinOp(STAR, Num(3), Num(4)));
    assert Unparse(t) + Text("\n") == Text("2+3*4\n");
    StatementOfUnparse(t, Text("\n"));
  }

  /** `-` groups to the left: `1-2-3` is `(1-2)-3`. */
  lemma SubtractionLeansLeft()
    ensures Statement(Text("1-2-3\n")) ==
      Ok(Parsed(BinOp(MINUS, BinOp(MINUS, Num(1), Num(2)), Num(3)), Text("\n")))
  {
    var t := BinOp(MINUS, BinOp(MINUS, Num(1), Num(2)), Num(3));
    assert Unparse(t) + Text("\n") == Text("1-2-3\n");
    StatementOfUnparse(t, Text("\n"));
  }

  /** `*` and `/` group to the left: `a*b/c` is `(a*b)/c`. */
  lemma MulDivLeanLeft()
    ensures Statement(Text("a*b/c\n")) ==
      Ok(Parsed(BinOp(SLASH, BinOp(STAR, Symbol(Text("a")), Symbol(Text("b"))), Symbol(Text("c"))), Text("\n")))
  {
    var t := BinOp(SLASH, BinOp(STAR, Symbol(Text("a")), Symbol(Text("b"))), Symbol(Text("c")));
    assert Unparse(t) + Text("\n") == Text("a*b/c\n");
    StatementOfUnparse(t, Text("\n"));
  }

  /** An assignment to a one-letter variable. */
  lemma Assignment()
    ensures Statement(Text("x=5\n")) == Ok(Parsed(AssignOp(Text("x"), Num(5)), Text("\n")))
  {
    var t := AssignOp(Text("x"), Num(5));
    assert Unparse(t) + Text("\n") == Text("x=5\n");
    StatementOfUnparse(t, Text("\n"));
  }

  /** A factor is one byte: `12` parses as `1`, and `2` is left over. */
  lemma OneDigitFactor()
    ensures Statement(Text("12\n")) == Ok(Parsed(Num(1), Text("2\n")))
  {
    assert Unparse(Num(1)) + Text("2\n") == Text("12\n");
    StatementOfUnparse(Num(1), Text("2\n"));
  }

  /** A number before `=` is the "value is not symbol" failure. */
  lemma NumberIsNoTarget()
    ensures Statement(Text("2=3\n")) == Err(NotSymbol(Num(2)))
  {
    var b := Text("2=3\n");
    assert b == Unparse(Num(2)) + b[1..];
    ExprOfUnparse(Num(2), b[1..]);
    ExprTailStop(Num(2), b[1..]);
  }

  /** A byte that is neither letter nor digit where a factor is due is the "invalid factor" failure. */
  lemma OperatorIsNoFactor()
    ensures Statement(Text("+1\n")) == Err(InvalidFactor(Text("+1\n")))
  {
  }

  /** Without the closing newline the loop test reads past the end. */
  lemma MissingNewline()
    ensures Statement(Text("a")) == Err(IndexOutOfRange)
    ensures Statement([]) == Err(IndexOutOfRange)
  {
  }

  /** A second `=` is not consumed: `a=b=c` assigns `b` to `a` and leaves `=c`. */
  lemma SecondEqualsLeftOver()
    ensures Statement(Text("a=b=c\n")) ==
      Ok(Parsed(AssignOp(Text("a"), Symbol(Text("b"))), Text("=c\n")))
  {
    var a, c := Symbol(Text("a")), Symbol(Text("b"));
    var n, m := Text("=b=c\n"), Text("=c\n");
    assert Text("a=b=c\n") == Unparse(a) + n;
    ExprOfUnparse(a, n);
    ExprTailStop(a, n);
    assert Expression(Text("a=b=c\n")) == Ok(Parsed(a, n));
    assert n[1..] == Unparse(c) + m;
    ExprOfUnparse(c, m);
    ExprTailStop(c, m);
    assert Expression(n[1..]) == Ok(Parsed(c, m));
  }

  /** Blanks are not skipped: `2 +3` stops after `2`. */
  lemma NoBlanks()
    ensures Statement(Text("2 +3\n")) == Ok(Parsed(Num(2), Text(" +3\n")))
  {
    assert Unparse(Num(2)) + Text(" +3\n") == Text("2 +3\n");
    StatementOfUnparse(Num(2), Text(" +3\n"));
  }
}
