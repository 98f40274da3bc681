/**
 * What the parser returns, characterised through `Unparse`: a successful
 * parse is always a tree of the grammar's left-leaning shape whose text is
 * exactly the consumed prefix, and conversely every such tree is what the
 * parser returns for its own text. Together these pin down precedence
 * (`*` and `/` below `+` and `-`) and left associativity without naming a
 * single input.
 */
module ParserProperties {
  import opened Lexer
  import opened Syntax
  import opened Parser

  /** Regrouping the text around one operator byte. */
  lemma Regroup(a: seq<byte>, op: byte, u: seq<byte>, s: seq<byte>)
    ensures a + [op] + u + s == a + ([op] + u + s)
    ensures |[op] + u + s| > 0 && ([op] + u + s)[0] == op
    ensures ([op] + u + s)[1..] == u + s
  {
  }

  lemma HeadTail(n: seq<byte>)
    requires |n| > 0
    ensures n == [n[0]] + n[1..]
  {
  }

  /** A leaf's text is one byte, and `parseFactor` reads it back. */
  lemma FactorOfUnparse(a: Ast, s: seq<byte>)
    requires IsLeaf(a)
    ensures |Unparse(a)| == 1
    ensures Factor(Unparse(a) + s) == Ok(Parsed(a, s))
  {
    var b := Unparse(a) + s;
    if a.Num? {
      var c := (a.value + 48) as byte;
      assert Unparse(a) == [c];
      assert IsDigit(c) && !IsAlpha(c) && DigitVal(c) == a.value;
    } else {
      assert a.name == [a.name[0]];
    }
    assert b[0] == Unparse(a)[0] && b[1..] == s;
  }

  /** The leaf `parseFactor` returns has the consumed byte as its text. */
  lemma FactorShape(b: seq<byte>)
    ensures Factor(b).Ok? ==> b == Unparse(Factor(b).value.ast) + Factor(b).value.rest
  {
    if Factor(b).Ok? {
      var c := b[0];
      if IsDigit(c) {
        assert Unparse(Num(DigitVal(c))) == [c];
      }
      assert b == [c] + b[1..];
    }
  }

  /** Parsing a term's text goes straight to the operator loop with that term. */
  lemma {:induction false} TermOfUnparse(t: Ast, s: seq<byte>)
    requires TermShape(t)
    ensures Term(Unparse(t) + s) == TermTail(t, s)
  {
    if IsLeaf(t) {
      FactorOfUnparse(t, s);
    } else {
      var op, l, f := t.op, t.left, t.right;
      var s' := [op] + Unparse(f) + s;
      Regroup(Unparse(l), op, Unparse(f), s);
      TermOfUnparse(l, s');
      FactorOfUnparse(f, s);
    }
  }

  /** The `*`/`/` loop keeps the term shape and consumes exactly the text it adds. */
  lemma {:induction false} TermTailShape(acc: Ast, n: seq<byte>)
    requires TermShape(acc)
    ensures TermTail(acc, n).Ok? ==>
      TermShape(TermTail(acc, n).value.ast) &&
      Unparse(acc) + n == Unparse(TermTail(acc, n).value.ast) + TermTail(acc, n).value.rest
    decreases |n|
  {
    if |n| > 0 && IsMulOp(n[0]) && Factor(n[1..]).Ok? {
      var p := Factor(n[1..]).value;
      FactorShape(n[1..]);
      var acc' := BinOp(n[0], acc, p.ast);
      TermTailShape(acc', p.rest);
      Regroup(Unparse(acc), n[0], Unparse(p.ast), p.rest);
      HeadTail(n);
    }
  }

  /** The `*`/`/` loop stops at the first byte that is not `*` or `/`. */
  lemma TermTailStop(acc: Ast, n: seq<byte>)
    requires |n| > 0 && !IsMulOp(n[0])
    ensures TermTail(acc, n) == Ok(Parsed(acc, n))
  {
  }

  /** The `+`/`-` loop stops at the first byte that is not `+` or `-`. */
  lemma ExprTailStop(acc: Ast, n: seq<byte>)
    requires |n| > 0 && !IsAddOp(n[0])
    ensures ExprTail(acc, n) == Ok(Parsed(acc, n))
  {
  }

  /**
   * Every turn of the `*`/`/` loop consumes the operator and a one-byte
   * factor: once the loop runs at all, it returns at least two bytes fewer.
   */
  lemma TermTailProgress(acc: Ast, n: seq<byte>)
    requires |n| > 0 && IsMulOp(n[0])
    ensures TermTail(acc, n).Ok? ==> |TermTail(acc, n).value.rest| <= |n| - 2
  {
  }

  /**
   * Every turn of the `+`/`-` loop consumes the operator and a term of at
   * least one byte: once the loop runs at all, it returns at least two
   * bytes fewer.
   */
  lemma ExprTailProgress(acc: Ast, n: seq<byte>)
    requires |n| > 0 && IsAddOp(n[0])
    ensures ExprTail(acc, n).Ok? ==> |ExprTail(acc, n).value.rest| <= |n| - 2
  {
  }

  /** One turn of the `+`/`-` loop: the operator, a term, and the loop again. */
  lemma ExprTailStep(acc: Ast, n: seq<byte>)
    requires |n| > 0 && IsAddOp(n[0]) && Term(n[1..]).Ok?
    ensures ExprTail(acc, n) == ExprTail(BinOp(n[0], acc, Term(n[1..]).value.ast), Term(n[1..]).value.rest)
  {
  }

  /** `parseTerm` returns a term-shaped tree whose text is the consumed prefix. */
  lemma TermShapeOf(b: seq<byte>)
    ensures Term(b).Ok? ==> TermShape(Term(b).value.ast) && b == Unparse(Term(b).value.ast) + Term(b).value.rest
  {
    FactorShape(b);
    if Factor(b).Ok? {
      TermTailShape(Factor(b).value.ast, Factor(b).value.rest);
    }
  }

  /**
   * Parsing an expression's text goes straight to the `+`/`-` loop with
   * that expression, provided the text after it does not continue a term.
   */
  lemma {:induction false} ExprOfUnparse(e: Ast, s: seq<byte>)
    requires ExprShape(e) && |s| > 0 && !IsMulOp(s[0])
    ensures Expression(Unparse(e) + s) == ExprTail(e, s)
  {
    if TermShape(e) {
      TermOfUnparse(e, s);
      TermTailStop(e, s);
    } else {
      var op, l, t := e.op, e.left, e.right;
      var s' := [op] + Unparse(t) + s;
      Regroup(Unparse(l), op, Unparse(t), s);
      ExprOfUnparse(l, s');
      TermOfUnparse(t, s);
      TermTailStop(t, s);
      ExprTailStep(l, s');
    }
  }

  /** The `+`/`-` loop keeps the expression shape and consumes exactly the text it adds. */
  lemma {:induction false} ExprTailShape(acc: Ast, n: seq<byte>)
    requires ExprShape(acc)
    ensures ExprTail(acc, n).Ok? ==>
      ExprShape(ExprTail(acc, n).value.ast) &&
      Unparse(acc) + n == Unparse(ExprTail(acc, n).value.ast) + ExprTail(acc, n).value.rest
    decreases |n|
  {
    if |n| > 0 && IsAddOp(n[0]) && Term(n[1..]).Ok? {
      var p := Term(n[1..]).value;
      TermShapeOf(n[1..]);
      var acc' := BinOp(n[0], acc, p.ast);
      ExprTailStep(acc, n);
      ExprTailShape(acc', p.rest);
      Regroup(Unparse(acc), n[0], Unparse(p.ast), p.rest);
      HeadTail(n);
    }
  }

  /** `parseExpression` returns an expression-shaped tree whose text is the consumed prefix. */
  lemma ExpressionShapeOf(b: seq<byte>)
    ensures Expression(b).Ok? ==>
      ExprShape(Expression(b).value.ast) && b == Unparse(Expression(b).value.ast) + Expression(b).value.rest
  {
    TermShapeOf(b);
    if Term(b).Ok? {
      TermIsExpr(Term(b).value.ast);
      ExprTailShape(Term(b).value.ast, Term(b).value.rest);
    }
  }

  lemma TermIsExpr(t: Ast)
    requires TermShape(t)
    ensures ExprShape(t)
  {
  }

  /**
   * Round trip, text side: the text of a statement-shaped tree, followed by
   * anything that cannot continue it, parses back to that tree and leaves
   * exactly the follower.
   */
  lemma StatementOfUnparse(st: Ast, s: seq<byte>)
    requires StmtShape(st)
    requires |s| > 0 && !IsMulOp(s[0]) && !IsAddOp(s[0]) && s[0] != EQUALS
    ensures Statement(Unparse(st) + s) == Ok(Parsed(st, s))
  {
    if ExprShape(st) {
      ExprOfUnparse(st, s);
      ExprTailStop(st, s);
    } else {
      var sym, e := Symbol(st.target), st.expr;
      var s' := [EQUALS] + Unparse(e) + s;
      Regroup(st.target, EQUALS, Unparse(e), s);
      ExprOfUnparse(sym, s');
      ExprTailStop(sym, s');
      ExprOfUnparse(e, s);
      ExprTailStop(e, s);
    }
  }

  /**
   * Round trip, tree side: whatever `parseStatement` returns is a
   * statement-shaped tree, and the input is its text followed by the rest.
   */
  lemma StatementShapeOf(b: seq<byte>)
    ensures Statement(b).Ok? ==>
      StmtShape(Statement(b).value.ast) && b == Unparse(Statement(b).value.ast) + Statement(b).value.rest
  {
    ExpressionShapeOf(b);
    var lhs := Expression(b);
    if lhs.Ok? && lhs.value.rest[0] == EQUALS && lhs.value.ast.Symbol? {
      var n := lhs.value.rest;
      ExpressionShapeOf(n[1..]);
      var rhs := Expression(n[1..]);
      if rhs.Ok? {
        AssignText(b, lhs.value.ast, n, rhs.value.ast, rhs.value.rest);
      }
    }
  }

  /** The text of an assignment is the target, `=`, and the right-hand side. */
  lemma AssignText(b: seq<byte>, sym: Ast, n: seq<byte>, e: Ast, s: seq<byte>)
    requires sym.Symbol? && ExprShape(sym) && b == Unparse(sym) + n
    requires |n| > 0 && n[0] == EQUALS && n[1..] == Unparse(e) + s
    ensures ExprShape(e) ==> StmtShape(AssignOp(sym.name, e))
    ensures b == Unparse(AssignOp(sym.name, e)) + s
  {
    Regroup(sym.name, EQUALS, Unparse(e), s);
    HeadTail(n);
  }

  /**
   * `parseStatement` fails with "value is not symbol" exactly when `=`
   * follows an expression that is not a bare symbol.
   */
  lemma NotSymbolExactly(b: seq<byte>)
    ensures (Statement(b).Err? && Statement(b).error.NotSymbol?) <==>
      (Expression(b).Ok? && Expression(b).value.rest[0] == EQUALS && !Expression(b).value.ast.Symbol?)
  {
  }

  /**
   * Every remainder `parseStatement` returns is a suffix of its input, and
   * still ends in the input's newline.
   */
  lemma RemainderIsSuffix(b: seq<byte>)
    ensures Statement(b).Ok? ==> IsSuffix(Statement(b).value.rest, b)
    ensures Statement(b).Ok? && EndsWithNewline(b) ==> EndsWithNewline(Statement(b).value.rest)
  {
    StatementShapeOf(b);
    if Statement(b).Ok? {
      SuffixOfConcat(Unparse(Statement(b).value.ast), Statement(b).value.rest);
    }
  }

  lemma SuffixOfConcat(a: seq<byte>, r: seq<byte>)
    ensures IsSuffix(r, a + r)
  {
  }
}
