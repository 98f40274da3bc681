/**
 * The calculator's syntax tree: the four node kinds behind the `Ast`
 * interface, their `String` renderings, and a full text rendering
 * (`Unparse`) with the shapes the grammar can produce, used to characterise
 * what the parser returns.
 */
module Syntax {
  import opened Lexer

  /** `Num`, `Symbol`, `BinOp` and `AssignOp`. */
  datatype Ast =
    | Num(value: int)
    | Symbol(name: seq<byte>)
    | BinOp(op: byte, left: Ast, right: Ast)
    | AssignOp(target: seq<byte>, expr: Ast)
  {
    /**
     * `String()`: a number renders in decimal (and reads back with
     * `Decimal`), a symbol or an assignment as the variable's name, and a
     * binary operation as its operator byte alone, converted to a string
     * the way Go converts an integer: as the UTF-8 text of that code point.
     */
    function String(): (r: seq<byte>)
      ensures Num? ==> |r| > 0
      ensures Num? && value >= 0 ==> AllDigits(r) && Decimal(r) == value
      ensures Num? && value < 0 ==> |r| > 1 && r[0] == MINUS && AllDigits(r[1..]) && Decimal(r[1..]) == -value
      ensures Symbol? ==> r == name
      ensures AssignOp? ==> r == target
      ensures BinOp? && op < 128 ==> r == [op]
      ensures BinOp? ==> (|r| == 1 || |r| == 2) && DecodeRune(r) == op as int
    {
      match this
      case Num(v) => RenderInt(v)
      case Symbol(s) => s
      case BinOp(op, _, _) => RuneText(op)
      case AssignOp(v, _) => v
    }
  }

  /**
   * `string(c)` for a byte `c`: the UTF-8 encoding of code point `c`, one
   * byte below 0x80 and a two-byte sequence (lead byte 0xC2 or 0xC3) above.
   */
  function RuneText(c: byte): (r: seq<byte>)
    ensures |r| == 1 <==> c < 128
    ensures |r| == 1 || |r| == 2
    ensures |r| == 2 ==> 0xC2 <= r[0] <= 0xC3 && 0x80 <= r[1] < 0xC0
    ensures DecodeRune(r) == c as int
  {
    if c < 128 then [c]
    else [(0xC0 + c as int / 64) as byte, (0x80 + c as int % 64) as byte]
  }

  /** The code point a one- or two-byte UTF-8 sequence stands for. */
  function DecodeRune(s: seq<byte>): int
    requires |s| == 1 || |s| == 2
  {
    if |s| == 1 then s[0] as int
    else (s[0] as int - 0xC0) * 64 + (s[1] as int - 0x80)
  }

  predicate IsMulOp(b: byte) { b == STAR || b == SLASH }

  predicate IsAddOp(b: byte) { b == PLUS || b == MINUS }

  /** The whole source text a tree stands for, operators included. */
  function Unparse(a: Ast): (r: seq<byte>)
  {
    match a
    case Num(v) => RenderInt(v)
    case Symbol(s) => s
    case BinOp(op, l, r) => Unparse(l) + [op] + Unparse(r)
    case AssignOp(v, e) => v + [EQUALS] + Unparse(e)
  }

  /** What `parseFactor` can build: a one-letter symbol or a one-digit number. */
  predicate IsLeaf(a: Ast) {
    || (a.Num? && 0 <= a.value <= 9)
    || (a.Symbol? && |a.name| == 1 && IsAlpha(a.name[0]))
  }

  /** What `parseTerm` can build: leaves joined by `*` and `/`, leaning left. */
  predicate TermShape(a: Ast) {
    || IsLeaf(a)
    || (a.BinOp? && IsMulOp(a.op) && TermShape(a.left) && IsLeaf(a.right))
  }

  /** What `parseExpression` can build: terms joined by `+` and `-`, leaning left. */
  predicate ExprShape(a: Ast) {
    || TermShape(a)
    || (a.BinOp? && IsAddOp(a.op) && ExprShape(a.left) && TermShape(a.right))
  }

  /** What `parseStatement` can build: an expression, or one assigned to a letter. */
  predicate StmtShape(a: Ast) {
    || ExprShape(a)
    || (a.AssignOp? && |a.target| == 1 && IsAlpha(a.target[0]) && ExprShape(a.expr))
  }
}
