/**
 * Byte classification and the two scanners of the calculator: `getNum`
 * (a run of bytes read as a base-10 integer) and `getSymbol` (the longest
 * alphanumeric prefix), plus the decimal rendering that `fmt.Sprintf("%d")`
 * produces and that `envValue` feeds back into `getNum`.
 */
module Lexer {

  /** A Go `byte`. Arithmetic on it wraps modulo 256 and is written out. */
  newtype byte = x: int | 0 <= x < 256

  const NEWLINE: byte := 10
  const PLUS: byte := 43
  const MINUS: byte := 45
  const STAR: byte := 42
  const SLASH: byte := 47
  const EQUALS: byte := 61
  const ZERO: byte := 48

  /** A bracket expression such as `[A-Za-z]`: a list of inclusive byte ranges. */
  type CharClass = seq<(byte, byte)>

  const ALPHA_CLASS: CharClass := [(65, 90), (97, 122)]
  const DIGIT_CLASS: CharClass := [(48, 57)]

  /**
   * Whether a bracket expression of ASCII ranges matches the one-byte input
   * `[]byte{b}`. A byte at or above 0x80 is not valid UTF-8 on its own; it
   * is read as U+FFFD and falls in no ASCII range.
   */
  predicate ClassMatch(cls: CharClass, b: byte) {
    b < 128 && exists i :: 0 <= i < |cls| && cls[i].0 <= b <= cls[i].1
  }

  /** `isAlpha`: the pattern `[A-Za-z]` matched against one byte. */
  predicate IsAlpha(b: byte) {
    (65 <= b <= 90) || (97 <= b <= 122)
  }

  /** `isDigit`: the pattern `[0-9]` matched against one byte. */
  predicate IsDigit(b: byte) {
    48 <= b <= 57
  }

  /** `IsAlpha` is exactly what the bracket expression `[A-Za-z]` matches. */
  lemma AlphaMatchesClass(b: byte)
    ensures IsAlpha(b) <==> ClassMatch(ALPHA_CLASS, b)
  {
    assert ALPHA_CLASS[0] == (65, 90) && ALPHA_CLASS[1] == (97, 122);
  }

  /** `IsDigit` is exactly what the bracket expression `[0-9]` matches. */
  lemma DigitMatchesClass(b: byte)
    ensures IsDigit(b) <==> ClassMatch(DIGIT_CLASS, b)
  {
    assert DIGIT_CLASS[0] == (48, 57);
  }

  predicate IsAlnum(b: byte) {
    IsAlpha(b) || IsDigit(b)
  }

  predicate AllDigits(s: seq<byte>) {
    forall k :: 0 <= k < |s| ==> IsDigit(s[k])
  }

  /**
   * `int(b - '0')`: the subtraction happens on bytes and wraps, so the
   * result is never negative, and it is a decimal digit value exactly when
   * `b` is an ASCII digit.
   */
  function DigitVal(b: byte): (r: int)
    ensures 0 <= r < 256
    ensures r < 10 <==> IsDigit(b)
    ensures IsDigit(b) ==> r as byte == b - ZERO
  {
    (b as int - ZERO as int) % 256
  }

  /**
   * The value `getNum` accumulates over `s`: each byte's `DigitVal` pushed
   * onto the right of the previous value as a base-10 digit. On a run of
   * ASCII digits this is the ordinary decimal reading.
   */
  function Decimal(s: seq<byte>): (r: nat)
  {
    if |s| == 0 then 0 else Decimal(s[..|s| - 1]) * 10 + DigitVal(s[|s| - 1])
  }

  /** The decimal rendering `fmt.Sprintf("%d", n)` of a non-negative `n`. */
  function RenderNat(n: nat): (r: seq<byte>)
    ensures |r| > 0 && AllDigits(r)
    ensures r[0] == ZERO ==> n == 0
  {
    if n < 10 then [(n + 48) as byte]
    else RenderNat(n / 10) + [(n % 10 + 48) as byte]
  }

  /**
   * The decimal rendering `fmt.Sprintf("%d", v)` of any integer: the digits
   * of `|v|`, behind a `-` when `v` is negative.
   */
  function RenderInt(v: int): (r: seq<byte>)
    ensures |r| > 0
    ensures v >= 0 <==> AllDigits(r)
    ensures v >= 0 ==> Decimal(r) == v
    ensures v < 0 ==> |r| > 1 && r[0] == MINUS && AllDigits(r[1..]) && Decimal(r[1..]) == -v
  {
    if v < 0 then
      var r := [MINUS] + RenderNat(-v);
      assert !IsDigit(r[0]);
      assert r[1..] == RenderNat(-v);
      DecimalOfRender(-v);
      r
    else
      DecimalOfRender(v);
      RenderNat(v)
  }

  /** Reading a rendered natural number back gives the number. */
  lemma {:induction false} DecimalOfRender(n: nat)
    ensures Decimal(RenderNat(n)) == n
  {
    var s := RenderNat(n);
    if n >= 10 {
      assert s[..|s| - 1] == RenderNat(n / 10);
      DecimalOfRender(n / 10);
    }
  }

  /** A digit string with no leading zero has a positive value. */
  lemma {:induction false} DecimalPositive(s: seq<byte>)
    requires |s| > 0 && AllDigits(s) && s[0] != ZERO
    ensures Decimal(s) > 0
  {
    if |s| > 1 {
      DecimalPositive(s[..|s| - 1]);
    }
  }

  /**
   * The converse of `DecimalOfRender`: rendering the value of a digit string
   * without a leading zero gives the string back.
   */
  lemma {:induction false} RenderOfDecimal(s: seq<byte>)
    requires |s| > 0 && AllDigits(s) && (s[0] == ZERO ==> |s| == 1)
    ensures RenderNat(Decimal(s)) == s
  {
    var p, d := s[..|s| - 1], s[|s| - 1];
    if |s| == 1 {
      assert Decimal(s) == DigitVal(d);
    } else {
      DecimalPositive(p);
      RenderOfDecimal(p);
      var v := Decimal(s);
      assert v / 10 == Decimal(p) && v % 10 == DigitVal(d);
      assert s == p + [d];
    }
  }

  /**
   * `getNum`: starts from the first byte and folds every following byte in
   * as another decimal digit. Because `DigitVal` never goes negative the
   * `d >= 0` exit is never taken, so the whole buffer is consumed.
   */
  method GetNum(buf: seq<byte>) returns (n: int, nbuf: seq<byte>)
    requires |buf| > 0
    ensures n == Decimal(buf)
    ensures nbuf == []
  {
    n := DigitVal(buf[0]);
    nbuf := buf[1..];
    assert buf[..1] == [buf[0]];
    while |nbuf| > 0
      invariant 1 <= |buf| - |nbuf| <= |buf|
      invariant nbuf == buf[|buf| - |nbuf|..]
      invariant n == Decimal(buf[..|buf| - |nbuf|])
      decreases |nbuf|
    {
      var k := |buf| - |nbuf|;
      var d := DigitVal(nbuf[0]);
      if d >= 0 {
        assert buf[..k + 1][..k] == buf[..k];
        n := n * 10 + d;
      } else {
        break;
      }
      nbuf := nbuf[1..];
    }
    assert buf[..|buf|] == buf;
  }

  /**
   * `getSymbol`: splits `buf` into its longest prefix of ASCII letters and
   * digits and the rest.
   */
  method GetSymbol(buf: seq<byte>) returns (sym: seq<byte>, nbuf: seq<byte>)
    ensures sym + nbuf == buf
    ensures forall k :: 0 <= k < |sym| ==> IsAlnum(sym[k])
    ensures nbuf == [] || !IsAlnum(nbuf[0])
  {
    var i := 0;
    while i < |buf|
      invariant 0 <= i <= |buf|
      invariant forall k :: 0 <= k < i ==> IsAlnum(buf[k])
    {
      if !IsAlpha(buf[i]) && !IsDigit(buf[i]) {
        break;
      }
      i := i + 1;
    }
    sym, nbuf := buf[..i], buf[i..];
  }
}
