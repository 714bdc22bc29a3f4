/** The patterns `parse_header` reads with, written as what they match (loop/constraints.py, `_DEFINE_RE`, `_INT_RE` and
    `_FLOAT_RE`): the functions of `Header` find exactly these matches, on every text. */
module HeaderPatterns {
  import opened Wrappers
  import opened Strings
  import opened Header

  /* ------------------------------------------------------------ whole numbers */

  /** What a hexadecimal digit is worth. */
  ghost predicate IsWorth(c: char, d: nat) {
    d < 16 && (c == "0123456789abcdef"[d] || c == "0123456789ABCDEF"[d])
  }

  lemma HexDigitIff(c: char)
    ensures IsHexDigit(c) <==> exists d: nat :: IsWorth(c, d)
    ensures IsHexDigit(c) ==> IsWorth(c, HexValue(c))
  {
    var lower, upper := "0123456789abcdef", "0123456789ABCDEF";
    if IsHexDigit(c) {
      var d := HexValue(c);
      if IsDigit(c) {
        assert lower[d] == DigitOf(d);
      } else if 'a' <= c <= 'f' {
        assert d == (c as int - 'a' as int) + 10 && lower[d] == c;
      } else {
        assert d == (c as int - 'A' as int) + 10 && upper[d] == c;
      }
      assert IsWorth(c, d);
    }
    if d: nat :| IsWorth(c, d) {
      if d < 10 {
        assert lower[d] == upper[d] == DigitOf(d);
      } else {
        assert lower[10..] == ['a', 'b', 'c', 'd', 'e', 'f'] && upper[10..] == ['A', 'B', 'C', 'D', 'E', 'F'];
        assert lower[d] == lower[10..][d - 10] && upper[d] == upper[10..][d - 10];
      }
    }
  }

  lemma OneWorth(c: char, d: nat, e: nat)
    requires IsWorth(c, d) && IsWorth(c, e)
    ensures d == e
  {
  }

  function Power16(n: nat): nat {
    if n == 0 then 1 else 16 * Power16(n - 1)
  }

  /** A hexadecimal number: each digit times the sixteens its place stands for. */
  ghost predicate Amounts(h: string, n: nat) {
    if h == "" then n == 0
    else exists d: nat, rest: nat :: IsWorth(h[0], d) && Amounts(h[1..], rest) && n == d * Power16(|h| - 1) + rest
  }

  lemma {:induction false} AmountsLast(h: string, c: char, n: nat, d: nat)
    requires Amounts(h, n) && IsWorth(c, d)
    ensures Amounts(h + [c], 16 * n + d)
  {
    hide IsWorth;
    if h == "" {
      var s := h + [c];
      assert s[0] == c && s[1..] == "" && Amounts("", 0);
      assert Power16(|s| - 1) == 1 && 16 * n + d == d * Power16(|s| - 1) + 0;
    } else {
      var e: nat, rest: nat :| IsWorth(h[0], e) && Amounts(h[1..], rest) && n == e * Power16(|h| - 1) + rest;
      AmountsLast(h[1..], c, rest, d);
      assert (h + [c])[1..] == h[1..] + [c] && (h + [c])[0] == h[0];
      Sixteenfold(e, Power16(|h| - 1), rest, d);
      assert 16 * n + d == e * Power16(|h + [c]| - 1) + (16 * rest + d);
    }
  }

  lemma Sixteenfold(e: nat, p: nat, rest: nat, d: nat)
    ensures 16 * (e * p + rest) + d == e * (16 * p) + (16 * rest + d)
  {
    assert e * (16 * p) == 16 * (e * p);
  }

  lemma {:induction false} OneAmount(h: string, m: nat, n: nat)
    requires Amounts(h, m) && Amounts(h, n)
    ensures m == n
  {
    hide IsWorth;
    if h != "" {
      var d: nat, x: nat :| IsWorth(h[0], d) && Amounts(h[1..], x) && m == d * Power16(|h| - 1) + x;
      var e: nat, y: nat :| IsWorth(h[0], e) && Amounts(h[1..], y) && n == e * Power16(|h| - 1) + y;
      OneWorth(h[0], d, e);
      OneAmount(h[1..], x, y);
    }
  }

  lemma {:induction false} HexAmounts(h: string)
    requires forall i :: 0 <= i < |h| ==> IsHexDigit(h[i])
    ensures Amounts(h, ParseHex(h))
  {
    hide IsHexDigit, HexValue, IsWorth;
    if h != "" {
      var last := |h| - 1;
      HexAmounts(h[..last]);
      HexDigitIff(h[last]);
      AmountsLast(h[..last], h[last], ParseHex(h[..last]), HexValue(h[last]));
      assert h == h[..last] + [h[last]];
    }
  }

  /** Decimal digits, or hexadecimal ones after `0x`. */
  ghost predicate IsNumeral(u: string, n: nat) {
    || (IsDigits(u) && n == ParseNat(u))
    || (exists h: string :: IsHexOf(u, h) && Amounts(h, n))
  }

  ghost predicate IsHexOf(u: string, h: string) {
    h != "" && (u == "0x" + h || u == "0X" + h) && forall i :: 0 <= i < |h| ==> IsHexDigit(h[i])
  }

  lemma HexNumberIff(u: string)
    ensures IsHexNumber(u) <==> exists h: string :: IsHexOf(u, h)
    ensures IsHexNumber(u) ==> |u| > 2 && IsHexOf(u, u[2..])
    ensures IsHexNumber(u) ==> !IsDigits(u)
  {
    hide IsHexDigit;
    assert !IsDigit('x') && !IsDigit('X');
    if IsHexNumber(u) {
      assert u == u[..2] + u[2..];
      assert u[..2] == [u[0], u[1]];
      assert "0x" == ['0', 'x'] && "0X" == ['0', 'X'];
      assert !IsDigit('x') && !IsDigit('X');
      assert forall i :: 0 <= i < |u[2..]| ==> u[2..][i] == u[i + 2];
      assert IsHexOf(u, u[2..]);
    }
    if h: string :| IsHexOf(u, h) {
      assert u[0] == '0' && (u[1] == 'x' || u[1] == 'X') && |u| == |h| + 2;
      assert forall i :: 2 <= i < |u| ==> u[i] == h[i - 2];
    }
  }

  /** The whole number a text stands for, under its sign. */
  ghost predicate StandsFor(body: string, n: int) {
    exists u: string, m: nat :: IsNumeral(u, m) && ((body == u && n == m) || (body == "-" + u && n == 0 - m))
  }

  lemma IntegerIff(body: string, n: int)
    ensures LiteralOf(body) == Some(Integer(n)) <==> StandsFor(body, n)
  {
    hide IsDecimal, ParseNat, ParseHex, Amounts, IsHexDigit, IsHexOf;
    if LiteralOf(body) == Some(Integer(n)) {
      var u := Unsigned(body);
      HexNumberIff(u);
      SignedIs(body);
      if IsDigits(u) {
        assert IsNumeral(u, ParseNat(u));
      } else {
        HexDigitsOf(u);
        assert IsNumeral(u, ParseHex(u[2..]));
      }
    }
    if StandsFor(body, n) {
      var u: string, m: nat :| IsNumeral(u, m) && ((body == u && n == m) || (body == "-" + u && n == 0 - m));
      NumeralReads(u, m);
      NumeralIsNoWord(u, m, body);
      SignedIs(body);
    }
  }

  lemma SignedIs(body: string)
    ensures body == Unsigned(body) || body == "-" + Unsigned(body)
    ensures Unsigned("-" + body) == body
  {
    assert ("-" + body)[1..] == body;
    if body != "" && body[0] == '-' {
      assert body == [body[0]] + body[1..];
    }
  }

  lemma HexDigitsOf(u: string)
    requires IsHexNumber(u)
    ensures forall i :: 0 <= i < |u[2..]| ==> IsHexDigit(u[2..][i])
    ensures IsHexOf(u, u[2..]) && Amounts(u[2..], ParseHex(u[2..]))
  {
    hide IsHexDigit;
    HexNumberIff(u);
    HexAmounts(u[2..]);
  }

  lemma NumeralReads(u: string, m: nat)
    requires IsNumeral(u, m)
    ensures IsDigits(u) || IsHexNumber(u)
    ensures m == if IsDigits(u) then ParseNat(u) else ParseHex(u[2..])
  {
    hide ParseNat, ParseHex, IsHexDigit, Amounts;
    HexNumberIff(u);
    if !(IsDigits(u) && m == ParseNat(u)) {
      var h: string :| IsHexOf(u, h) && Amounts(h, m);
      assert u[2..] == h;
      HexDigitsOf(u);
      OneAmount(h, m, ParseHex(h));
    }
  }

  lemma NumeralIsNoWord(u: string, m: nat, body: string)
    requires IsNumeral(u, m) && (body == u || body == "-" + u)
    ensures body != "true" && body != "false" && u != "" && u[0] != '-' && Unsigned(u) == u && Unsigned(body) == u
  {
    hide ParseNat, Amounts, IsHexDigit;
    SignedIs(u);
    assert "true"[0] == 't' && "false"[0] == 'f' && "-"[0] == '-' && "0x"[0] == '0' && "0X"[0] == '0';
    assert !IsDigit('t') && !IsDigit('f') && !IsDigit('-');
    if IsDigits(u) {
      assert IsDigit(u[0]);
    } else {
      var h: string :| IsHexOf(u, h) && Amounts(h, m);
      assert u[0] == '0';
    }
  }

  /* ------------------------------------------------------------ decimals */

  ghost predicate AllDigits(s: string) {
    forall i :: 0 <= i < |s| ==> IsDigit(s[i])
  }

  /** Nothing, or an exponent. */
  ghost predicate IsExponent(e: string) {
    e == "" ||
    exists mark: string, sign: string, digits: string ::
      (mark == "e" || mark == "E") && (sign == "" || sign == "+" || sign == "-") && IsDigits(digits) && e == mark + sign + digits
  }

  ghost predicate IsMark(f: string) {
    f == "" || f == "f" || f == "F"
  }

  /** An exponent and a trailing mark, either of which may be missing. */
  ghost predicate IsEnding(s: string) {
    exists e: string, f: string :: IsExponent(e) && IsMark(f) && s == e + f
  }

  /** Digits on at least one side of a point, or digits alone; then the ending. */
  ghost predicate IsFloat(s: string) {
    || (exists a: string, b: string, end: string :: AllDigits(a) && AllDigits(b) && a + b != "" && IsEnding(end) && s == a + ("." + (b + end)))
    || (exists a: string, end: string :: IsDigits(a) && IsEnding(end) && s == a + end)
  }

  lemma {:induction false} DigitRunAt(a: string, rest: string)
    requires AllDigits(a) && (rest == "" || !IsDigit(rest[0]))
    ensures DigitRun(a + rest) == |a|
  {
    if a == "" {
      assert a + rest == rest;
    } else {
      assert (a + rest)[1..] == a[1..] + rest;
      DigitRunAt(a[1..], rest);
    }
  }

  lemma {:induction false} DigitRunEnds(s: string)
    ensures var n := DigitRun(s); AllDigits(s[..n]) && (n < |s| ==> !IsDigit(s[n])) && s == s[..n] + s[n..]
  {
    if s != "" && IsDigit(s[0]) {
      DigitRunEnds(s[1..]);
      var n := DigitRun(s[1..]);
      assert forall i :: 1 <= i < n + 1 ==> s[i] == s[1..][..n][i - 1];
    }
  }

  lemma EndingHasNoDigit(end: string)
    requires IsEnding(end)
    ensures end == "" || (!IsDigit(end[0]) && end[0] != '.')
  {
    var e: string, f: string :| IsExponent(e) && IsMark(f) && end == e + f;
    if e != "" {
      var mark: string, sign: string, digits: string :|
        (mark == "e" || mark == "E") && (sign == "" || sign == "+" || sign == "-") && IsDigits(digits) && e == mark + sign + digits;
      assert end[0] == mark[0];
    }
  }

  lemma EndingIff(s: string)
    ensures IsExponentTail(s) <==> IsEnding(s)
  {
    if IsExponentTail(s) {
      TailIsEnding(s);
    }
    if IsEnding(s) {
      EndingIsTail(s);
    }
  }

  lemma TailIsEnding(s: string)
    requires IsExponentTail(s)
    ensures IsEnding(s)
  {
    hide IsExponent, DigitRun;
    if IsMark(s) {
      NoExponent();
      EndsWith("", s);
      assert "" + s == s;
    } else {
      var signed := |s| > 1 && (s[1] == '-' || s[1] == '+');
      if signed {
        assert s == s[..1] + s[1..2] + s[2..];
        assert s[1..2] == [s[1]];
        ExponentThenMark(s[..1], s[1..2], s[2..]);
      } else {
        assert s == s[..1] + "" + s[1..];
        ExponentThenMark(s[..1], "", s[1..]);
      }
    }
  }

  lemma EndsWith(e: string, f: string)
    requires IsExponent(e) && IsMark(f)
    ensures IsEnding(e + f)
  {
  }

  lemma ExponentThenMark(mark: string, sign: string, t: string)
    requires (mark == "e" || mark == "E") && (sign == "" || sign == "+" || sign == "-")
    requires DigitRun(t) > 0 && IsMark(t[DigitRun(t)..])
    ensures IsEnding(mark + sign + t)
  {
    hide IsExponent, DigitRun;
    var n := DigitRun(t);
    DigitRunEnds(t);
    MakesExponent(mark, sign, t[..n]);
    EndsWith(mark + sign + t[..n], t[n..]);
    assert mark + sign + t[..n] + t[n..] == mark + sign + t;
  }

  lemma NoExponent()
    ensures IsExponent("")
  {
  }

  lemma MakesExponent(mark: string, sign: string, digits: string)
    requires (mark == "e" || mark == "E") && (sign == "" || sign == "+" || sign == "-") && AllDigits(digits) && digits != ""
    ensures IsExponent(mark + sign + digits)
  {
    assert IsDigits(digits);
  }

  lemma EndingIsTail(s: string)
    requires IsEnding(s)
    ensures IsExponentTail(s)
  {
    var e: string, f: string :| IsExponent(e) && IsMark(f) && s == e + f;
    if e == "" {
      assert s == f;
    } else {
      var mark: string, sign: string, digits: string :|
        (mark == "e" || mark == "E") && (sign == "" || sign == "+" || sign == "-") && IsDigits(digits) && e == mark + sign + digits;
      MarkHasNoDigit(f);
      DigitRunAt(digits, f);
      ExponentIsTail(s, mark, sign, digits, f);
    }
  }

  lemma MarkHasNoDigit(f: string)
    requires IsMark(f)
    ensures f == "" || !IsDigit(f[0])
  {
  }

  lemma ExponentIsTail(s: string, mark: string, sign: string, digits: string, f: string)
    requires (mark == "e" || mark == "E") && (sign == "" || sign == "+" || sign == "-") && IsDigits(digits) && IsMark(f)
    requires s == mark + sign + digits + f && DigitRun(digits + f) == |digits|
    ensures IsExponentTail(s)
  {
    hide DigitRun;
    assert s[0] == mark[0] && s != "f" && s != "F";
    assert (digits + f)[|digits|..] == f;
    assert IsDigit(digits[0]);
    if sign == "" {
      assert s == mark + (digits + f) && s[1..] == digits + f;
      assert s[1] == digits[0];
    } else {
      assert s == mark + sign + (digits + f) && s[2..] == digits + f;
      assert s[1] == sign[0];
    }
  }

  lemma DecimalIff(s: string)
    ensures IsDecimal(s) <==> IsFloat(s)
  {
    if IsDecimal(s) {
      DecimalIsFloat(s);
    }
    if IsFloat(s) {
      FloatIsDecimal(s);
    }
  }

  lemma DecimalIsFloat(s: string)
    requires IsDecimal(s)
    ensures IsFloat(s)
  {
    hide IsExponentTail, IsEnding, DigitRun, IsFloat;
    var n := DigitRun(s);
    DigitRunEnds(s);
    if n < |s| && s[n] == '.' {
      var after := s[n + 1..];
      var m := DigitRun(after);
      DigitRunEnds(after);
      EndingIff(after[m..]);
      assert s[n..] == "." + after;
      WithPoint(s[..n], after[..m], after[m..]);
    } else {
      EndingIff(s[n..]);
      WithoutPoint(s[..n], s[n..]);
    }
  }

  lemma WithPoint(a: string, b: string, end: string)
    requires AllDigits(a) && AllDigits(b) && |a| + |b| > 0 && IsEnding(end)
    ensures IsFloat(a + ("." + (b + end)))
  {
    hide IsEnding;
    assert |a + b| > 0;
  }

  lemma WithoutPoint(a: string, end: string)
    requires AllDigits(a) && a != "" && IsEnding(end)
    ensures IsFloat(a + end)
  {
    hide IsEnding;
    assert IsDigits(a);
  }

  lemma FloatIsDecimal(s: string)
    requires IsFloat(s)
    ensures IsDecimal(s)
  {
    hide IsExponentTail, IsEnding;
    if a: string, b: string, end: string :| AllDigits(a) && AllDigits(b) && a + b != "" && IsEnding(end) && s == a + ("." + (b + end)) {
      EndingHasNoDigit(end);
      EndingIff(end);
      DigitRunAt(a, "." + (b + end));
      DigitRunAt(b, end);
      assert s[|a|] == '.' && s[|a| + 1..] == b + end && (b + end)[|b|..] == end;
    } else {
      var a: string, end: string :| IsDigits(a) && IsEnding(end) && s == a + end;
      EndingHasNoDigit(end);
      EndingIff(end);
      DigitRunAt(a, end);
      assert s[|a|..] == end;
    }
  }

  /** What a `#define` value may be, and what it stands for. */
  lemma LiteralIff(body: string, v: Literal)
    ensures LiteralOf(body) == Some(v) <==>
            match v
            case Flag(b) => body == if b then "true" else "false"
            case Integer(n) => StandsFor(body, n)
            case Decimal(text) => text == body && IsFloat(Unsigned(body)) && forall n :: !StandsFor(body, n)
  {
    hide IsDecimal, StandsFor, IsFloat, ParseNat, ParseHex, IsHexDigit, IsDigits;
    DecimalIff(Unsigned(body));
    forall n
      ensures LiteralOf(body) == Some(Integer(n)) <==> StandsFor(body, n)
    {
      IntegerIff(body, n);
    }
    WordsAreNoFloat();
    assert "true" != "false" by {
      assert "true"[0] != "false"[0];
    }
  }

  lemma WordsAreNoFloat()
    ensures !IsFloat(Unsigned("true")) && !IsFloat(Unsigned("false"))
  {
    DecimalIff("true");
    DecimalIff("false");
    assert "true"[0] == 't' && "false"[0] == 'f';
    assert DigitRun("true") == 0 && DigitRun("false") == 0;
  }

  /* ------------------------------------------------------------ one definition */

  ghost predicate Blank(w: string) {
    forall i :: 0 <= i < |w| ==> IsSpace(w[i])
  }

  /** White space, and perhaps a comment up to the end. */
  ghost predicate IsRest(s: string) {
    exists w: string, c: string :: IsBlankAnd(s, w, c)
  }

  ghost predicate IsBlankAnd(s: string, w: string, c: string) {
    Blank(w) && (s == w || s == w + ("//" + c))
  }

  /** `#define`, with white space where the pattern lets it stand; a name, as long as it goes; and the shortest body that
      leaves nothing but white space and a comment. */
  ghost predicate Fits(line: string, w0: string, w1: string, w2: string, d: Define, w3: string, tail: string) {
    && Blank(w0) && Blank(w1) && Blank(w2) && w2 != "" && Blank(w3) && IsIdentifier(d.macro) && IsRest(tail)
    && line == w0 + ("#" + (w1 + ("define" + (w2 + (d.macro + (w3 + (d.body + tail)))))))
    && Begins(w3 + (d.body + tail), (c: char) => !IsIdentChar(c))
    && Begins(d.body + tail, (c: char) => !IsSpace(c))
    && forall n :: 0 <= n < |d.body| ==> !IsRest(d.body[n..] + tail)
  }

  ghost predicate Begins(s: string, p: char -> bool) {
    s == "" || p(s[0])
  }

  ghost predicate Matches(line: string, d: Define) {
    exists w0: string, w1: string, w2: string, w3: string, tail: string :: Fits(line, w0, w1, w2, d, w3, tail)
  }

  lemma {:induction false} StripIs(w: string, s: string)
    requires Blank(w) && (s == "" || !IsSpace(s[0]))
    ensures LStrip(w + s) == s
  {
    if w == "" {
      assert w + s == s;
    } else {
      assert (w + s)[1..] == w[1..] + s;
      StripIs(w[1..], s);
    }
  }

  lemma Stripped(s: string) returns (w: string)
    ensures Blank(w) && s == w + LStrip(s)
  {
    LStripIs(s);
    var n := |s| - |LStrip(s)|;
    w := s[..n];
    assert s == s[..n] + s[n..];
  }

  lemma TailIff(s: string)
    ensures IsTail(s) <==> IsRest(s)
  {
    if IsTail(s) {
      var w := Stripped(s);
      var rest := LStrip(s);
      if rest == "" {
        assert s == w;
        assert IsBlankAnd(s, w, "");
      } else {
        assert rest == "//" + rest[2..];
        assert IsBlankAnd(s, w, rest[2..]);
      }
    }
    if IsRest(s) {
      var w: string, c: string :| IsBlankAnd(s, w, c);
      if s == w {
        assert w + "" == s;
        StripIs(w, "");
      } else {
        assert ("//" + c)[0] == '/' && ("//" + c)[1] == '/';
        StripIs(w, "//" + c);
      }
    }
  }

  lemma DefineIff(line: string, d: Define)
    ensures DefineOf(line) == Some(d) <==> Matches(line, d)
  {
    hide DefineOf, Fits;
    if DefineOf(line) == Some(d) {
      DefineFits(line, d);
    }
    if Matches(line, d) {
      var w0: string, w1: string, w2: string, w3: string, tail: string :| Fits(line, w0, w1, w2, d, w3, tail);
      FitsIsRead(line, w0, w1, w2, d, w3, tail);
    }
  }

  lemma DefineFits(line: string, d: Define)
    requires DefineOf(line) == Some(d)
    ensures Matches(line, d)
  {
    hide LStrip, Fits, IsIdentifier, AfterDefine;
    var hash := LStrip(line);
    var word := LStrip(hash[1..]);
    var w0 := Stripped(line);
    var w1 := Stripped(hash[1..]);
    var after := word[6..];
    assert hash == "#" + hash[1..] && word == "define" + after;
    var w2, w3, tail := AfterFits(after, d);
    assert line == w0 + ("#" + (w1 + ("define" + (w2 + (d.macro + (w3 + (d.body + tail)))))));
    MakesFit(line, w0, w1, w2, d, w3, tail);
  }

  lemma MakesFit(line: string, w0: string, w1: string, w2: string, d: Define, w3: string, tail: string)
    requires Blank(w0) && Blank(w1) && Blank(w2) && w2 != "" && Blank(w3) && IsIdentifier(d.macro) && IsRest(tail)
    requires line == w0 + ("#" + (w1 + ("define" + (w2 + (d.macro + (w3 + (d.body + tail)))))))
    requires Begins(w3 + (d.body + tail), (c: char) => !IsIdentChar(c)) && Begins(d.body + tail, (c: char) => !IsSpace(c))
    requires forall n :: 0 <= n < |d.body| ==> !IsRest(d.body[n..] + tail)
    ensures Matches(line, d)
  {
    assert Fits(line, w0, w1, w2, d, w3, tail);
  }

  lemma AfterFits(s: string, d: Define) returns (w2: string, w3: string, tail: string)
    requires AfterDefine(s) == Some(d)
    ensures Blank(w2) && w2 != "" && Blank(w3) && IsIdentifier(d.macro) && IsRest(tail)
    ensures s == w2 + (d.macro + (w3 + (d.body + tail)))
    ensures Begins(w3 + (d.body + tail), (c: char) => !IsIdentChar(c)) && Begins(d.body + tail, (c: char) => !IsSpace(c))
    ensures forall n :: 0 <= n < |d.body| ==> !IsRest(d.body[n..] + tail)
  {
    hide IsTail, IsRest, LStrip, IdentEnd, BodyEnd, Blank, IsIdentChar, IsIdentifier;
    var name := LStrip(s);
    w2 := Stripped(s);
    var e := IdentEnd(name);
    var rest := LStrip(name[e..]);
    w3 := Stripped(name[e..]);
    tail := rest[BodyEnd(rest)..];
    ShortestBody(rest);
    LongestName(name);
    assert d == Define(name[..e], rest[..BodyEnd(rest)]);
    assert rest == d.body + tail && name == name[..e] + name[e..];
  }

  lemma LongestName(name: string)
    requires name != "" && IsIdentStart(name[0])
    ensures var e := IdentEnd(name); IsIdentifier(name[..e]) && Begins(name[e..], (c: char) => !IsIdentChar(c))
  {
  }

  lemma ShortestBody(rest: string)
    ensures var b := BodyEnd(rest); IsRest(rest[b..]) && forall n :: 0 <= n < b ==> !IsRest(rest[..b][n..] + rest[b..])
  {
    hide IsTail, IsRest;
    var b := BodyEnd(rest);
    TailIff(rest[b..]);
    forall n | 0 <= n < b
      ensures !IsRest(rest[..b][n..] + rest[b..])
    {
      assert rest[..b][n..] + rest[b..] == rest[n..];
      TailIff(rest[n..]);
    }
  }

  lemma FitsIsRead(line: string, w0: string, w1: string, w2: string, d: Define, w3: string, tail: string)
    requires Fits(line, w0, w1, w2, d, w3, tail)
    ensures DefineOf(line) == Some(d)
  {
    hide LStrip, IsIdentifier, AfterDefine, IsRest, Blank;
    var after := w2 + (d.macro + (w3 + (d.body + tail)));
    var word := "define" + after;
    var hash := "#" + (w1 + word);
    assert hash[0] == '#' && hash[1..] == w1 + word && word[0] == 'd' && word[..6] == "define" && word[6..] == after;
    StripIs(w0, hash);
    StripIs(w1, word);
    AfterIsRead(w2, d, w3, tail);
  }

  lemma AfterIsRead(w2: string, d: Define, w3: string, tail: string)
    requires Blank(w2) && w2 != "" && Blank(w3) && IsIdentifier(d.macro) && IsRest(tail)
    requires Begins(w3 + (d.body + tail), (c: char) => !IsIdentChar(c)) && Begins(d.body + tail, (c: char) => !IsSpace(c))
    requires forall n :: 0 <= n < |d.body| ==> !IsRest(d.body[n..] + tail)
    ensures AfterDefine(w2 + (d.macro + (w3 + (d.body + tail)))) == Some(d)
  {
    hide LStrip, IsTail, IsRest;
    var rest := d.body + tail;
    var name := d.macro + (w3 + rest);
    assert name[0] == d.macro[0];
    StripIs(w2, name);
    StripIs(w3, rest);
    IdentEndOf(d.macro, w3 + rest);
    assert name[|d.macro|..] == w3 + rest && name[..|d.macro|] == d.macro;
    BodyEndOf(d.body, tail);
  }

  lemma {:induction false} IdentEndOf(name: string, rest: string)
    requires (forall i :: 0 <= i < |name| ==> IsIdentChar(name[i])) && Begins(rest, (c: char) => !IsIdentChar(c))
    ensures IdentEnd(name + rest) == |name|
  {
    if name == "" {
      assert name + rest == rest;
    } else {
      assert (name + rest)[1..] == name[1..] + rest;
      IdentEndOf(name[1..], rest);
    }
  }

  lemma BodyEndOf(body: string, tail: string)
    requires IsRest(tail) && forall n :: 0 <= n < |body| ==> !IsRest(body[n..] + tail)
    ensures BodyEnd(body + tail) == |body|
  {
    hide IsTail, IsRest;
    var s := body + tail;
    var e := BodyEnd(s);
    assert s[|body|..] == tail;
    TailIff(tail);
    if e < |body| {
      assert s[e..] == body[e..] + tail;
      TailIff(s[e..]);
    }
  }
}
