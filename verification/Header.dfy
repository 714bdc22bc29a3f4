/** The params header at character level: how stage 4 prints it (loop/dse.py), how the evaluator parses it
    (loop/constraints.py), and the key a screened candidate is remembered by (loop/sr_evaluator.py). */
module Header {
  import opened Wrappers
  import opened Strings

  /* ------------------------------------------------------------ lines */

  /** A boundary of `str.splitlines`. */
  predicate IsLineBreak(c: char) {
    var n := c as int;
    10 <= n <= 13 || 28 <= n <= 30 || n == 0x85 || n == 0x2028 || n == 0x2029
  }

  predicate SingleLine(s: string) {
    forall i :: 0 <= i < |s| ==> !IsLineBreak(s[i])
  }

  function LineEnd(s: string): (n: nat)
    ensures n <= |s| && SingleLine(s[..n])
    ensures n < |s| ==> IsLineBreak(s[n])
  {
    if s != "" && !IsLineBreak(s[0]) then
      var n := LineEnd(s[1..]);
      assert s[..1 + n] == [s[0]] + s[1..][..n];
      1 + n
    else 0
  }

  /** Where the next line begins: a carriage return and a newline are one boundary. */
  function AfterBreak(text: string, n: nat): (m: nat)
    requires n < |text|
    ensures n < m <= |text|
  {
    if text[n] == '\r' && n + 1 < |text| && text[n + 1] == '\n' then n + 2 else n + 1
  }

  /** `text.splitlines()`. */
  function SplitLines(text: string): (lines: seq<string>)
    ensures forall l :: l in lines ==> SingleLine(l)
    decreases |text|
  {
    if text == "" then []
    else
      var n := LineEnd(text);
      if n == |text| then [text[..n]] else [text[..n]] + SplitLines(text[AfterBreak(text, n)..])
  }

  lemma {:induction false} LineEndAt(line: string, rest: string)
    requires SingleLine(line)
    ensures LineEnd(line + "\n" + rest) == |line|
  {
    var s := line + "\n" + rest;
    if line != "" {
      LineEndAt(line[1..], rest);
      assert s[1..] == line[1..] + "\n" + rest;
    }
  }

  function JoinLines(lines: seq<string>): string {
    if lines == [] then "" else lines[0] + "\n" + JoinLines(lines[1..])
  }

  /** Printing lines that hold no boundary and splitting them again. */
  lemma {:induction false} SplitJoined(lines: seq<string>)
    requires forall l :: l in lines ==> SingleLine(l)
    ensures SplitLines(JoinLines(lines)) == lines
  {
    if lines != [] {
      var text, rest := JoinLines(lines), JoinLines(lines[1..]);
      SplitJoined(lines[1..]);
      LineEndAt(lines[0], rest);
      assert text[..|lines[0]|] == lines[0];
      assert text[|lines[0]|] == '\n';
      assert text[|lines[0]| + 1..] == rest;
    }
  }

  /* ------------------------------------------------------------ literals */

  /** A `#define` value: a flag, an integer, or a decimal kept by its spelling. */
  datatype Literal = Flag(b: bool) | Integer(n: int) | Decimal(text: string)

  predicate IsHexDigit(c: char) {
    IsDigit(c) || 'a' <= c <= 'f' || 'A' <= c <= 'F'
  }

  function HexValue(c: char): nat
    requires IsHexDigit(c)
  {
    if IsDigit(c) then ValueOf(c) else if 'a' <= c <= 'f' then (c as int - 'a' as int + 10) as nat
    else (c as int - 'A' as int + 10) as nat
  }

  function ParseHex(s: string): nat
    requires forall i :: 0 <= i < |s| ==> IsHexDigit(s[i])
  {
    if s == "" then 0 else 16 * ParseHex(s[..|s| - 1]) + HexValue(s[|s| - 1])
  }

  predicate IsHexNumber(s: string) {
    |s| > 2 && s[0] == '0' && (s[1] == 'x' || s[1] == 'X') && forall i :: 2 <= i < |s| ==> IsHexDigit(s[i])
  }

  function Unsigned(s: string): string {
    if s != "" && s[0] == '-' then s[1..] else s
  }

  /** How many digits stand at the front. */
  function DigitRun(s: string): (n: nat)
    ensures n <= |s|
  {
    if s != "" && IsDigit(s[0]) then 1 + DigitRun(s[1..]) else 0
  }

  /** What may follow the digits of a decimal: an exponent, and one trailing f. */
  predicate IsExponentTail(s: string) {
    if s == "" || s == "f" || s == "F" then true
    else if s[0] != 'e' && s[0] != 'E' then false
    else
      var t := if |s| > 1 && (s[1] == '-' || s[1] == '+') then s[2..] else s[1..];
      DigitRun(t) > 0 && (t[DigitRun(t)..] == "" || t[DigitRun(t)..] == "f" || t[DigitRun(t)..] == "F")
  }

  predicate IsDecimal(s: string) {
    var n := DigitRun(s);
    if n < |s| && s[n] == '.' then
      var m := DigitRun(s[n + 1..]);
      n + m > 0 && IsExponentTail(s[n + 1..][m..])
    else n > 0 && IsExponentTail(s[n..])
  }

  /** `_literal`; None is its ValueError. */
  function LiteralOf(body: string): Option<Literal> {
    if body == "true" then Some(Flag(true))
    else if body == "false" then Some(Flag(false))
    else
      var u := Unsigned(body);
      var sign := if u == body then 1 else -1;
      if IsDigits(u) then Some(Integer(sign * ParseNat(u)))
      else if IsHexNumber(u) then Some(Integer(sign * ParseHex(u[2..])))
      else if IsDecimal(u) then Some(Decimal(body))
      else None
  }

  /** `str(n)` for an integer. */
  function IntToStr(n: int): string {
    if n < 0 then "-" + NatToStr(-n) else NatToStr(n)
  }

  /** A value as the header spells it: an enum is its choice index, a flag is lower case. */
  function Spell(v: Literal): string {
    match v
    case Flag(b) => if b then "true" else "false"
    case Integer(n) => IntToStr(n)
    case Decimal(text) => text
  }

  /** A decimal must be spelled as one, and as nothing else. */
  predicate Spellable(v: Literal) {
    v.Decimal? ==> LiteralOf(v.text) == Some(v)
  }

  lemma IntegerReadsBack(n: int)
    ensures LiteralOf(IntToStr(n)) == Some(Integer(n))
  {
    hide ParseNat, NatToStr, IsDecimal, IsHexNumber;
    if n < 0 {
      ParsePrinted(-n);
      assert Unsigned("-" + NatToStr(-n)) == NatToStr(-n);
      assert ("-" + NatToStr(-n))[0] == '-';
    } else {
      ParsePrinted(n);
      assert IsDigit(NatToStr(n)[0]);
    }
  }

  lemma SpelledReadsBack(v: Literal)
    requires Spellable(v)
    ensures LiteralOf(Spell(v)) == Some(v)
  {
    match v
    case Flag(_) =>
    case Decimal(_) =>
    case Integer(n) => IntegerReadsBack(n);
  }

  /* ------------------------------------------------------------ one line */

  predicate IsIdentStart(c: char) {
    'a' <= c <= 'z' || 'A' <= c <= 'Z' || c == '_'
  }

  predicate IsIdentChar(c: char) {
    IsIdentStart(c) || IsDigit(c)
  }

  predicate IsIdentifier(s: string) {
    s != "" && IsIdentStart(s[0]) && forall i :: 0 <= i < |s| ==> IsIdentChar(s[i])
  }

  function IdentEnd(s: string): (n: nat)
    ensures n <= |s|
    ensures forall i :: 0 <= i < n ==> IsIdentChar(s[i])
    ensures n < |s| ==> !IsIdentChar(s[n])
  {
    if s != "" && IsIdentChar(s[0]) then 1 + IdentEnd(s[1..]) else 0
  }

  predicate StartsComment(s: string) {
    |s| >= 2 && s[0] == '/' && s[1] == '/'
  }

  /** What may follow a value: blanks, then perhaps a comment. */
  predicate IsTail(s: string) {
    LStrip(s) == "" || StartsComment(LStrip(s))
  }

  /** The shortest value that leaves a tail. */
  function BodyEnd(s: string): (n: nat)
    ensures n <= |s| && IsTail(s[n..])
    ensures forall i :: 0 <= i < n ==> !IsTail(s[i..])
  {
    if IsTail(s) then
      assert s[0..] == s;
      0
    else
      var n := BodyEnd(s[1..]);
      assert s[1 + n..] == s[1..][n..];
      assert forall i :: 1 <= i < 1 + n ==> s[i..] == s[1..][i - 1..];
      assert s[0..] == s;
      1 + n
  }

  datatype Define = Define(macro: string, body: string)

  const DEFINE: string := "define"

  /** One line against the `#define` pattern. */
  function DefineOf(line: string): Option<Define> {
    var hash := LStrip(line);
    if hash == "" || hash[0] != '#' then None
    else
      var word := LStrip(hash[1..]);
      if !(DEFINE <= word) then None
      else AfterDefine(word[6..])
  }

  function AfterDefine(s: string): Option<Define> {
    if s == "" || !IsSpace(s[0]) then None
    else
      var name := LStrip(s);
      if name == "" || !IsIdentStart(name[0]) then None
      else
        var rest := LStrip(name[IdentEnd(name)..]);
        Some(Define(name[..IdentEnd(name)], rest[..BodyEnd(rest)]))
  }

  /* ------------------------------------------------------------ parsing a header */

  datatype ParseError = DefinedTwice(macro: string) | NotALiteral(macro: string, body: string)

  datatype Parsed = Parsed(values: map<string, Literal>, errors: seq<ParseError>)

  predicate IsKnobMacro(macro: string) {
    "SR_" <= macro || "HOST_" <= macro
  }

  /** What one definition of a knob's macro adds. */
  function ParseDefine(p: Parsed, d: Define): Parsed {
    if d.macro in p.values then p.(errors := p.errors + [DefinedTwice(d.macro)])
    else match LiteralOf(d.body)
      case Some(v) => p.(values := p.values[d.macro := v])
      case None => p.(errors := p.errors + [NotALiteral(d.macro, d.body)])
  }

  predicate DefinesKnob(line: string) {
    DefineOf(line).Some? && IsKnobMacro(DefineOf(line).value.macro)
  }

  function ParseLine(p: Parsed, line: string): Parsed {
    if DefinesKnob(line) then ParseDefine(p, DefineOf(line).value) else p
  }

  function ParseLines(lines: seq<string>): Parsed {
    if lines == [] then Parsed(map[], []) else ParseLine(ParseLines(lines[..|lines| - 1]), lines[|lines| - 1])
  }

  /** `parse_header`. */
  method ParseHeader(text: string) returns (values: map<string, Literal>, errors: seq<ParseError>)
    ensures Parsed(values, errors) == ParseLines(SplitLines(text))
  {
    var lines := SplitLines(text);
    values, errors := map[], [];
    for i := 0 to |lines|
      invariant Parsed(values, errors) == ParseLines(lines[..i])
    {
      assert lines[..i + 1][..i] == lines[..i];
      match DefineOf(lines[i])
      case None =>
      case Some(d) =>
        if IsKnobMacro(d.macro) {
          if d.macro in values {
            errors := errors + [DefinedTwice(d.macro)];
          } else {
            match LiteralOf(d.body)
            case Some(v) => values := values[d.macro := v];
            case None => errors := errors + [NotALiteral(d.macro, d.body)];
          }
        }
    }
    assert lines[..|lines|] == lines;
  }

  /* ------------------------------------------------------------ printing a header */

  datatype Knob = Knob(macro: string, value: Literal, comment: string)

  datatype Line = Comment(text: string) | Pragma | Definition(knob: Knob)

  /** `_knob_line`, and the header's other lines. */
  function Render(line: Line): string {
    match line
    case Comment(text) => "//" + text
    case Pragma => "#pragma once"
    case Definition(k) => "#define " + k.macro + " " + Spell(k.value) + "  // " + k.comment
  }

  function RenderAll(lines: seq<Line>): (out: seq<string>)
    ensures |out| == |lines| && forall i :: 0 <= i < |out| ==> out[i] == Render(lines[i])
  {
    if lines == [] then [] else [Render(lines[0])] + RenderAll(lines[1..])
  }

  function Comments(prefix: string, texts: seq<string>): (out: seq<Line>)
    ensures |out| == |texts| && forall i :: 0 <= i < |out| ==> out[i] == Comment(prefix + texts[i])
  {
    if texts == [] then [] else [Comment(prefix + texts[0])] + Comments(prefix, texts[1..])
  }

  function Definitions(knobs: seq<Knob>): (out: seq<Line>)
    ensures |out| == |knobs| && forall i :: 0 <= i < |out| ==> out[i] == Definition(knobs[i])
  {
    if knobs == [] then [] else [Definition(knobs[0])] + Definitions(knobs[1..])
  }

  /** The three fixed comments of a header; their wording plays no part. */
  datatype Notes = Notes(generated: string, host: string, model: string)

  /** `params_header`: constraint comments, the feature's knobs, the host's, then the cost model. */
  function HeaderLines(notes: Notes, constraints: seq<string>, feature: seq<Knob>, host: seq<Knob>, model: seq<string>): seq<Line> {
    [Comment(notes.generated)]
    + Comments(" constraint: ", constraints)
    + [Pragma]
    + Definitions(feature)
    + (if host == [] then []
       else [Comment(notes.host)] + Definitions(host))
    + (if model == [] then []
       else [Comment(notes.model)] + Comments("   ", model))
  }

  function PrintHeader(notes: Notes, constraints: seq<string>, feature: seq<Knob>, host: seq<Knob>, model: seq<string>): string {
    JoinLines(RenderAll(HeaderLines(notes, constraints, feature, host, model)))
  }

  ghost predicate Printable(k: Knob) {
    IsIdentifier(k.macro) && IsKnobMacro(k.macro) && Spellable(k.value)
  }

  /* ------------------------------------------------------------ reading one printed line */

  lemma {:induction false} IdentEndAt(name: string, rest: string)
    requires forall i :: 0 <= i < |name| ==> IsIdentChar(name[i])
    requires rest != "" && !IsIdentChar(rest[0])
    ensures IdentEnd(name + rest) == |name|
  {
    if name != "" {
      IdentEndAt(name[1..], rest);
      assert (name + rest)[1..] == name[1..] + rest;
    }
  }

  lemma {:induction false} BodyEndAt(body: string, tail: string)
    requires forall i :: 0 <= i < |body| ==> !IsSpace(body[i]) && body[i] != '/'
    requires IsTail(tail)
    ensures BodyEnd(body + tail) == |body|
  {
    var s := body + tail;
    var n := BodyEnd(s);
    assert s[|body|..] == tail;
    assert forall i :: 0 <= i < |body| ==> s[i..] != "" && s[i..][0] == body[i];
  }

  lemma {:induction false} DigitRunDigits(s: string)
    ensures forall i :: 0 <= i < DigitRun(s) ==> IsDigit(s[i])
  {
    if s != "" && IsDigit(s[0]) {
      DigitRunDigits(s[1..]);
      assert forall i :: 1 <= i < DigitRun(s) ==> s[i] == s[1..][i - 1];
    }
  }

  predicate Plain(c: char) {
    !IsSpace(c) && c != '/'
  }

  lemma ExponentTailPlain(s: string)
    requires IsExponentTail(s)
    ensures forall i :: 0 <= i < |s| ==> Plain(s[i])
  {
    if s != "" && s != "f" && s != "F" {
      var k := if |s| > 1 && (s[1] == '-' || s[1] == '+') then 2 else 1;
      var t := s[k..];
      DigitRunDigits(t);
      assert forall i :: k <= i < |s| ==> s[i] == t[i - k];
      var u := t[DigitRun(t)..];
      assert forall i :: DigitRun(t) <= i < |t| ==> t[i] == u[i - DigitRun(t)];
    }
  }

  lemma PlainFrom(s: string, n: nat)
    requires n <= |s| && (forall i :: 0 <= i < n ==> Plain(s[i])) && forall i :: 0 <= i < |s[n..]| ==> Plain(s[n..][i])
    ensures forall i :: 0 <= i < |s| ==> Plain(s[i])
  {
    hide Plain;
    assert forall i :: n <= i < |s| ==> s[i] == s[n..][i - n];
  }

  lemma DecimalPlain(s: string)
    requires IsDecimal(s)
    ensures forall i :: 0 <= i < |s| ==> Plain(s[i])
  {
    var n := DigitRun(s);
    DigitRunDigits(s);
    if n < |s| && s[n] == '.' {
      var t := s[n + 1..];
      var m := DigitRun(t);
      DigitRunDigits(t);
      ExponentTailPlain(t[m..]);
      PlainFrom(t, m);
      PlainFrom(s, n + 1);
    } else {
      ExponentTailPlain(s[n..]);
      PlainFrom(s, n);
    }
  }

  /** No literal holds a blank or a slash. */
  lemma LiteralHasNoSpace(text: string)
    requires LiteralOf(text).Some?
    ensures forall i :: 0 <= i < |text| ==> Plain(text[i])
    ensures text != ""
  {
    hide ParseNat, ParseHex;
    var u := Unsigned(text);
    if text != "true" && text != "false" {
      if IsDigits(u) {
        DigitsPlain(u);
      } else if IsHexNumber(u) {
        HexPlain(u);
      } else {
        DecimalPlain(u);
      }
      SignedPlain(text);
    }
  }

  lemma SignedPlain(text: string)
    requires forall i :: 0 <= i < |Unsigned(text)| ==> Plain(Unsigned(text)[i])
    ensures forall i :: 0 <= i < |text| ==> Plain(text[i])
  {
    var u := Unsigned(text);
    assert u != text ==> forall i :: 1 <= i < |text| ==> text[i] == u[i - 1];
  }

  lemma DigitsPlain(u: string)
    requires IsDigits(u)
    ensures forall i :: 0 <= i < |u| ==> Plain(u[i])
  {
  }

  lemma HexPlain(u: string)
    requires IsHexNumber(u)
    ensures forall i :: 0 <= i < |u| ==> Plain(u[i])
  {
  }

  lemma ValueReadsBack(macro: string, v: string, comment: string)
    requires IsIdentifier(macro) && v != "" && forall i :: 0 <= i < |v| ==> Plain(v[i])
    ensures AfterDefine(" " + (macro + (" " + (v + ("  // " + comment))))) == Some(Define(macro, v))
  {
    var tail := "  // " + comment;
    var value := v + tail;
    var s := " " + (macro + (" " + value));
    assert s[1..] == macro + (" " + value);
    assert LStrip(s) == macro + (" " + value);
    IdentEndAt(macro, " " + value);
    var name := macro + (" " + value);
    assert name[|macro|..] == " " + value;
    assert (" " + value)[1..] == value;
    assert LStrip(" " + value) == value;
    assert tail[1..] == " " + ("// " + comment);
    assert tail[1..][1..] == "// " + comment;
    assert LStrip(tail) == "// " + comment;
    assert IsTail(tail);
    BodyEndAt(v, tail);
    assert value[..|v|] == v;
    assert name[..|macro|] == macro;
  }

  lemma DefineWord(rest: string)
    requires rest != "" && IsSpace(rest[0])
    ensures DefineOf("#define" + rest) == AfterDefine(rest)
  {
    var line := "#define" + rest;
    assert line[1..] == DEFINE + rest;
    assert LStrip(line[1..]) == line[1..];
    assert line[1..][6..] == rest;
    assert DEFINE <= line[1..];
  }

  /** A printed definition reads back as its macro and its spelled value, whatever its comment holds. */
  lemma DefinitionReadsBack(k: Knob)
    requires Printable(k)
    ensures DefineOf(Render(Definition(k))) == Some(Define(k.macro, Spell(k.value)))
  {
    hide DefineOf, AfterDefine, LiteralOf, Spell, IsIdentifier, Plain;
    var v := Spell(k.value);
    SpelledReadsBack(k.value);
    LiteralHasNoSpace(v);
    ValueReadsBack(k.macro, v, k.comment);
    var rest := " " + (k.macro + (" " + (v + ("  // " + k.comment))));
    DefineWord(rest);
    DefinitionSpelled(k, rest);
  }

  lemma DefinitionSpelled(k: Knob, rest: string)
    requires rest == " " + (k.macro + (" " + (Spell(k.value) + ("  // " + k.comment))))
    ensures Render(Definition(k)) == "#define" + rest
  {
    hide Spell;
  }

  /* ------------------------------------------------------------ the printed knobs */

  function Knobs(lines: seq<Line>): seq<Knob> {
    if lines == [] then []
    else (if lines[0].Definition? then [lines[0].knob] else []) + Knobs(lines[1..])
  }

  /** Every knob's value under its macro. */
  function Values(knobs: seq<Knob>): (values: map<string, Literal>)
    ensures forall m :: m in values <==> exists k :: k in knobs && k.macro == m
  {
    if knobs == [] then map[]
    else
      var last := |knobs| - 1;
      assert knobs == knobs[..last] + [knobs[last]];
      Values(knobs[..last])[knobs[last].macro := knobs[last].value]
  }

  ghost predicate DistinctMacros(knobs: seq<Knob>) {
    forall i, j :: 0 <= i < j < |knobs| ==> knobs[i].macro != knobs[j].macro
  }

  lemma {:induction false} ValuesHold(knobs: seq<Knob>, i: nat)
    requires DistinctMacros(knobs) && i < |knobs|
    ensures knobs[i].macro in Values(knobs) && Values(knobs)[knobs[i].macro] == knobs[i].value
  {
    var last := |knobs| - 1;
    if i < last {
      ValuesHold(knobs[..last], i);
    }
  }

  lemma KnobsCons(line: Line, rest: seq<Line>)
    ensures Knobs([line] + rest) == (if line.Definition? then [line.knob] else []) + Knobs(rest)
  {
    assert ([line] + rest)[1..] == rest;
  }

  lemma {:induction false} KnobsConcat(a: seq<Line>, b: seq<Line>)
    ensures Knobs(a + b) == Knobs(a) + Knobs(b)
  {
    hide Knobs;
    if a == [] {
      assert a + b == b;
      NoKnobs();
    } else {
      KnobsConcat(a[1..], b);
      KnobsCons(a[0], a[1..]);
      KnobsCons(a[0], a[1..] + b);
      assert [a[0]] + a[1..] == a && [a[0]] + (a[1..] + b) == a + b;
    }
  }

  lemma NoKnobs()
    ensures Knobs([]) == []
  {
  }

  lemma {:induction false} KnobsOfComments(lines: seq<Line>)
    requires forall i :: 0 <= i < |lines| ==> !lines[i].Definition?
    ensures Knobs(lines) == []
  {
    if lines != [] {
      KnobsOfComments(lines[1..]);
    }
  }

  lemma {:induction false} KnobsOfDefinitions(knobs: seq<Knob>)
    ensures Knobs(Definitions(knobs)) == knobs
  {
    if knobs != [] {
      KnobsOfDefinitions(knobs[1..]);
      assert Definitions(knobs)[1..] == Definitions(knobs[1..]);
    }
  }

  lemma HeaderKnobs(notes: Notes, constraints: seq<string>, feature: seq<Knob>, host: seq<Knob>, model: seq<string>)
    ensures Knobs(HeaderLines(notes, constraints, feature, host, model)) == feature + host
  {
    hide Comments, Definitions, Knobs;
    var head := [Comment(notes.generated)]
                + Comments(" constraint: ", constraints) + [Pragma];
    var hosts := if host == [] then []
                 else [Comment(notes.host)]
                      + Definitions(host);
    var models := if model == [] then []
                  else [Comment(notes.model)] + Comments("   ", model);
    KnobsOfComments(head);
    KnobsOfComments(models);
    KnobsOfDefinitions(feature);
    KnobsOfDefinitions(host);
    KnobsOfComments([]);
    var note := [Comment(notes.host)];
    KnobsOfComments(note);
    KnobsConcat(note, Definitions(host));
    KnobsConcat(head, Definitions(feature));
    KnobsConcat(head + Definitions(feature), hosts);
    KnobsConcat(head + Definitions(feature) + hosts, models);
    assert HeaderLines(notes, constraints, feature, host, model) == head + Definitions(feature) + hosts + models;
  }

  /* ------------------------------------------------------------ what a header defines */

  /** The definitions of knobs' macros among some lines, in order. */
  function KnobDefines(lines: seq<string>): seq<Define> {
    if lines == [] then []
    else
      var last := lines[|lines| - 1];
      KnobDefines(lines[..|lines| - 1]) + (if DefinesKnob(last) then [DefineOf(last).value] else [])
  }

  function ParseDefines(defines: seq<Define>): Parsed {
    if defines == [] then Parsed(map[], [])
    else ParseDefine(ParseDefines(defines[..|defines| - 1]), defines[|defines| - 1])
  }

  lemma {:induction false} ParsingReadsDefines(lines: seq<string>)
    ensures ParseLines(lines) == ParseDefines(KnobDefines(lines))
  {
    hide DefineOf, IsKnobMacro, ParseDefine;
    if lines != [] {
      var last := |lines| - 1;
      ParsingReadsDefines(lines[..last]);
      var front := KnobDefines(lines[..last]);
      if DefinesKnob(lines[last]) {
        assert (front + [DefineOf(lines[last]).value])[..|front|] == front;
      } else {
        assert front + [] == front;
      }
    }
  }

  /** Each definition adds one value or one error. */
  lemma {:induction false} EachDefineCounts(defines: seq<Define>)
    ensures |ParseDefines(defines).values| + |ParseDefines(defines).errors| == |defines|
  {
    hide LiteralOf;
    if defines != [] {
      EachDefineCounts(defines[..|defines| - 1]);
    }
  }

  lemma {:induction false} KnobDefinesConcat(a: seq<string>, b: seq<string>)
    ensures KnobDefines(a + b) == KnobDefines(a) + KnobDefines(b)
  {
    hide DefinesKnob, DefineOf;
    if b == [] {
      assert a + b == a;
    } else {
      KnobDefinesConcat(a, b[..|b| - 1]);
      assert (a + b)[..|a| + |b| - 1] == a + b[..|b| - 1];
    }
  }

  lemma {:induction false} NoKnobDefines(lines: seq<string>)
    ensures KnobDefines(lines) == [] <==> forall i :: 0 <= i < |lines| ==> !DefinesKnob(lines[i])
  {
    hide DefinesKnob, DefineOf;
    if lines != [] {
      NoKnobDefines(lines[..|lines| - 1]);
    }
  }

  lemma OneDefine(line: string)
    ensures KnobDefines([line]) == if DefinesKnob(line) then [DefineOf(line).value] else []
  {
    hide DefineOf, IsKnobMacro;
    var lines := [line];
    assert lines[..0] == [];
  }

  function Spellings(knobs: seq<Knob>): seq<Define> {
    if knobs == [] then [] else [Define(knobs[0].macro, Spell(knobs[0].value))] + Spellings(knobs[1..])
  }

  lemma {:induction false} SpellingsLast(knobs: seq<Knob>)
    requires knobs != []
    ensures var last := |knobs| - 1;
            Spellings(knobs) == Spellings(knobs[..last]) + [Define(knobs[last].macro, Spell(knobs[last].value))]
  {
    hide Spell;
    var last := |knobs| - 1;
    if last > 0 {
      SpellingsLast(knobs[1..]);
      assert knobs[1..][..last - 1] == knobs[..last][1..];
    }
  }

  lemma {:induction false} SpelledDefinesParse(knobs: seq<Knob>)
    requires DistinctMacros(knobs) && forall k :: k in knobs ==> Printable(k)
    ensures ParseDefines(Spellings(knobs)) == Parsed(Values(knobs), []) && |Spellings(knobs)| == |knobs|
  {
    hide LiteralOf, Spell, IsIdentifier, IsKnobMacro;
    if knobs != [] {
      assert Printable(knobs[|knobs| - 1]);
      var last := |knobs| - 1;
      SpelledDefinesParse(knobs[..last]);
      SpellingsLast(knobs);
      SpelledReadsBack(knobs[last].value);
      var front, d := Spellings(knobs[..last]), Define(knobs[last].macro, Spell(knobs[last].value));
      assert (front + [d])[..|front|] == front;
    }
  }

  /* ------------------------------------------------------------ lines within lines */

  /** The lines of a text after its first. */
  function LaterLines(t: string): seq<string> {
    if SplitLines(t) == [] then [] else SplitLines(t)[1..]
  }

  function FirstLine(t: string): string {
    if SplitLines(t) == [] then "" else SplitLines(t)[0]
  }

  lemma {:induction false} LineEndPrefixed(prefix: string, t: string)
    requires SingleLine(prefix)
    ensures LineEnd(prefix + t) == |prefix| + LineEnd(t)
  {
    if prefix == "" {
      assert prefix + t == t;
    } else {
      LineEndPrefixed(prefix[1..], t);
      assert (prefix + t)[1..] == prefix[1..] + t;
    }
  }

  /** One step of splitting. */
  lemma SplitStep(text: string)
    requires text != ""
    ensures var n := LineEnd(text);
            SplitLines(text) == [text[..n]] + if n == |text| then [] else SplitLines(text[AfterBreak(text, n)..])
  {
    hide IsLineBreak, LineEnd, AfterBreak;
  }

  lemma SplitEmpty()
    ensures SplitLines("") == []
  {
  }

  /** A prefix on one line joins the first line of what follows. */
  lemma SplitPrefixed(prefix: string, t: string)
    requires SingleLine(prefix) && prefix != ""
    ensures SplitLines(prefix + t) == [prefix + FirstLine(t)] + LaterLines(t)
  {
    hide IsLineBreak, LineEnd, SplitLines;
    LineEndPrefixed(prefix, t);
    var text, n := prefix + t, LineEnd(t);
    SplitStep(text);
    assert text[..|prefix| + n] == prefix + t[..n];
    if t == "" {
      SplitEmpty();
    } else {
      SplitStep(t);
      if n < |t| {
        AfterBreakPrefixed(prefix, t, n);
        assert text[|prefix| + AfterBreak(t, n)..] == t[AfterBreak(t, n)..];
      }
    }
  }

  lemma AfterBreakPrefixed(prefix: string, t: string, n: nat)
    requires n < |t|
    ensures AfterBreak(prefix + t, |prefix| + n) == |prefix| + AfterBreak(t, n)
  {
  }

  lemma SliceAppended(s: string, rest: string, n: nat)
    requires n <= |s|
    ensures (s + rest)[n..] == s[n..] + rest && (s + rest)[..n] == s[..n]
  {
  }

  lemma {:induction false} SplitAppended(t: string, rest: string)
    ensures SplitLines(t + "\n" + rest) == SplitLines(t + "\n") + SplitLines(rest)
    decreases |t|
  {
    hide IsLineBreak, LineEnd, SplitLines, AfterBreak;
    var u, n := t + "\n", LineEnd(t);
    var text := u + rest;
    LineEndAtBreak(t, "");
    LineEndAtBreak(t, rest);
    assert u == t + "\n" + "";
    SplitStep(u);
    SplitStep(text);
    var next := AfterBreak(u, n);
    AfterBreakAppended(u, rest, n);
    assert text[..n] == u[..n];
    SliceAppended(u, rest, next);
    if next == |u| {
      assert u[next..] == "" && "" + rest == rest;
      SplitEmpty();
    } else {
      SliceAppended(t, "\n", next);
      SplitAppended(t[next..], rest);
    }
  }

  lemma AfterBreakAppended(u: string, rest: string, n: nat)
    requires n < |u| && u[|u| - 1] == '\n'
    ensures AfterBreak(u + rest, n) == AfterBreak(u, n)
  {
  }

  lemma {:induction false} LineEndAtBreak(t: string, rest: string)
    ensures LineEnd(t + "\n" + rest) == LineEnd(t)
  {
    var text := t + "\n" + rest;
    if t != "" && !IsLineBreak(t[0]) {
      LineEndAtBreak(t[1..], rest);
      assert text[1..] == t[1..] + "\n" + rest;
    }
  }

  /** Ending a text with a newline adds an empty line at most. */
  lemma {:induction false} SplitEnded(t: string)
    ensures SplitLines(t + "\n") == SplitLines(t) || SplitLines(t + "\n") == SplitLines(t) + [""]
    decreases |t|
  {
    hide IsLineBreak, LineEnd, SplitLines;
    var u, n := t + "\n", LineEnd(t);
    LineEndAtBreak(t, "");
    assert u == t + "\n" + "" && u[..n] == t[..n];
    SplitStep(u);
    SplitEmpty();
    if t == "" {
    } else {
      SplitStep(t);
      if n == |t| {
        assert u[n + 1..] == "";
      } else if t[n] == '\r' && n + 1 == |t| {
        assert u[n + 2..] == "" == t[n + 1..];
      } else {
        var next := AfterBreak(t, n);
        SplitEnded(t[next..]);
        assert u[next..] == t[next..] + "\n";
      }
    }
  }

  /** What some printed texts define, text by text. */
  function DefinesAll(texts: seq<string>): seq<Define> {
    if texts == [] then [] else KnobDefines(SplitLines(texts[0])) + DefinesAll(texts[1..])
  }

  lemma {:induction false} JoinedDefines(texts: seq<string>)
    ensures KnobDefines(SplitLines(JoinLines(texts))) == DefinesAll(texts)
  {
    hide KnobDefines, SplitLines;
    if texts == [] {
      NothingDefined();
    } else {
      JoinedDefines(texts[1..]);
      SplitAppended(texts[0], JoinLines(texts[1..]));
      SplitEnded(texts[0]);
      NothingDefined();
      KnobDefinesConcat(SplitLines(texts[0]), [""]);
      KnobDefinesConcat(SplitLines(texts[0] + "\n"), SplitLines(JoinLines(texts[1..])));
    }
  }

  lemma NothingDefined()
    ensures KnobDefines(SplitLines("")) == [] && KnobDefines([""]) == []
  {
    OneDefine("");
  }

  /* ------------------------------------------------------------ what one printed line defines */

  function TextOf(line: Line): string {
    match line
    case Comment(text) => text
    case Pragma => ""
    case Definition(k) => k.comment
  }

  /** Nothing after a text's first line defines a knob. */
  ghost predicate StaysComment(t: string) {
    forall i :: 1 <= i < |SplitLines(t)| ==> !DefinesKnob(SplitLines(t)[i])
  }

  lemma StaysIffNoneLater(t: string)
    ensures KnobDefines(LaterLines(t)) == [] <==> StaysComment(t)
  {
    hide DefinesKnob, DefineOf, SplitLines, KnobDefines;
    NoKnobDefines(LaterLines(t));
    if StaysComment(t) {
    } else {
      var i :| 1 <= i < |SplitLines(t)| && DefinesKnob(SplitLines(t)[i]);
      assert LaterLines(t)[i - 1] == SplitLines(t)[i];
    }
  }

  lemma SingleLineStays(t: string)
    requires SingleLine(t)
    ensures StaysComment(t)
  {
    LineEndPrefixed(t, "");
    assert t + "" == t;
  }

  /** A prefix on one line changes nothing of what a text defines later. */
  lemma PrefixStays(prefix: string, t: string)
    requires SingleLine(prefix) && prefix != ""
    ensures StaysComment(prefix + t) <==> StaysComment(t)
  {
    hide SplitLines, DefinesKnob, KnobDefines;
    SplitPrefixed(prefix, t);
    assert LaterLines(prefix + t) == LaterLines(t);
    StaysIffNoneLater(prefix + t);
    StaysIffNoneLater(t);
  }

  function Own(line: Line): seq<Define> {
    if line.Definition? then [Define(line.knob.macro, Spell(line.knob.value))] else []
  }

  /** A printed line defines its own knob first, and then whatever its text defines on later lines. */
  lemma LineDefines(line: Line)
    requires line.Definition? ==> Printable(line.knob)
    ensures KnobDefines(SplitLines(Render(line))) == Own(line) + KnobDefines(LaterLines(TextOf(line)))
  {
    hide DefineOf, SplitLines, KnobDefines, Printable, Spell, SingleLine, IsKnobMacro;
    match line {
      case Comment(text) =>
        SlashesAreSingleLine();
        SplitPrefixed("//", text);
        CommentDefinesNothing(FirstLine(text));
        KnobDefinesConcat(["//" + FirstLine(text)], LaterLines(text));
      case Pragma =>
        PragmaDefinesNothing();
        NothingLater();
      case Definition(k) =>
        var prefix := "#define " + k.macro + " " + Spell(k.value) + "  // ";
        DefinitionIsSingleLine(k);
        SplitPrefixed(prefix, k.comment);
        var first := prefix + FirstLine(k.comment);
        DefinitionDefines(k, first);
        KnobDefinesConcat([first], LaterLines(k.comment));
    }
  }

  lemma SlashesAreSingleLine()
    ensures SingleLine("//")
  {
  }

  lemma NothingLater()
    ensures KnobDefines(LaterLines("")) == []
  {
  }

  lemma CommentDefinesNothing(text: string)
    ensures KnobDefines(["//" + text]) == []
  {
    var line := "//" + text;
    assert line[0] == '/';
    OneDefine(line);
  }

  lemma PragmaDefinesNothing()
    ensures KnobDefines(SplitLines("#pragma once")) == []
  {
    hide SplitLines, KnobDefines, IsLineBreak;
    PragmaIsSingleLine();
    SplitPrefixed("#pragma once", "");
    SplitEmpty();
    assert "#pragma once" + "" == "#pragma once";
    assert "#pragma once"[1..] == "pragma once";
    assert SplitLines("#pragma once") == ["#pragma once"];
    OneDefine("#pragma once");
  }

  lemma PragmaIsSingleLine()
    ensures SingleLine("#pragma once")
  {
  }

  lemma DefinitionDefines(k: Knob, first: string)
    requires Printable(k)
    requires first == "#define " + k.macro + " " + Spell(k.value) + "  // " + FirstLine(k.comment)
    ensures KnobDefines([first]) == Own(Definition(k))
  {
    hide DefineOf, Spell, IsIdentifier, IsKnobMacro, SplitLines;
    DefinitionReadsBack(k.(comment := FirstLine(k.comment)));
    OneDefine(first);
  }

  lemma SingleLineConcat(a: string, b: string)
    requires SingleLine(a) && SingleLine(b)
    ensures SingleLine(a + b)
  {
    hide IsLineBreak;
  }

  lemma DefinitionIsSingleLine(k: Knob)
    requires Printable(k)
    ensures SingleLine("#define " + k.macro + " " + Spell(k.value) + "  // ")
  {
    hide LiteralOf, Spell, SingleLine;
    SpelledReadsBack(k.value);
    LiteralHasNoSpace(Spell(k.value));
    WordsAreSingleLine(k.macro, Spell(k.value));
    SingleLineConcat("#define ", k.macro);
    SingleLineConcat("#define " + k.macro, " ");
    SingleLineConcat("#define " + k.macro + " ", Spell(k.value));
    SingleLineConcat("#define " + k.macro + " " + Spell(k.value), "  // ");
  }

  lemma WordsAreSingleLine(macro: string, v: string)
    requires IsIdentifier(macro) && forall i :: 0 <= i < |v| ==> Plain(v[i])
    ensures SingleLine(macro) && SingleLine(v) && SingleLine("#define ") && SingleLine(" ") && SingleLine("  // ")
  {
  }

  /* ------------------------------------------------------------ the round trip */

  ghost predicate AllStay(lines: seq<Line>) {
    forall l :: l in lines ==> StaysComment(TextOf(l))
  }

  /** Printed lines define their own knobs, and nothing else exactly when every text stays a comment. */
  lemma {:induction false} LinesDefine(lines: seq<Line>)
    requires forall l :: l in lines && l.Definition? ==> Printable(l.knob)
    ensures |DefinesAll(RenderAll(lines))| >= |Knobs(lines)|
    ensures |DefinesAll(RenderAll(lines))| == |Knobs(lines)| <==> AllStay(lines)
    ensures AllStay(lines) ==> DefinesAll(RenderAll(lines)) == Spellings(Knobs(lines))
  {
    hide KnobDefines, SplitLines, Printable, Spell, Render, StaysComment, TextOf;
    if lines != [] {
      LinesDefine(lines[1..]);
      assert lines == [lines[0]] + lines[1..];
      assert RenderAll(lines)[1..] == RenderAll(lines[1..]);
      LineDefines(lines[0]);
      StaysIffNoneLater(TextOf(lines[0]));
      SpellingsFirst(lines);
    }
  }

  lemma SpellingsFirst(lines: seq<Line>)
    requires lines != []
    ensures Spellings(Knobs(lines)) == Own(lines[0]) + Spellings(Knobs(lines[1..]))
    ensures |Own(lines[0])| == |Knobs(lines)| - |Knobs(lines[1..])|
  {
    hide Spell;
    var rest := Knobs(lines[1..]);
    if lines[0].Definition? {
      SpellingsCons(lines[0].knob, rest);
    } else {
      assert [] + rest == rest;
    }
  }

  lemma SpellingsCons(k: Knob, rest: seq<Knob>)
    ensures Spellings([k] + rest) == [Define(k.macro, Spell(k.value))] + Spellings(rest)
  {
    hide Spell;
    assert ([k] + rest)[1..] == rest;
  }

  /** Of lines that print distinct knobs, the header parses to exactly those exactly when every text stays a comment. */
  lemma LinesRoundTrip(lines: seq<Line>)
    requires forall l :: l in lines && l.Definition? ==> Printable(l.knob)
    requires DistinctMacros(Knobs(lines))
    ensures ParseLines(SplitLines(JoinLines(RenderAll(lines)))) == Parsed(Values(Knobs(lines)), []) <==> AllStay(lines)
  {
    hide KnobDefines, SplitLines, JoinLines, Printable, ParseLines, ParseDefines, DefinesAll, RenderAll, Spellings, Values,
      Knobs, AllStay, DistinctMacros;
    var knobs, texts := Knobs(lines), RenderAll(lines);
    var defines := KnobDefines(SplitLines(JoinLines(texts)));
    KnobsArePrinted(lines);
    ParsingReadsDefines(SplitLines(JoinLines(texts)));
    JoinedDefines(texts);
    LinesDefine(lines);
    EachDefineCounts(defines);
    SpelledDefinesParse(knobs);
    EachDefineCounts(Spellings(knobs));
  }

  lemma {:induction false} KnobsArePrinted(lines: seq<Line>)
    requires forall l :: l in lines && l.Definition? ==> Printable(l.knob)
    ensures forall k :: k in Knobs(lines) ==> Printable(k)
  {
    hide Printable;
    if lines != [] {
      KnobsArePrinted(lines[1..]);
    }
  }

  /** Nothing a header prints beside its knobs defines one: not the three fixed comments, a constraint, a cost-model
      line, or a knob's own comment. */
  ghost predicate TextsStay(notes: Notes, constraints: seq<string>, feature: seq<Knob>, host: seq<Knob>, model: seq<string>) {
    && StaysComment(notes.generated)
    && (host != [] ==> StaysComment(notes.host))
    && (model != [] ==> StaysComment(notes.model))
    && (forall t :: t in constraints ==> StaysComment(t))
    && (forall t :: t in model ==> StaysComment(t))
    && (forall k :: k in feature ==> StaysComment(k.comment))
    && (forall k :: k in host ==> StaysComment(k.comment))
  }

  /** Printing a params header and parsing it gives back exactly the printed values and no error if and only if no line
      after the first of any printed text defines a knob. */
  lemma HeaderRoundTripIff(notes: Notes, constraints: seq<string>, feature: seq<Knob>, host: seq<Knob>, model: seq<string>)
    requires forall k :: k in feature || k in host ==> Printable(k)
    requires DistinctMacros(feature + host)
    ensures ParseLines(SplitLines(PrintHeader(notes, constraints, feature, host, model))) == Parsed(Values(feature + host), []) <==>
            TextsStay(notes, constraints, feature, host, model)
  {
    hide Printable, SplitLines, JoinLines, ParseLines, Values, HeaderLines, RenderAll, Knobs, AllStay, TextsStay;
    var lines := HeaderLines(notes, constraints, feature, host, model);
    HeaderKnobs(notes, constraints, feature, host, model);
    HeaderDefinitions(notes, constraints, feature, host, model);
    LinesRoundTrip(lines);
    HeaderStays(notes, constraints, feature, host, model);
  }

  lemma HeaderDefinitions(notes: Notes, constraints: seq<string>, feature: seq<Knob>, host: seq<Knob>, model: seq<string>)
    ensures forall l :: l in HeaderLines(notes, constraints, feature, host, model) && l.Definition? ==>
              l.knob in feature || l.knob in host
  {
    hide Comments, Definitions;
  }

  lemma CommentsStay(prefix: string, texts: seq<string>)
    requires SingleLine(prefix) && prefix != ""
    ensures AllStay(Comments(prefix, texts)) <==> forall t :: t in texts ==> StaysComment(t)
  {
    hide StaysComment, SingleLine, Comments;
    forall t | t in texts
      ensures StaysComment(prefix + t) <==> StaysComment(t)
    {
      PrefixStays(prefix, t);
    }
    var lines := Comments(prefix, texts);
    forall i | 0 <= i < |texts|
      ensures TextOf(lines[i]) == prefix + texts[i] && lines[i] in lines && texts[i] in texts
    {
    }
  }

  lemma DefinitionsStay(knobs: seq<Knob>)
    ensures AllStay(Definitions(knobs)) <==> forall k :: k in knobs ==> StaysComment(k.comment)
  {
    hide StaysComment, Definitions;
    var lines := Definitions(knobs);
    forall i | 0 <= i < |knobs|
      ensures TextOf(lines[i]) == knobs[i].comment && lines[i] in lines && knobs[i] in knobs
    {
    }
  }

  lemma StayConcat(a: seq<Line>, b: seq<Line>)
    ensures AllStay(a + b) <==> AllStay(a) && AllStay(b)
  {
    hide StaysComment, TextOf;
  }

  lemma OneStays(l: Line)
    ensures AllStay([l]) <==> StaysComment(TextOf(l))
    ensures AllStay([])
  {
    hide StaysComment, TextOf;
  }

  lemma HeaderStays(notes: Notes, constraints: seq<string>, feature: seq<Knob>, host: seq<Knob>, model: seq<string>)
    ensures AllStay(HeaderLines(notes, constraints, feature, host, model)) <==> TextsStay(notes, constraints, feature, host, model)
  {
    hide StaysComment, AllStay, Comments, Definitions, SingleLine;
    ShortPrefixes();
    var head := [Comment(notes.generated)] + Comments(" constraint: ", constraints) + [Pragma];
    var hosts := if host == [] then [] else [Comment(notes.host)] + Definitions(host);
    var models := if model == [] then [] else [Comment(notes.model)] + Comments("   ", model);
    OneStays(Comment(notes.generated));
    OneStays(Comment(notes.host));
    OneStays(Comment(notes.model));
    OneStays(Pragma);
    SingleLineStays("");
    CommentsStay(" constraint: ", constraints);
    CommentsStay("   ", model);
    DefinitionsStay(feature);
    DefinitionsStay(host);
    StayConcat([Comment(notes.generated)], Comments(" constraint: ", constraints));
    StayConcat([Comment(notes.generated)] + Comments(" constraint: ", constraints), [Pragma]);
    StayConcat([Comment(notes.host)], Definitions(host));
    StayConcat([Comment(notes.model)], Comments("   ", model));
    StayConcat(head, Definitions(feature));
    StayConcat(head + Definitions(feature), hosts);
    StayConcat(head + Definitions(feature) + hosts, models);
    assert HeaderLines(notes, constraints, feature, host, model) == head + Definitions(feature) + hosts + models;
  }

  lemma ShortPrefixes()
    ensures SingleLine(" constraint: ") && SingleLine("   ") && SingleLine("")
  {
  }

  /** In particular when every text stays on one line, whatever it says. */
  lemma HeaderRoundTrip(notes: Notes, constraints: seq<string>, feature: seq<Knob>, host: seq<Knob>, model: seq<string>)
    requires forall k :: k in feature || k in host ==> Printable(k) && SingleLine(k.comment)
    requires DistinctMacros(feature + host)
    requires SingleLine(notes.generated) && SingleLine(notes.host) && SingleLine(notes.model)
    requires forall t :: t in constraints || t in model ==> SingleLine(t)
    ensures ParseLines(SplitLines(PrintHeader(notes, constraints, feature, host, model))) == Parsed(Values(feature + host), [])
    ensures forall k :: k in feature || k in host ==>
              k.macro in Values(feature + host) && Values(feature + host)[k.macro] == k.value
  {
    hide Printable, PrintHeader, SplitLines, ParseLines, Values, SingleLine, StaysComment;
    forall t: string | SingleLine(t)
      ensures StaysComment(t)
    {
      SingleLineStays(t);
    }
    HeaderRoundTripIff(notes, constraints, feature, host, model);
    forall k | k in feature || k in host
      ensures k.macro in Values(feature + host) && Values(feature + host)[k.macro] == k.value
    {
      assert k in feature + host;
      var i :| 0 <= i < |feature + host| && (feature + host)[i] == k;
      ValuesHold(feature + host, i);
    }
  }

  /** A comment that holds a line boundary can hide a definition: this one line lists no knob, and parses to one. */
  lemma BoundaryInCommentDefines(note: string, k: Knob)
    requires Printable(k) && SingleLine(k.comment) && SingleLine(note)
    ensures var line := Comment(note + "\n" + Render(Definition(k)));
            Knobs([line]) == [] &&
            ParseLines(SplitLines(JoinLines([Render(line)]))).values == map[k.macro := k.value]
  {
    hide Printable, Spell, DefineOf, LiteralOf, SplitLines, Values, SingleLine, ParseLines, StaysComment;
    var line := Comment(note + "\n" + Render(Definition(k)));
    KnobsOfComments([line]);
    var lines := [Comment(note), Definition(k)];
    BoundarySplits(note, Render(Definition(k)));
    assert RenderAll(lines)[1..] == RenderAll(lines[1..]) && lines[1..] == [Definition(k)] && [Definition(k)][1..] == [];
    assert RenderAll(lines) == [Render(Comment(note)), Render(Definition(k))];
    assert RenderAll([line]) == [Render(line)];
    SingleLineStays(note);
    SingleLineStays(k.comment);
    KnobsOfDefinitions([k]);
    KnobsConcat([Comment(note)], [Definition(k)]);
    KnobsOfComments([Comment(note)]);
    assert Knobs(lines) == [k];
    LinesRoundTrip(lines);
    OneValue(k);
  }

  lemma OneValue(k: Knob)
    ensures Values([k]) == map[k.macro := k.value]
  {
    assert [k][..0] == [];
  }

  lemma BoundarySplits(note: string, d: string)
    ensures JoinLines([Render(Comment(note + "\n" + d))]) == JoinLines([Render(Comment(note)), d])
  {
    var one, two := [Render(Comment(note + "\n" + d))], [Render(Comment(note)), d];
    assert one[1..] == [] && two[1..] == [d] && [d][1..] == [];
    assert one[0] == two[0] + "\n" + d;
  }
}
