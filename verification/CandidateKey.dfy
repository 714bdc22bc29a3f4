/** The key a candidate header is remembered by (loop/sr_evaluator.py, `candidate_key`), and why it may stand for
    what the parser reads: the key is the code with comments and spare whitespace gone. The hash of the code is
    taken to be injective, so the key here is the code itself. */
module CandidateKey {
  import opened Wrappers
  import opened Strings
  import opened Header

  /* ------------------------------------------------------------ the key */

  /** `line.split("//", 1)[0]`. */
  function Cut(s: string): string {
    if s == "" || StartsComment(s) then "" else [s[0]] + Cut(s[1..])
  }

  /** One line as the compiler sees it. */
  function CodeOf(line: string): string {
    JoinSpace(Words(Cut(line)))
  }

  function Codes(lines: seq<string>): (out: seq<string>)
    ensures "" !in out
  {
    if lines == [] then []
    else Codes(lines[..|lines| - 1]) + (if CodeOf(lines[|lines| - 1]) == "" then [] else [CodeOf(lines[|lines| - 1])])
  }

  /** `"\n".join(lines)`. */
  function JoinNewline(lines: seq<string>): string {
    if lines == [] then "" else if |lines| == 1 then lines[0] else lines[0] + "\n" + JoinNewline(lines[1..])
  }

  /** `candidate_key`, before hashing. */
  method Key(text: string) returns (key: string)
    ensures key == JoinNewline(Codes(SplitLines(text)))
  {
    var lines := SplitLines(text);
    var kept: seq<string> := [];
    for i := 0 to |lines|
      invariant kept == Codes(lines[..i])
    {
      assert lines[..i + 1][..i] == lines[..i];
      var code := CodeOf(lines[i]);
      if code != "" {
        kept := kept + [code];
      }
    }
    assert lines[..|lines|] == lines;
    key := JoinNewline(kept);
  }

  /* ------------------------------------------------------------ dropping the comment */

  lemma {:induction false} CutLStrip(s: string)
    ensures LStrip(Cut(s)) == Cut(LStrip(s))
  {
    if s != "" && IsSpace(s[0]) {
      CutLStrip(s[1..]);
    }
  }

  lemma {:induction false} CutPrefix(w: string, s: string)
    requires '/' !in w
    ensures w <= s <==> w <= Cut(s)
    ensures w <= s ==> Cut(s)[|w|..] == Cut(s[|w|..]) && Cut(s)[..|w|] == w
  {
    if w != "" {
      if s != "" && s[0] == w[0] {
        assert w[0] in w;
        CutPrefix(w[1..], s[1..]);
        assert w <= s <==> w[1..] <= s[1..];
        assert w <= Cut(s) <==> w[1..] <= Cut(s)[1..];
      } else if Cut(s) != "" {
        assert Cut(s)[0] == s[0];
      }
    }
  }

  lemma SlashEndsIdent(s: string)
    requires s != "" && IsIdentChar(s[0])
    ensures !StartsComment(s)
  {
  }

  lemma {:induction false} CutIdent(s: string)
    ensures IdentEnd(Cut(s)) == IdentEnd(s)
    ensures Cut(s)[..IdentEnd(s)] == s[..IdentEnd(s)]
    ensures Cut(s)[IdentEnd(s)..] == Cut(s[IdentEnd(s)..])
  {
    hide IsIdentChar;
    if s != "" && IsIdentChar(s[0]) {
      CutIdent(s[1..]);
      SlashEndsIdent(s);
      assert Cut(s) == [s[0]] + Cut(s[1..]);
      assert Cut(s)[1..] == Cut(s[1..]);
      var n := IdentEnd(s[1..]);
      assert s[1..][n..] == s[n + 1..];
      assert Cut(s)[..n + 1] == [s[0]] + Cut(s[1..])[..n] && s[..n + 1] == [s[0]] + s[1..][..n];
      assert Cut(s)[n + 1..] == Cut(s[1..])[n..];
    }
  }

  lemma CutStartsNoComment(s: string)
    ensures !StartsComment(Cut(s))
    ensures Cut(s) == "" <==> s == "" || StartsComment(s)
  {
    if s != "" && !StartsComment(s) && s[0] == '/' && Cut(s[1..]) != "" {
      assert Cut(s)[1] == s[1];
    }
  }

  lemma CutTail(s: string)
    ensures IsTail(Cut(s)) <==> IsTail(s)
  {
    CutLStrip(s);
    CutStartsNoComment(LStrip(s));
  }

  lemma {:induction false} CutBody(s: string)
    ensures Cut(s)[..BodyEnd(Cut(s))] == s[..BodyEnd(s)]
  {
    hide BodyEnd, IsTail, StartsComment;
    CutTail(s);
    BodyEndStep(s);
    BodyEndStep(Cut(s));
    if !IsTail(s) {
      CutBody(s[1..]);
      NotTailNotComment(s);
      var n := BodyEnd(s[1..]);
      assert s[..1 + n] == [s[0]] + s[1..][..n];
      assert Cut(s)[..1 + n] == [s[0]] + Cut(s[1..])[..n];
    }
  }

  lemma BodyEndStep(s: string)
    ensures if IsTail(s) then BodyEnd(s) == 0 else s != "" && BodyEnd(s) == 1 + BodyEnd(s[1..])
  {
  }

  lemma NotTailNotComment(s: string)
    requires !IsTail(s)
    ensures s != "" && !StartsComment(s)
  {
  }

  /** The parser reads nothing past the comment mark. */
  lemma DefineOfCut(line: string)
    ensures DefineOf(Cut(line)) == DefineOf(line)
  {
    hide AfterDefine;
    CutLStrip(line);
    var hash := LStrip(line);
    if hash != "" && hash[0] == '#' {
      assert Cut(hash)[1..] == Cut(hash[1..]);
      CutLStrip(hash[1..]);
      var word := LStrip(hash[1..]);
      CutPrefix(DEFINE, word);
      if DEFINE <= word {
        AfterDefineCut(word[6..]);
      }
    } else {
      CutStartsNoComment(hash);
      assert Cut(hash) != "" ==> Cut(hash)[0] == hash[0];
    }
  }

  lemma AfterDefineCut(s: string)
    ensures AfterDefine(Cut(s)) == AfterDefine(s)
  {
    CutStartsNoComment(s);
    CutLStrip(s);
    var name := LStrip(s);
    CutStartsNoComment(name);
    if s != "" && IsSpace(s[0]) && name != "" && IsIdentStart(name[0]) {
      CutIdent(name);
      var rest := name[IdentEnd(name)..];
      CutLStrip(rest);
      CutBody(LStrip(rest));
    }
  }

  /* ------------------------------------------------------------ squeezing the whitespace */

  ghost predicate NoComment(s: string) {
    forall i :: 0 <= i < |s| ==> !StartsComment(s[i..])
  }

  lemma {:induction false} CutHasNoComment(s: string)
    ensures NoComment(Cut(s))
  {
    if s != "" && !StartsComment(s) {
      CutHasNoComment(s[1..]);
      CutStartsNoComment(s);
      assert Cut(s)[0..] == Cut(s);
      assert forall i :: 1 <= i < |Cut(s)| ==> Cut(s)[i..] == Cut(s[1..])[i - 1..];
    }
  }

  lemma NoCommentSuffix(s: string, n: nat)
    requires NoComment(s) && n <= |s|
    ensures NoComment(s[n..])
  {
    assert forall i :: 0 <= i < |s| - n ==> s[n..][i..] == s[n + i..];
  }

  lemma {:induction false} NoCommentLStrip(s: string)
    requires NoComment(s)
    ensures NoComment(LStrip(s))
  {
    if s != "" && IsSpace(s[0]) {
      NoCommentSuffix(s, 1);
      NoCommentLStrip(s[1..]);
    }
  }

  lemma SqueezeStartsSolid(s: string)
    ensures Squeeze(s) == "" || !IsSpace(Squeeze(s)[0])
    ensures LStrip(Squeeze(s)) == Squeeze(s)
  {
    SqueezeSkipsBlanks(s);
  }

  lemma LStripSqueezeRest(s: string)
    ensures LStrip(SqueezeRest(s)) == Squeeze(s)
  {
    SqueezeStartsSolid(s);
    if s != "" && IsSpace(s[0]) && Squeeze(s) != "" {
      assert (" " + Squeeze(s))[1..] == Squeeze(s);
    }
  }

  lemma {:induction false} SqueezeEmpty(s: string)
    ensures Squeeze(s) == "" <==> LStrip(s) == ""
  {
    SqueezeSkipsBlanks(s);
  }

  lemma {:induction false} WordPrefixSqueeze(w: string, s: string)
    requires forall i :: 0 <= i < |w| ==> !IsSpace(w[i])
    ensures w <= s <==> w <= SqueezeRest(s)
    ensures w <= s ==> SqueezeRest(s)[|w|..] == SqueezeRest(s[|w|..])
  {
    if w != "" {
      if s != "" && s[0] == w[0] {
        WordPrefixSqueeze(w[1..], s[1..]);
        assert w <= s <==> w[1..] <= s[1..];
        assert SqueezeRest(s)[1..] == SqueezeRest(s[1..]);
        assert w <= SqueezeRest(s) <==> w[1..] <= SqueezeRest(s)[1..];
      } else if SqueezeRest(s) != "" {
        assert SqueezeRest(s)[0] == (if IsSpace(s[0]) then ' ' else s[0]);
      }
    }
  }

  lemma SqueezeStartsComment(s: string)
    requires StartsComment(Squeeze(s))
    ensures StartsComment(LStrip(s))
  {
    SqueezeSkipsBlanks(s);
    var u := LStrip(s);
    assert Squeeze(u) == [u[0]] + SqueezeRest(u[1..]);
    assert SqueezeRest(u[1..])[0] == (if IsSpace(u[1]) then ' ' else u[1]);
  }

  /** A solid start that is no comment cannot begin a tail. */
  lemma SolidIsNoTail(s: string)
    requires s != "" && !IsSpace(s[0]) && !StartsComment(s)
    ensures !IsTail(s)
  {
  }

  lemma {:induction false} BodyEndPast(s: string, n: nat)
    requires n <= |s| && forall i :: 0 <= i < n ==> !IsTail(s[i..])
    ensures BodyEnd(s) >= n
    ensures IsTail(s[n..]) ==> BodyEnd(s) == n
  {
  }

  /** The value after squeezing is the same literal, or no literal on either side. */
  lemma SqueezedBody(s: string)
    requires NoComment(s) && (s == "" || !IsSpace(s[0]))
    ensures LiteralOf(s[..BodyEnd(s)]) == LiteralOf(Squeeze(s)[..BodyEnd(Squeeze(s))])
  {
    hide LiteralOf;
    if s != "" {
      var n := WordEnd(s);
      var t := Squeeze(s);
      assert Squeeze(s) == SqueezeRest(s);
      SqueezeRestWord(s, n);
      assert t == s[..n] + SqueezeRest(s[n..]);
      forall i | 0 <= i < n
        ensures !IsTail(s[i..])
      {
        SolidIsNoTail(s[i..]);
      }
      SqueezeEmpty(s[n..]);
      if Squeeze(s[n..]) == "" {
        WordThenBlanks(s, n);
      } else {
        WordThenMore(s, n);
      }
    }
  }

  lemma WordThenBlanks(s: string, n: nat)
    requires n == WordEnd(s) && NoComment(s) && forall i :: 0 <= i < n ==> !IsTail(s[i..])
    requires Squeeze(s) == s[..n] + SqueezeRest(s[n..]) && Squeeze(s[n..]) == "" && LStrip(s[n..]) == ""
    ensures s[..BodyEnd(s)] == Squeeze(s)[..BodyEnd(Squeeze(s))]
  {
    BodyEndPast(s, n);
    assert SqueezeRest(s[n..]) == "";
    var t := s[..n];
    assert Squeeze(s) == t;
    forall i | 0 <= i < n
      ensures !IsTail(t[i..])
    {
      assert t[i..][0] == s[i];
      assert !StartsComment(s[i..]);
      if |t[i..]| >= 2 {
        assert t[i..][1] == s[i..][1];
      }
      SolidIsNoTail(t[i..]);
    }
    BodyEndPast(t, n);
    assert t[n..] == "";
  }

  lemma WordThenMore(s: string, n: nat)
    requires n == WordEnd(s) && NoComment(s) && forall i :: 0 <= i < n ==> !IsTail(s[i..])
    requires Squeeze(s) == s[..n] + SqueezeRest(s[n..]) && Squeeze(s[n..]) != ""
    ensures LiteralOf(s[..BodyEnd(s)]) == None && LiteralOf(Squeeze(s)[..BodyEnd(Squeeze(s))]) == None
  {
    hide LiteralOf, BodyEnd, IsTail, Squeeze, SqueezeRest;
    var rest, t := s[n..], Squeeze(s);
    SpaceThenMore(s, n);
    assert forall i :: 0 <= i < n + 1 ==> !IsTail(s[i..]);
    BodyEndPast(s, n + 1);
    HasSpace(s[..BodyEnd(s)], n);
    assert t == s[..n] + (" " + Squeeze(rest));
    forall i | 0 <= i < n
      ensures !IsTail(t[i..])
    {
      WordStaysSolid(s, n, t, i);
    }
    assert t[n..] == " " + Squeeze(rest);
    assert forall i :: 0 <= i < n + 1 ==> !IsTail(t[i..]);
    BodyEndPast(t, n + 1);
    HasSpace(t[..BodyEnd(t)], n);
  }

  /** A blank with code behind it ends no value, before the squeeze or after it. */
  lemma SpaceThenMore(s: string, n: nat)
    requires n == WordEnd(s) && NoComment(s) && Squeeze(s[n..]) != ""
    ensures n < |s| && IsSpace(s[n]) && !IsTail(s[n..])
    ensures SqueezeRest(s[n..]) == " " + Squeeze(s[n..]) && !IsTail(" " + Squeeze(s[n..]))
  {
    hide Squeeze, NoComment;
    SqueezeEmpty(s[n..]);
    NoCommentSuffix(s, n);
    NoCommentLStrip(s[n..]);
    assert LStrip(s[n..])[0..] == LStrip(s[n..]);
    SqueezedNoTail(s[n..]);
  }

  lemma SqueezedNoTail(rest: string)
    requires NoComment(rest) && Squeeze(rest) != ""
    ensures !IsTail(" " + Squeeze(rest))
  {
    hide Squeeze, SqueezeRest;
    NoCommentLStrip(rest);
    assert LStrip(rest)[0..] == LStrip(rest);
    SqueezeStartsSolid(rest);
    assert (" " + Squeeze(rest))[1..] == Squeeze(rest);
    if StartsComment(Squeeze(rest)) {
      SqueezeStartsComment(rest);
    }
  }

  lemma WordStaysSolid(s: string, n: nat, t: string, i: nat)
    requires i < n == WordEnd(s) && NoComment(s) && n < |t| && t[..n] == s[..n] && t[n] == ' '
    ensures !IsTail(t[i..])
  {
    assert t[i..][0] == t[..n][i] == s[..n][i];
    assert !StartsComment(s[i..]);
    if i + 1 < n {
      assert t[i..][1] == t[..n][i + 1] == s[..n][i + 1] == s[i..][1];
    } else {
      assert t[i..][1] == ' ';
    }
    SolidIsNoTail(t[i..]);
  }

  lemma HasSpace(body: string, n: nat)
    requires n < |body| && IsSpace(body[n])
    ensures LiteralOf(body) == None
  {
    if LiteralOf(body).Some? {
      LiteralHasNoSpace(body);
    }
  }

  /** Two readings of a line that the parser cannot tell apart. */
  ghost predicate SameDefine(a: Option<Define>, b: Option<Define>) {
    (a == None && b == None) ||
    (a.Some? && b.Some? && a.value.macro == b.value.macro && LiteralOf(a.value.body) == LiteralOf(b.value.body))
  }

  lemma AfterDefineSqueezed(s: string)
    requires NoComment(s)
    ensures SameDefine(AfterDefine(s), AfterDefine(SqueezeRest(s)))
  {
    hide LiteralOf;
    var t := SqueezeRest(s);
    if s == "" || !IsSpace(s[0]) {
    } else {
      var name := LStrip(s);
      SqueezeSkipsBlanks(s);
      SqueezeEmpty(s);
      LStripSqueezeRest(s);
      NoCommentLStrip(s);
      if name != "" {
        assert t == " " + Squeeze(s);
        assert LStrip(t) == Squeeze(name) == SqueezeRest(name);
        if IsIdentStart(name[0]) {
          NameSqueezed(name);
        }
      }
    }
  }

  lemma NameSqueezed(name: string)
    requires NoComment(name) && name != "" && IsIdentStart(name[0])
    ensures var t := SqueezeRest(name);
            var n := IdentEnd(name);
            && IdentEnd(t) == n && t[..n] == name[..n]
            && LiteralOf(LStrip(name[n..])[..BodyEnd(LStrip(name[n..]))]) ==
               LiteralOf(LStrip(t[n..])[..BodyEnd(LStrip(t[n..]))])
  {
    hide LiteralOf;
    var n, t := IdentEnd(name), SqueezeRest(name);
    SqueezeRestWord(name, n);
    var rest := name[n..];
    assert SqueezeRest(rest) != "" ==> SqueezeRest(rest)[0] == (if IsSpace(rest[0]) then ' ' else rest[0]);
    IdentEndSame(name[..n], SqueezeRest(rest));
    assert t[n..] == SqueezeRest(rest);
    LStripSqueezeRest(rest);
    SqueezeSkipsBlanks(rest);
    NoCommentSuffix(name, n);
    NoCommentLStrip(rest);
    SqueezedBody(LStrip(rest));
  }

  lemma {:induction false} IdentEndSame(ident: string, rest: string)
    requires forall i :: 0 <= i < |ident| ==> IsIdentChar(ident[i])
    requires rest != "" ==> !IsIdentChar(rest[0])
    ensures IdentEnd(ident + rest) == |ident|
  {
    if ident != "" {
      IdentEndSame(ident[1..], rest);
      assert (ident + rest)[1..] == ident[1..] + rest;
    }
  }

  lemma DefineOfSqueezed(s: string)
    requires NoComment(s)
    ensures SameDefine(DefineOf(s), DefineOf(Squeeze(s)))
  {
    hide LiteralOf, AfterDefine;
    var hash := LStrip(s);
    SqueezeSkipsBlanks(s);
    SqueezeStartsSolid(s);
    NoCommentLStrip(s);
    if hash != "" && hash[0] == '#' {
      var t := Squeeze(hash);
      assert t[1..] == SqueezeRest(hash[1..]);
      LStripSqueezeRest(hash[1..]);
      SqueezeSkipsBlanks(hash[1..]);
      var word := LStrip(hash[1..]);
      assert Squeeze(word) == SqueezeRest(word);
      assert forall i :: 0 <= i < |DEFINE| ==> !IsSpace(DEFINE[i]);
      WordPrefixSqueeze(DEFINE, word);
      if DEFINE <= word {
        NoCommentSuffix(hash, 1);
        NoCommentLStrip(hash[1..]);
        NoCommentSuffix(word, 6);
        AfterDefineSqueezed(word[6..]);
      }
    }
  }

  /** A line and its code read alike. */
  lemma CodeReadsAlike(line: string)
    ensures SameDefine(DefineOf(line), DefineOf(CodeOf(line)))
  {
    hide DefineOf, LiteralOf;
    DefineOfCut(line);
    CutHasNoComment(line);
    DefineOfSqueezed(Cut(line));
    SqueezeIsJoinedWords(Cut(line));
  }

  /* ------------------------------------------------------------ equal keys, equal values */

  /** The same values, and as many errors. */
  ghost predicate Alike(p: Parsed, q: Parsed) {
    p.values == q.values && |p.errors| == |q.errors|
  }

  lemma SameDefineParsesAlike(p: Parsed, q: Parsed, line: string, code: string)
    requires Alike(p, q) && SameDefine(DefineOf(line), DefineOf(code))
    ensures Alike(ParseLine(p, line), ParseLine(q, code))
  {
    hide DefineOf, LiteralOf;
  }

  lemma {:induction false} LinesParseAsCodes(lines: seq<string>)
    ensures Alike(ParseLines(lines), ParseLines(Codes(lines)))
  {
    hide DefineOf, LiteralOf, CodeOf, Alike;
    if lines == [] {
      NothingAlike();
    } else {
      var last := |lines| - 1;
      LinesParseAsCodes(lines[..last]);
      CodeReadsAlike(lines[last]);
      var front, code := Codes(lines[..last]), CodeOf(lines[last]);
      SameDefineParsesAlike(ParseLines(lines[..last]), ParseLines(front), lines[last], code);
      if code == "" {
        EmptyDefinesNothing();
        assert Codes(lines) == front + [] == front;
      } else {
        assert Codes(lines) == front + [code];
        assert (front + [code])[..|front|] == front;
      }
    }
  }

  lemma NothingAlike()
    ensures Alike(ParseLines([]), ParseLines(Codes([])))
  {
  }

  lemma EmptyDefinesNothing()
    ensures DefineOf("") == None
  {
  }

  lemma {:induction false} SqueezedIsOneLine(s: string)
    ensures '\n' !in Squeeze(s) && '\n' !in SqueezeRest(s)
    decreases |s|
  {
    if s != "" {
      SqueezedIsOneLine(s[1..]);
      if IsSpace(s[0]) {
        assert Squeeze(s) == Squeeze(s[1..]);
      }
    }
  }

  lemma {:induction false} CodesAreOneLine(lines: seq<string>)
    ensures forall c :: c in Codes(lines) ==> '\n' !in c
  {
    hide CodeOf;
    if lines != [] {
      CodesAreOneLine(lines[..|lines| - 1]);
      CodeIsOneLine(lines[|lines| - 1]);
    }
  }

  lemma CodeIsOneLine(line: string)
    ensures '\n' !in CodeOf(line)
  {
    SqueezeIsJoinedWords(Cut(line));
    SqueezedIsOneLine(Cut(line));
  }

  lemma {:induction false} SplitJoinedNewline(lines: seq<string>)
    requires lines != [] && forall l :: l in lines ==> '\n' !in l
    ensures Split(JoinNewline(lines), '\n') == lines
  {
    if |lines| == 1 {
      SplitNone(lines[0], '\n');
    } else {
      SplitJoinedNewline(lines[1..]);
      SplitCons(lines[0], JoinNewline(lines[1..]), '\n');
      assert lines[0] + ['\n'] + JoinNewline(lines[1..]) == JoinNewline(lines);
    }
  }

  lemma JoinIsInjective(a: seq<string>, b: seq<string>)
    requires forall l :: l in a || l in b ==> l != "" && '\n' !in l
    requires JoinNewline(a) == JoinNewline(b)
    ensures a == b
  {
    JoinIsEmpty(a);
    JoinIsEmpty(b);
    if a != [] && b != [] {
      SplitJoinedNewline(a);
      SplitJoinedNewline(b);
    }
  }

  lemma JoinIsEmpty(lines: seq<string>)
    requires "" !in lines
    ensures JoinNewline(lines) == "" <==> lines == []
  {
    if lines != [] {
      assert lines[0] in lines;
    }
  }

  /** Two headers with the same normalised code parse to the same values, with as many errors. */
  lemma SameKeySameValues(a: string, b: string)
    requires JoinNewline(Codes(SplitLines(a))) == JoinNewline(Codes(SplitLines(b)))
    ensures Alike(ParseLines(SplitLines(a)), ParseLines(SplitLines(b)))
  {
    hide Codes, JoinNewline, ParseLines, SplitLines;
    var x, y := SplitLines(a), SplitLines(b);
    CodesAreOneLine(x);
    CodesAreOneLine(y);
    JoinIsInjective(Codes(x), Codes(y));
    LinesParseAsCodes(x);
    LinesParseAsCodes(y);
  }

  /* ------------------------------------------------------------ the verdict on a header */

  datatype KnobSpec = KnobSpec(macro: string, name: string, host: bool)

  /** What `knob_values` refuses: every knob must be there once with a legal value, and no other SR_ or HOST_ macro. */
  ghost predicate Legal(p: Parsed, knobs: seq<KnobSpec>, inRange: (KnobSpec, Literal) -> bool) {
    && p.errors == []
    && (forall m :: m in p.values ==> exists i :: 0 <= i < |knobs| && knobs[i].macro == m)
    && (forall i :: 0 <= i < |knobs| ==> knobs[i].macro in p.values && inRange(knobs[i], p.values[knobs[i].macro]))
  }

  /** One side's parsed values by knob name: a later knob of the same name takes the place of an earlier one. */
  function Named(p: Parsed, knobs: seq<KnobSpec>, host: bool): (named: map<string, Literal>)
    ensures forall n :: n in named <==>
              exists i :: 0 <= i < |knobs| && knobs[i].host == host && knobs[i].name == n && knobs[i].macro in p.values
    ensures forall n :: n in named ==>
              exists i :: 0 <= i < |knobs| && knobs[i].host == host && knobs[i].name == n && knobs[i].macro in p.values
                          && named[n] == p.values[knobs[i].macro]
  {
    if knobs == [] then map[]
    else
      var last := knobs[|knobs| - 1];
      var front := Named(p, knobs[..|knobs| - 1], host);
      if last.host == host && last.macro in p.values then front[last.name := p.values[last.macro]] else front
  }

  /** `knob_values`: how many errors, and each side's values by name. */
  method KnobValues(p: Parsed, knobs: seq<KnobSpec>, inRange: (KnobSpec, Literal) -> bool)
    returns (feature: map<string, Literal>, host: map<string, Literal>, errors: nat)
    ensures errors == 0 <==> Legal(p, knobs, inRange)
    ensures feature == Named(p, knobs, false) && host == Named(p, knobs, true)
  {
    hide Named, IsMacro;
    errors := |p.errors|;
    var rest := p.values.Keys;
    while rest != {}
      invariant rest <= p.values.Keys
      invariant errors == 0 <==> p.errors == [] && forall m :: m in p.values.Keys - rest ==> IsMacro(knobs, m)
      decreases |rest|
    {
      var m :| m in rest;
      if !IsMacro(knobs, m) {
        errors := errors + 1;
      }
      rest := rest - {m};
    }
    feature, host := map[], map[];
    NothingNamed(p);
    assert knobs[..0] == [];
    ghost var strangers := errors;
    for i := 0 to |knobs|
      invariant errors == 0 <==> strangers == 0 && LegalSoFar(p, knobs[..i], inRange)
      invariant feature == Named(p, knobs[..i], false) && host == Named(p, knobs[..i], true)
    {
      var k := knobs[i];
      assert knobs[..i + 1] == knobs[..i] + [k];
      OneMoreNamed(p, knobs[..i], k, inRange);
      if k.macro !in p.values {
        errors := errors + 1;
      } else {
        var value := p.values[k.macro];
        if !inRange(k, value) {
          errors := errors + 1;
        }
        if k.host {
          host := host[k.name := value];
        } else {
          feature := feature[k.name := value];
        }
      }
    }
    assert knobs[..|knobs|] == knobs;
    LegalInParts(p, knobs, inRange);
  }

  ghost predicate LegalSoFar(p: Parsed, knobs: seq<KnobSpec>, inRange: (KnobSpec, Literal) -> bool) {
    forall i :: 0 <= i < |knobs| ==> knobs[i].macro in p.values && inRange(knobs[i], p.values[knobs[i].macro])
  }

  lemma NothingNamed(p: Parsed)
    ensures Named(p, [], false) == map[] == Named(p, [], true)
  {
  }

  lemma OneMoreNamed(p: Parsed, knobs: seq<KnobSpec>, k: KnobSpec, inRange: (KnobSpec, Literal) -> bool)
    ensures LegalSoFar(p, knobs + [k], inRange) <==>
            LegalSoFar(p, knobs, inRange) && k.macro in p.values && inRange(k, p.values[k.macro])
    ensures forall host :: Named(p, knobs + [k], host) ==
                           if k.host == host && k.macro in p.values then Named(p, knobs, host)[k.name := p.values[k.macro]]
                           else Named(p, knobs, host)
  {
    var all := knobs + [k];
    assert all[..|knobs|] == knobs && all[|knobs|] == k;
    assert forall i :: 0 <= i < |knobs| ==> all[i] == knobs[i];
  }

  lemma LegalInParts(p: Parsed, knobs: seq<KnobSpec>, inRange: (KnobSpec, Literal) -> bool)
    ensures Legal(p, knobs, inRange) <==>
            p.errors == [] && (forall m :: m in p.values.Keys ==> IsMacro(knobs, m)) && LegalSoFar(p, knobs, inRange)
  {
  }

  predicate IsMacro(knobs: seq<KnobSpec>, m: string) {
    exists i :: 0 <= i < |knobs| && knobs[i].macro == m
  }

  /** Two headers with the same key are both legal candidates, or neither is. */
  lemma SameKeySameVerdict(a: string, b: string, knobs: seq<KnobSpec>, inRange: (KnobSpec, Literal) -> bool)
    requires JoinNewline(Codes(SplitLines(a))) == JoinNewline(Codes(SplitLines(b)))
    ensures Legal(ParseLines(SplitLines(a)), knobs, inRange) <==> Legal(ParseLines(SplitLines(b)), knobs, inRange)
  {
    hide Codes, JoinNewline, ParseLines, SplitLines;
    SameKeySameValues(a, b);
  }
}
