/** Enum knobs: how the header writes a choice (loop/dse.py, `_enum_choices`, `_render_value`) and how the checker
    reads the range it is an index into (loop/spec_checks.py, `parse_range`; loop/constraints.py, `range_error`). */
module EnumRange {
  import opened Wrappers
  import opened Strings

  const PREFIX: string := "choices:"
  const LARGE := "ABCDEFGHIJKLMNOPQRSTUVWXYZ"
  const SMALL := "abcdefghijklmnopqrstuvwxyz"

  function Lower(c: char): char {
    if 'A' <= c <= 'Z' then (c as int + 32) as char else c
  }

  predicate StartsLower(s: string, word: string) {
    |s| >= |word| && forall i :: 0 <= i < |word| ==> Lower(s[i]) == word[i]
  }

  /** A letter's own lower case, and any other character itself. */
  lemma LowerIs(c: char)
    ensures Lower(c) == c || exists k: nat :: k < 26 && c == LARGE[k] && Lower(c) == SMALL[k]
    ensures forall k: nat :: k < 26 ==> Lower(LARGE[k]) == SMALL[k]
  {
    if 'A' <= c <= 'Z' {
      var k := c as int - 'A' as int;
      assert c == LARGE[k] && Lower(c) == SMALL[k];
    }
  }

  /** Some text as long as the word, which is the word in lower case, and the rest, if there is any. */
  lemma StartsLowerIff(s: string, word: string)
    ensures StartsLower(s, word) <==>
              exists head: string, rest: string ::
                s == head + rest && |head| == |word| && forall i :: 0 <= i < |head| ==> Lower(head[i]) == word[i]
  {
    if StartsLower(s, word) {
      var head, rest := s[..|word|], s[|word|..];
      assert s == head + rest;
      assert forall i :: 0 <= i < |head| ==> Lower(head[i]) == word[i];
    }
  }

  function Strip(s: string): string {
    RStrip(LStrip(s))
  }

  function StripAll(parts: seq<string>): (out: seq<string>)
    ensures |out| == |parts| && forall i :: 0 <= i < |out| ==> out[i] == Strip(parts[i])
  {
    if parts == [] then [] else [Strip(parts[0])] + StripAll(parts[1..])
  }

  function NonEmpty(parts: seq<string>): (out: seq<string>)
    ensures forall p :: p in out <==> p in parts && p != ""
    ensures |out| <= |parts|
  {
    if parts == [] then []
    else
      var last := |parts| - 1;
      assert parts == parts[..last] + [parts[last]];
      NonEmpty(parts[..last]) + (if parts[last] == "" then [] else [parts[last]])
  }

  /** `_enum_choices`. */
  function EnumChoices(range: string): seq<string> {
    var body := if StartsLower(range, PREFIX) then range[|PREFIX|..] else range;
    StripAll(Split(body, '|'))
  }

  /** After `choices\s*:\s*`, on a text already stripped. */
  function AfterChoices(text: string): Option<string> {
    if !StartsLower(text, "choices") then None
    else
      var rest := LStrip(text[7..]);
      if rest == "" || rest[0] != ':' || LStrip(rest[1..]) == "" then None else Some(LStrip(rest[1..]))
  }

  /** `parse_range`, for a range of choices on one line. */
  function ParseChoices(range: string): Option<seq<string>> {
    match AfterChoices(Strip(range))
    case None => None
    case Some(body) => Some(NonEmpty(StripAll(Split(body, '|'))))
  }

  function IndexOf(parts: seq<string>, v: string): (at: Option<nat>)
    ensures at.Some? ==> at.value < |parts| && parts[at.value] == v && v !in parts[..at.value]
    ensures at == None <==> v !in parts
  {
    if parts == [] then None
    else if parts[0] == v then Some(0)
    else match IndexOf(parts[1..], v)
         case None => None
         case Some(i) => assert parts[..i + 1] == [parts[0]] + parts[1..][..i]; Some(i + 1)
  }

  /** `s.lstrip("-")`. */
  function StripDashes(s: string): string {
    if s != "" && s[0] == '-' then StripDashes(s[1..]) else s
  }

  /** `int(s)`; None is its ValueError. */
  function ParseInt(s: string): Option<int> {
    if IsDigits(s) then Some(ParseNat(s))
    else if s != "" && s[0] == '-' && IsDigits(s[1..]) then Some(0 - (ParseNat(s[1..]) as int))
    else None
  }

  /** The index `_render_value` writes for a value; None is the ValueError of `int`. */
  function RenderedIndex(range: string, v: string): Option<int> {
    match IndexOf(EnumChoices(range), v)
    case Some(i) => Some(i)
    case None => if IsDigits(StripDashes(v)) then ParseInt(v) else Some(0)
  }

  /** `range_error` finds nothing wrong with an enum's index. */
  predicate Accepted(range: string, i: int)
    requires ParseChoices(range).Some?
  {
    0 <= i < |ParseChoices(range).value|
  }

  /* ------------------------------------------------------------ the two readings of one range */

  lemma {:induction false} RStripAppend(a: string, b: string)
    requires RStrip(b) != ""
    ensures RStrip(a + b) == a + RStrip(b)
    decreases |b|
  {
    var last := |b| - 1;
    assert (a + b)[|a| + last] == b[last];
    if IsSpace(b[last]) {
      RStripAppend(a, b[..last]);
      assert (a + b)[..|a + b| - 1] == a + b[..last];
    }
  }

  lemma {:induction false} RStripBlank(a: string, b: string)
    requires RStrip(b) == ""
    ensures RStrip(a + b) == RStrip(a)
    decreases |b|
  {
    if b == "" {
      assert a + b == a;
    } else {
      var last := |b| - 1;
      assert (a + b)[|a| + last] == b[last];
      RStripBlank(a, b[..last]);
      assert (a + b)[..|a + b| - 1] == a + b[..last];
    }
  }

  lemma {:induction false} LStripIsSuffix(s: string) returns (n: nat)
    ensures n <= |s| && LStrip(s) == s[n..] && forall i :: 0 <= i < n ==> IsSpace(s[i])
  {
    if s != "" && IsSpace(s[0]) {
      n := LStripIsSuffix(s[1..]);
      n := n + 1;
      assert s[1..][n - 1..] == s[n..];
    } else {
      n := 0;
      assert s[0..] == s;
    }
  }

  lemma {:induction false} LStripBlanks(s: string, n: nat)
    requires n <= |s| && forall i :: 0 <= i < n ==> IsSpace(s[i])
    ensures LStrip(s) == LStrip(s[n..])
  {
    if n > 0 {
      LStripBlanks(s[1..], n - 1);
      assert s[1..][n - 1..] == s[n..];
    } else {
      assert s[0..] == s;
    }
  }

  /** Blanks at the front of the whole text go when its first part is stripped. */
  lemma {:induction false} SplitSkipsFront(s: string)
    ensures StripAll(Split(LStrip(s), '|')) == StripAll(Split(s, '|'))
  {
    if s != "" && IsSpace(s[0]) {
      SplitSkipsFront(s[1..]);
      assert s[0] != '|' by { assert !IsSpace('|'); }
      var rest := Split(s[1..], '|');
      assert Split(s, '|') == [[s[0]] + rest[0]] + rest[1..];
      StripSkipsOne(s[0], rest[0]);
      var a, b := StripAll(Split(s, '|')), StripAll(rest);
      forall i | 0 <= i < |a| ensures a[i] == b[i] {}
      assert a == b;
    }
  }

  lemma StripSkipsOne(c: char, s: string)
    requires IsSpace(c)
    ensures Strip([c] + s) == Strip(s)
  {
    assert ([c] + s)[1..] == s;
  }

  /** ... and blanks at its end when the last part is. */
  lemma {:induction false} SplitSkipsBack(s: string)
    ensures StripAll(Split(RStrip(s), '|')) == StripAll(Split(s, '|'))
    decreases |s|
  {
    hide StripAll, Split;
    if s != "" && IsSpace(s[|s| - 1]) {
      var front, c := s[..|s| - 1], s[|s| - 1];
      SplitSkipsBack(front);
      assert c != '|' by { assert !IsSpace('|'); }
      assert s == front + [c];
      SplitAppend(front, c);
      LastPartStripped(Split(front, '|'), c);
    }
  }

  lemma {:induction false} StripAllAppend(front: seq<string>, x: string)
    ensures StripAll(front + [x]) == StripAll(front) + [Strip(x)]
  {
    hide Strip;
    if front == [] {
      assert [x][1..] == [] && [] + [x] == [x];
    } else {
      StripAllAppend(front[1..], x);
      assert (front + [x])[1..] == front[1..] + [x];
    }
  }

  lemma LastPartStripped(parts: seq<string>, c: char)
    requires parts != [] && IsSpace(c)
    ensures StripAll(parts[..|parts| - 1] + [parts[|parts| - 1] + [c]]) == StripAll(parts)
  {
    hide Strip, IsSpace, StripAll;
    var front, x := parts[..|parts| - 1], parts[|parts| - 1];
    assert parts == front + [x];
    StripSkipsLast(x, c);
    StripAllAppend(front, x + [c]);
    StripAllAppend(front, x);
  }

  lemma SplitStep(s: string)
    requires s != ""
    ensures Split(s, '|') == Before(s[0], Split(s[1..], '|'))
  {
  }

  lemma SplitOne(c: char)
    requires c != '|'
    ensures Split([c], '|') == [[c]] && Split("", '|') == [""]
  {
    assert [c][1..] == "" && [c] + "" == [c];
  }

  lemma {:induction false} SplitAppend(s: string, c: char)
    requires c != '|'
    ensures var parts := Split(s, '|'); Split(s + [c], '|') == parts[..|parts| - 1] + [parts[|parts| - 1] + [c]]
  {
    hide Split, Before;
    SplitOne(c);
    if s == "" {
      assert s + [c] == [c] && "" + [c] == [c];
    } else {
      SplitAppend(s[1..], c);
      assert (s + [c])[1..] == s[1..] + [c];
      SplitStep(s);
      SplitStep(s + [c]);
      FirstOfSplit(s[0], Split(s[1..], '|'), c);
    }
  }

  /** The part a character before the rest belongs to, or the one it ends. */
  function Before(c: char, rest: seq<string>): seq<string>
    requires rest != []
  {
    if c == '|' then [""] + rest else [[c] + rest[0]] + rest[1..]
  }

  lemma FirstOfSplit(first: char, rest: seq<string>, c: char)
    requires rest != []
    ensures var last := |rest| - 1;
            var longer := Before(first, rest);
            Before(first, rest[..last] + [rest[last] + [c]]) == longer[..|longer| - 1] + [longer[|longer| - 1] + [c]]
  {
    var last := |rest| - 1;
    if |rest| == 1 {
      assert [first] + (rest[0] + [c]) == [first] + rest[0] + [c];
    }
  }

  lemma StripSkipsLast(s: string, c: char)
    requires IsSpace(c)
    ensures Strip(s + [c]) == Strip(s)
  {
    var n := LStripIsSuffix(s);
    if n == |s| {
      assert forall i :: 0 <= i < |s + [c]| ==> IsSpace((s + [c])[i]);
      LStripBlanks(s + [c], |s| + 1);
      assert (s + [c])[|s| + 1..] == "" && LStrip(s) == "";
    } else {
      LStripBlanks(s + [c], n);
      assert (s + [c])[n..] == s[n..] + [c];
      assert s[n..] == LStrip(s) && LStrip(s[n..] + [c]) == s[n..] + [c];
      assert (s[n..] + [c])[..|s[n..]|] == s[n..];
    }
  }

  /** A range written `choices:...`: the checker reads the header's choices without the empty ones. */
  lemma ParsedAreTheNonEmpty(range: string)
    requires StartsLower(range, PREFIX) && Strip(range[|PREFIX|..]) != ""
    ensures ParseChoices(range) == Some(NonEmpty(EnumChoices(range)))
  {
    var body := range[|PREFIX|..];
    var n := LStripIsSuffix(body);
    StripShape(range);
    var text := Strip(range);
    SplitSkipsFront(body);
    SplitSkipsBack(LStrip(body));
    assert AfterChoices(text) == Some(RStrip(LStrip(body)));
  }

  lemma StripShape(range: string)
    requires StartsLower(range, PREFIX) && Strip(range[|PREFIX|..]) != ""
    ensures AfterChoices(Strip(range)) == Some(RStrip(LStrip(range[|PREFIX|..])))
  {
    hide RStrip, IsSpace;
    var head, body := range[..|PREFIX|], range[|PREFIX|..];
    var n := LStripIsSuffix(body);
    var solid := RStrip(body[n..]);
    StripsTo(range, n);
    assert Lower(head[0]) == 'c' && Lower(head[7]) == ':';
    assert StartsLower(head, "choices") by { assert forall i :: 0 <= i < 7 ==> head[i] == range[i]; }
    KeepsFirst(body[n..]);
    ReadsAfter(head, body[..n], solid);
  }

  lemma StripsTo(range: string, n: nat)
    requires StartsLower(range, PREFIX) && n <= |range| - |PREFIX| && RStrip(range[|PREFIX|..][n..]) != ""
    ensures Strip(range) == range[..|PREFIX|] + (range[|PREFIX|..][..n] + RStrip(range[|PREFIX|..][n..]))
  {
    hide RStrip;
    var head, body := range[..|PREFIX|], range[|PREFIX|..];
    assert range == head + body && body == body[..n] + body[n..];
    NoBlankLetter(range[0]);
    RStripAppend(body[..n], body[n..]);
    RStripAppend(head, body);
  }

  lemma ReadsAfter(head: string, blanks: string, solid: string)
    requires |head| == 8 && StartsLower(head, "choices") && Lower(head[7]) == ':'
    requires (forall i :: 0 <= i < |blanks| ==> IsSpace(blanks[i])) && solid != "" && LStrip(solid) == solid
    ensures AfterChoices(head + (blanks + solid)) == Some(solid)
  {
    var text := head + (blanks + solid);
    assert StartsLower(text, "choices") by { assert forall i :: 0 <= i < 7 ==> text[i] == head[i]; }
    var rest := text[7..];
    assert head[7] == ':' && !IsSpace(':');
    assert rest == ":" + (blanks + solid) && rest[1..] == blanks + solid;
    LStripBlanks(rest[1..], |blanks|);
    assert rest[1..][|blanks|..] == solid;
  }

  lemma NoBlankLetter(c: char)
    requires Lower(c) == 'c'
    ensures !IsSpace(c)
  {
  }

  lemma {:induction false} KeepsFirst(s: string)
    requires RStrip(s) != "" && !IsSpace(s[0])
    ensures LStrip(RStrip(s)) == RStrip(s) && RStrip(s)[0] == s[0]
  {
    assert RStrip(s) <= s;
  }

  /* ------------------------------------------------------------ an enum value through the header */

  ghost predicate DistinctChoices(choices: seq<string>) {
    forall i, j :: 0 <= i < j < |choices| && choices[i] != "" ==> choices[i] != choices[j]
  }

  lemma {:induction false} NonEmptyAppend(a: seq<string>, b: seq<string>)
    ensures NonEmpty(a + b) == NonEmpty(a) + NonEmpty(b)
  {
    if b == [] {
      assert a + b == a && NonEmpty(a) + [] == NonEmpty(a);
    } else {
      var last := |b| - 1;
      NonEmptyAppend(a, b[..last]);
      assert (a + b)[..|a + b| - 1] == a + b[..last];
    }
  }

  lemma NonEmptyOne(v: string)
    requires v != ""
    ensures NonEmpty([v]) == [v]
  {
    assert [v][..0] == [];
  }

  lemma {:induction false} NonEmptyShrinks(a: seq<string>)
    ensures |NonEmpty(a)| == |a| <==> "" !in a
    ensures "" !in a ==> NonEmpty(a) == a
  {
    if a != [] {
      var last := |a| - 1;
      NonEmptyShrinks(a[..last]);
      assert a == a[..last] + [a[last]];
    }
  }

  lemma {:induction false} NonEmptyDistinct(a: seq<string>)
    requires DistinctChoices(a)
    ensures DistinctChoices(NonEmpty(a))
  {
    if a != [] {
      var last := |a| - 1;
      assert a == a[..last] + [a[last]];
      NonEmptyDistinct(a[..last]);
      forall i | 0 <= i < |NonEmpty(a[..last])|
        ensures NonEmpty(a[..last])[i] != a[last]
      {
        var p := NonEmpty(a[..last])[i];
        assert p in NonEmpty(a[..last]);
        var k :| 0 <= k < last && a[k] == p;
      }
    }
  }

  /** The value is written, the checker accepts its index, and of the choices it counts by it that index is the value. */
  ghost predicate ComesThrough(range: string, v: string)
    requires ParseChoices(range).Some?
  {
    var i := RenderedIndex(range, v);
    i.Some? && Accepted(range, i.value) && ParseChoices(range).value[i.value] == v
  }

  /** An enum value comes through the header as itself if it is a choice, and no empty choice is written before it; with
      distinct choices only then. Whatever else the value is, it does not. */
  lemma EnumReadsBack(range: string, v: string)
    requires StartsLower(range, PREFIX) && Strip(range[|PREFIX|..]) != ""
    ensures ParseChoices(range).Some?
    ensures var own := v != "" && v in EnumChoices(range) && "" !in EnumChoices(range)[..IndexOf(EnumChoices(range), v).value];
            && (own ==> ComesThrough(range, v))
            && (DistinctChoices(EnumChoices(range)) ==> (ComesThrough(range, v) <==> own))
  {
    hide EnumChoices, ParseChoices, StartsLower, Strip, NonEmpty, DistinctChoices;
    ParsedAreTheNonEmpty(range);
    var all := EnumChoices(range);
    if v in all && v != "" {
      IndexAmongNonEmpty(all, v);
    } else {
      assert v !in NonEmpty(all);
    }
  }

  /** Dropping the empty choices leaves a choice at its index exactly when none was before it. */
  lemma IndexAmongNonEmpty(all: seq<string>, v: string)
    requires v in all && v != ""
    ensures var i := IndexOf(all, v).value;
            && ("" !in all[..i] ==> i < |NonEmpty(all)| && NonEmpty(all)[i] == v)
            && (DistinctChoices(all) && i < |NonEmpty(all)| && NonEmpty(all)[i] == v ==> "" !in all[..i])
  {
    hide NonEmpty, DistinctChoices;
    var i := IndexOf(all, v).value;
    var before, after := all[..i], all[i + 1..];
    assert all == before + ([v] + after);
    NonEmptyAppend(before, [v] + after);
    NonEmptyAppend([v], after);
    NonEmptyOne(v);
    var read := NonEmpty(all);
    assert read == NonEmpty(before) + ([v] + NonEmpty(after));
    NonEmptyShrinks(before);
    assert read[|NonEmpty(before)|] == v;
    if DistinctChoices(all) && i < |read| && read[i] == v {
      NonEmptyDistinct(all);
      OnlyOnce(read, i, |NonEmpty(before)|);
    }
  }

  lemma OnlyOnce(choices: seq<string>, i: nat, j: nat)
    requires DistinctChoices(choices) && i < |choices| && j < |choices| && choices[i] == choices[j] != ""
    ensures i == j
  {
  }

  /** The header numbers every choice it writes; the checker accepts each of those numbers exactly when none is empty. */
  lemma EveryIndexAcceptedIff(range: string)
    requires StartsLower(range, PREFIX) && Strip(range[|PREFIX|..]) != ""
    ensures ParseChoices(range).Some?
    ensures (forall i :: 0 <= i < |EnumChoices(range)| ==> Accepted(range, i)) <==> "" !in EnumChoices(range)
  {
    hide EnumChoices, ParseChoices, StartsLower, Strip, NonEmpty;
    ParsedAreTheNonEmpty(range);
    var all := EnumChoices(range);
    NonEmptyShrinks(all);
    if "" in all {
      assert !Accepted(range, |all| - 1);
    }
  }

  /** How a value that is no choice is written: a number as that number, unless two dashes before its digits raise, and
      anything else as the first choice. */
  lemma UnknownIsWritten(range: string, v: string)
    requires v !in EnumChoices(range)
    ensures RenderedIndex(range, v) == None <==> IsDigits(StripDashes(v)) && "--" <= v
    ensures RenderedIndex(range, v).Some? && !IsDigits(StripDashes(v)) ==> RenderedIndex(range, v).value == 0
    ensures RenderedIndex(range, v).Some? && IsDigits(StripDashes(v)) ==>
              RenderedIndex(range, v).value == (if "-" <= v then 0 - ParseNat(StripDashes(v)) else ParseNat(StripDashes(v)))
  {
    hide ParseNat, EnumChoices;
    if v != "" && v[0] == '-' {
      assert StripDashes(v) == StripDashes(v[1..]);
      if v[1..] != "" && v[1] == '-' {
        assert v[1..][0] == '-';
        assert !IsDigits(v[1..]);
      } else {
        assert StripDashes(v[1..]) == v[1..];
      }
    }
  }

  /** So a value that is no choice reaches the build as a legal index of another choice exactly when there is a choice
      at all and the value is no number, or it is a number below the count of choices: of those written, the non-empty. */
  lemma UnknownBecomesFirst(range: string, v: string)
    requires ParseChoices(range).Some? && v !in EnumChoices(range)
    ensures RenderedIndex(range, v).Some? && Accepted(range, RenderedIndex(range, v).value) <==>
            if IsDigits(StripDashes(v))
            then !("--" <= v) && ParseNat(StripDashes(v)) < |ParseChoices(range).value|
                 && ("-" <= v ==> ParseNat(StripDashes(v)) == 0)
            else ParseChoices(range).value != []
    ensures StartsLower(range, PREFIX) && Strip(range[|PREFIX|..]) != "" ==>
              && |ParseChoices(range).value| == |NonEmpty(EnumChoices(range))|
              && (ParseChoices(range).value != [] <==> exists c :: c in EnumChoices(range) && c != "")
  {
    hide ParseNat, EnumChoices, ParseChoices, IsDigits, Strip;
    UnknownIsWritten(range, v);
    if StartsLower(range, PREFIX) && Strip(range[|PREFIX|..]) != "" {
      ParsedAreTheNonEmpty(range);
      var kept := NonEmpty(EnumChoices(range));
      if kept != [] {
        assert kept[0] in kept;
      }
    }
  }

  /** `--5` is taken for a number, and is none: writing it raises. */
  lemma TwoDashesRaise(range: string)
    requires "--5" !in EnumChoices(range)
    ensures RenderedIndex(range, "--5") == None
  {
    hide EnumChoices;
    assert "--5"[1..] == "-5" && "-5"[1..] == "5";
    assert StripDashes("--5") == StripDashes("-5") == StripDashes("5") == "5";
    assert IsDigits("5");
    UnknownIsWritten(range, "--5");
  }
}
