/** The few string operations the modelled code relies on: decimal numbers, splitting, and Python's
    ordering of strings. */
module Strings {

  /** `c.isspace()`, which is also the regular expression class \s. */
  predicate IsSpace(c: char) {
    var n := c as int;
    9 <= n <= 13 || 28 <= n <= 32 || n == 0x85 || n == 0xa0 || n == 0x1680 || 0x2000 <= n <= 0x200a
    || n == 0x2028 || n == 0x2029 || n == 0x202f || n == 0x205f || n == 0x3000
  }

  /** `s.lstrip()`. */
  function LStrip(s: string): (t: string)
    ensures t == "" || !IsSpace(t[0])
    ensures s != "" && !IsSpace(s[0]) ==> t == s
  {
    if s != "" && IsSpace(s[0]) then LStrip(s[1..]) else s
  }

  /** What goes is white space, and all of what goes stood in front. */
  lemma {:induction false} LStripIs(s: string)
    ensures var n := |s| - |LStrip(s)|; n >= 0 && s[n..] == LStrip(s) && forall i :: 0 <= i < n ==> IsSpace(s[i])
  {
    if s != "" && IsSpace(s[0]) {
      LStripIs(s[1..]);
    }
  }

  predicate IsDigit(c: char) {
    '0' <= c <= '9'
  }

  /** `s.isdigit()`, over ASCII. */
  predicate IsDigits(s: string) {
    s != "" && forall i :: 0 <= i < |s| ==> IsDigit(s[i])
  }

  function DigitOf(d: nat): (c: char)
    requires d < 10
    ensures IsDigit(c)
  {
    ['0', '1', '2', '3', '4', '5', '6', '7', '8', '9'][d]
  }

  function ValueOf(c: char): (d: nat)
    requires IsDigit(c)
    ensures d < 10 && DigitOf(d) == c
  {
    (c as int - '0' as int) as nat
  }

  /** `str(n)`. */
  function NatToStr(n: nat): (s: string)
    ensures IsDigits(s)
    decreases n
  {
    if n < 10 then [DigitOf(n)] else NatToStr(n / 10) + [DigitOf(n % 10)]
  }

  /** `int(s)` for a run of digits. */
  function ParseNat(s: string): nat
    requires IsDigits(s)
  {
    if |s| == 1 then ValueOf(s[0])
    else
      assert forall i :: 0 <= i < |s| - 1 ==> s[..|s| - 1][i] == s[i];
      10 * ParseNat(s[..|s| - 1]) + ValueOf(s[|s| - 1])
  }

  /** `int(str(n)) == n`. */
  lemma {:induction false} ParsePrinted(n: nat)
    ensures ParseNat(NatToStr(n)) == n
    decreases n
  {
    if n < 10 {
      assert ValueOf(DigitOf(n)) == n;
    } else {
      ParsePrinted(n / 10);
      var s := NatToStr(n);
      assert s[..|s| - 1] == NatToStr(n / 10);
      assert ValueOf(DigitOf(n % 10)) == n % 10;
    }
  }

  /** A digit string with no superfluous zero. */
  predicate Canonical(s: string) {
    IsDigits(s) && NatToStr(ParseNat(s)) == s
  }

  /** `s.split(c)`. */
  function Split(s: string, c: char): (parts: seq<string>)
    ensures |parts| >= 1
    ensures forall i :: 0 <= i < |parts| ==> c !in parts[i]
  {
    if s == "" then [""]
    else if s[0] == c then [""] + Split(s[1..], c)
    else
      var rest := Split(s[1..], c);
      [[s[0]] + rest[0]] + rest[1..]
  }

  /** Splitting at the first separator. */
  lemma {:induction false} SplitCons(head: string, tail: string, c: char)
    requires c !in head
    ensures Split(head + [c] + tail, c) == [head] + Split(tail, c)
  {
    var s := head + [c] + tail;
    if head == "" {
      assert s[1..] == tail;
    } else {
      SplitCons(head[1..], tail, c);
      assert s[1..] == head[1..] + [c] + tail;
      assert [s[0]] + head[1..] == head;
    }
  }

  lemma {:induction false} SplitNone(s: string, c: char)
    requires c !in s
    ensures Split(s, c) == [s]
  {
    if s != "" {
      SplitNone(s[1..], c);
      assert [s[0]] + s[1..] == s;
    }
  }

  /** Python's `<` on strings. */
  predicate Less(a: string, b: string) {
    if b == "" then false
    else if a == "" then true
    else a[0] < b[0] || (a[0] == b[0] && Less(a[1..], b[1..]))
  }

  /** The strings agree up to here, and there the first ends or has the smaller character. */
  predicate PartsAt(a: string, b: string, n: nat) {
    n <= |a| && n < |b| && a[..n] == b[..n] && (n == |a| || a[n] < b[n])
  }

  /** One string is less than another exactly when it is a proper beginning of it, or has the smaller character where they
      first differ. */
  lemma {:induction false} LessIff(a: string, b: string)
    ensures Less(a, b) <==> exists n: nat :: PartsAt(a, b, n)
  {
    if b == "" {
    } else if a == "" {
      assert PartsAt(a, b, 0);
    } else {
      LessIff(a[1..], b[1..]);
      if n: nat :| PartsAt(a, b, n) {
        if n > 0 {
          assert a[..n][0] == b[..n][0] && a[1..][..n - 1] == a[..n][1..] && b[1..][..n - 1] == b[..n][1..];
          assert PartsAt(a[1..], b[1..], n - 1);
        }
      }
      if a[0] < b[0] {
        assert PartsAt(a, b, 0);
      } else if a[0] == b[0] && Less(a[1..], b[1..]) {
        var n: nat :| PartsAt(a[1..], b[1..], n);
        assert a[..n + 1] == [a[0]] + a[1..][..n] && b[..n + 1] == [b[0]] + b[1..][..n];
        assert PartsAt(a, b, n + 1);
      }
    }
  }

  lemma {:induction false} PrefixLess(a: string, rest: string)
    requires rest != ""
    ensures Less(a, a + rest)
  {
    if a != "" {
      PrefixLess(a[1..], rest);
      assert (a + rest)[1..] == a[1..] + rest;
    }
  }

  lemma {:induction false} LessIrreflexive(a: string)
    ensures !Less(a, a)
  {
    if a != "" {
      LessIrreflexive(a[1..]);
    }
  }

  lemma {:induction false} LessTransitive(a: string, b: string, c: string)
    requires Less(a, b) && Less(b, c)
    ensures Less(a, c)
  {
    if a != "" && a[0] == b[0] == c[0] {
      LessTransitive(a[1..], b[1..], c[1..]);
    }
  }

  lemma {:induction false} LessTotal(a: string, b: string)
    ensures a == b || Less(a, b) || Less(b, a)
  {
    if a != "" && b != "" && a[0] == b[0] {
      LessTotal(a[1..], b[1..]);
      assert a == [a[0]] + a[1..] && b == [b[0]] + b[1..];
    }
  }

  /* ------------------------------------------------------------ whitespace */

  /** `s.rstrip()`. */
  function RStrip(s: string): (t: string)
    ensures t <= s && forall i :: |t| <= i < |s| ==> IsSpace(s[i])
    ensures t == "" || !IsSpace(t[|t| - 1])
  {
    if s != "" && IsSpace(s[|s| - 1]) then RStrip(s[..|s| - 1]) else s
  }

  /** How far the word at the front of `s` reaches. */
  function WordEnd(s: string): (n: nat)
    ensures n <= |s|
    ensures forall i :: 0 <= i < n ==> !IsSpace(s[i])
    ensures n < |s| ==> IsSpace(s[n])
  {
    if s != "" && !IsSpace(s[0]) then 1 + WordEnd(s[1..]) else 0
  }

  lemma LStripShrinks(s: string)
    ensures |LStrip(s)| <= |s|
  {
  }

  /** `s.split()`. */
  function Words(s: string): seq<string>
    decreases |s|
  {
    LStripShrinks(s);
    var t := LStrip(s);
    if t == "" then [] else [t[..WordEnd(t)]] + Words(t[WordEnd(t)..])
  }

  /** `" ".join(words)`. */
  function JoinSpace(words: seq<string>): string {
    if words == [] then "" else if |words| == 1 then words[0] else words[0] + " " + JoinSpace(words[1..])
  }

  /** `" ".join(s.split())`, which is also `re.sub(r"\s+", " ", s).strip()`: every run of whitespace becomes one
      space, and none is left at either end. */
  function Squeeze(s: string): string
    decreases |s|, 0
  {
    if s == "" then ""
    else if IsSpace(s[0]) then Squeeze(s[1..])
    else [s[0]] + SqueezeRest(s[1..])
  }

  /** The squeezed text after a non-space character. */
  function SqueezeRest(s: string): string
    decreases |s|, 1
  {
    if s == "" then ""
    else if IsSpace(s[0]) then (if Squeeze(s) == "" then "" else " " + Squeeze(s))
    else [s[0]] + SqueezeRest(s[1..])
  }

  lemma {:induction false} SqueezeSkipsBlanks(s: string)
    ensures Squeeze(s) == Squeeze(LStrip(s))
  {
    if s != "" && IsSpace(s[0]) {
      SqueezeSkipsBlanks(s[1..]);
    }
  }

  lemma {:induction false} WordsSkipBlanks(s: string)
    ensures Words(s) == Words(LStrip(s))
  {
    if s != "" && IsSpace(s[0]) {
      WordsSkipBlanks(s[1..]);
    }
  }

  /** Inside a word the squeeze copies. */
  lemma {:induction false} SqueezeRestWord(s: string, n: nat)
    requires n <= |s| && forall i :: 0 <= i < n ==> !IsSpace(s[i])
    ensures SqueezeRest(s) == s[..n] + SqueezeRest(s[n..])
  {
    if n > 0 {
      SqueezeRestWord(s[1..], n - 1);
      assert s[1..][..n - 1] == s[1..n] && s[1..][n - 1..] == s[n..];
      assert [s[0]] + s[1..n] == s[..n];
    }
  }

  lemma {:induction false} SqueezeIsJoinedWords(s: string)
    ensures Squeeze(s) == JoinSpace(Words(s))
    decreases |s|
  {
    hide Words, Squeeze, SqueezeRest, JoinSpace;
    SqueezeSkipsBlanks(s);
    WordsSkipBlanks(s);
    LStripShrinks(s);
    var t := LStrip(s);
    NothingToSqueeze();
    if t != "" {
      var n := WordEnd(t);
      FirstWord(t);
      SqueezeIsJoinedWords(t[n..]);
      WordsAreWords(t[n..]);
      JoinFirst(t[..n], Words(t[n..]));
    }
  }

  lemma NothingToSqueeze()
    ensures Squeeze("") == JoinSpace(Words("")) && JoinSpace([]) == ""
  {
  }

  lemma JoinFirst(word: string, words: seq<string>)
    ensures JoinSpace([word] + words) == word + if words == [] then "" else " " + JoinSpace(words)
  {
    assert ([word] + words)[1..] == words;
    if words == [] {
      assert word + "" == word;
    } else {
      assert word + " " + JoinSpace(words) == word + (" " + JoinSpace(words));
    }
  }

  /** A text that begins with a word: the word, then what is left. */
  lemma FirstWord(t: string)
    requires t != "" && !IsSpace(t[0])
    ensures var n := WordEnd(t);
            && 0 < n && Words(t) == [t[..n]] + Words(t[n..])
            && Squeeze(t) == t[..n] + if Squeeze(t[n..]) == "" then "" else " " + Squeeze(t[n..])
  {
    hide Squeeze, SqueezeRest, Words, IsSpace;
    FirstOfWords(t);
    FirstOfSqueeze(t, WordEnd(t));
    SqueezeRestAtBlank(t[WordEnd(t)..]);
  }

  lemma FirstOfWords(t: string)
    requires t != "" && !IsSpace(t[0])
    ensures 0 < WordEnd(t) && Words(t) == [t[..WordEnd(t)]] + Words(t[WordEnd(t)..])
  {
    hide IsSpace;
    assert LStrip(t) == t;
  }

  lemma FirstOfSqueeze(t: string, n: nat)
    requires 0 < n <= |t| && forall i :: 0 <= i < n ==> !IsSpace(t[i])
    ensures Squeeze(t) == t[..n] + SqueezeRest(t[n..])
  {
    hide IsSpace;
    SqueezeRestWord(t, n);
  }

  lemma SqueezeRestAtBlank(s: string)
    requires s == "" || IsSpace(s[0])
    ensures SqueezeRest(s) == if Squeeze(s) == "" then "" else " " + Squeeze(s)
  {
  }

  lemma {:induction false} WordsAreWords(s: string)
    ensures forall w :: w in Words(s) ==> w != ""
    ensures Words(s) != [] ==> JoinSpace(Words(s)) != ""
    decreases |s|
  {
    LStripShrinks(s);
    var t := LStrip(s);
    if t != "" {
      WordsAreWords(t[WordEnd(t)..]);
    }
  }
}
