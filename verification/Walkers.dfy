/** The two indentation walkers over pseudocode and the branch-guard rule (loop/spec_checks.py, `_walk_pseudocode`,
    `_guard_chains`, `_check_branch_guards`). Input is the comment-stripped body, line by line. */
module Walkers {
  import opened Wrappers
  import opened Strings

  /* ------------------------------------------------------------ lines */

  datatype Kind = If | ElseIf | Else | Loop | Plain

  datatype Line = Line(indent: nat, kind: Kind)

  predicate IsWordChar(c: char) {
    'a' <= c <= 'z' || 'A' <= c <= 'Z' || '0' <= c <= '9' || c == '_'
  }

  /** `word\b` at the start of s. */
  predicate StartsWord(s: string, word: string) {
    word <= s && (|s| == |word| || !IsWordChar(s[|word|]))
  }

  function KindOf(text: string): Kind {
    if StartsWord(text, "if") then If
    else if StartsWord(text, "elif") then ElseIf
    else if StartsWord(text, "else") then
      (if |text| > 4 && IsSpace(text[4]) && StartsWord(LStrip(text[4..]), "if") then ElseIf else Else)
    else if StartsWord(text, "for") || StartsWord(text, "while") || StartsWord(text, "function") || StartsWord(text, "def")
    then Loop
    else Plain
  }

  /** The lines that are not blank, with their indent. */
  function LinesOf(raw: seq<string>): seq<Line> {
    if raw == [] then []
    else
      var last := raw[|raw| - 1];
      LStripShrinks(last);
      LinesOf(raw[..|raw| - 1]) +
      (if LStrip(last) == "" then [] else [Line(|last| - |LStrip(last)|, KindOf(LStrip(last)))])
  }

  /** A text begins with this word, and the word ends there. */
  ghost predicate Begins(text: string, word: string) {
    exists rest: string :: text == word + rest && (rest == "" || !IsWordChar(rest[0]))
  }

  /** `else`, white space, and `if`. */
  ghost predicate BeginsElseIf(text: string) {
    exists w: string, t: string :: IsElseIf(text, w, t)
  }

  ghost predicate IsElseIf(text: string, w: string, t: string) {
    text == "else" + w + t && w != "" && (forall i :: 0 <= i < |w| ==> IsSpace(w[i])) && Begins(t, "if")
  }

  lemma StartsWordIff(text: string, word: string)
    ensures StartsWord(text, word) <==> Begins(text, word)
  {
    if StartsWord(text, word) {
      assert text == word + text[|word|..];
    }
    if rest: string :| text == word + rest && (rest == "" || !IsWordChar(rest[0])) {
      assert rest == text[|word|..];
    }
  }

  lemma {:induction false} StripIs(w: string, t: string)
    requires (forall i :: 0 <= i < |w| ==> IsSpace(w[i])) && (t == "" || !IsSpace(t[0]))
    ensures LStrip(w + t) == t
  {
    if w == "" {
      assert w + t == t;
    } else {
      assert (w + t)[1..] == w[1..] + t;
      StripIs(w[1..], t);
    }
  }

  lemma ElseIfIff(text: string)
    requires StartsWord(text, "else")
    ensures |text| > 4 && IsSpace(text[4]) && StartsWord(LStrip(text[4..]), "if") <==> BeginsElseIf(text)
  {
    hide LStrip, StartsWord, BeginsElseIf, IsSpace;
    ElseIs(text);
    if |text| > 4 && IsSpace(text[4]) && StartsWord(LStrip(text[4..]), "if") {
      ReadsElseIf(text[4..]);
    }
    if BeginsElseIf(text) {
      ElseIfReads(text);
    }
  }

  lemma ElseIs(text: string)
    requires StartsWord(text, "else")
    ensures |text| >= 4 && text == "else" + text[4..]
  {
  }

  lemma ReadsElseIf(after: string)
    requires after != "" && IsSpace(after[0]) && StartsWord(LStrip(after), "if")
    ensures BeginsElseIf("else" + after)
  {
    hide LStrip, StartsWord, IsSpace;
    LStripIs(after);
    var t := LStrip(after);
    var w := after[..|after| - |t|];
    StartsWordIff(t, "if");
    assert after == w + t;
    assert "else" + after == "else" + w + t;
    if w == "" {
      StrippedIsNoSpace(after);
    }
    assert IsElseIf("else" + after, w, t);
  }

  lemma StrippedIsNoSpace(s: string)
    ensures LStrip(s) == s && s != "" ==> !IsSpace(s[0])
  {
  }

  lemma ElseIfReads(text: string)
    requires BeginsElseIf(text)
    ensures |text| > 4 && IsSpace(text[4]) && StartsWord(LStrip(text[4..]), "if")
  {
    hide LStrip, StartsWord, IsSpace;
    var w: string, t: string :| IsElseIf(text, w, t);
    StartsWordIff(t, "if");
    BeginsNoSpace(t);
    assert text == "else" + (w + t);
    assert text[4..] == w + t && text[4] == w[0];
    StripIs(w, t);
  }

  lemma BeginsNoSpace(t: string)
    requires Begins(t, "if")
    ensures t != "" && !IsSpace(t[0])
  {
    var rest: string :| t == "if" + rest && (rest == "" || !IsWordChar(rest[0]));
    assert t[0] == 'i';
  }

  /** What a line is, by the word it begins with. */
  lemma KindIs(text: string)
    ensures KindOf(text) == If <==> Begins(text, "if")
    ensures KindOf(text) == ElseIf <==> Begins(text, "elif") || BeginsElseIf(text)
    ensures KindOf(text) == Else <==> Begins(text, "else") && !BeginsElseIf(text)
    ensures KindOf(text) == Loop <==> Begins(text, "for") || Begins(text, "while") || Begins(text, "function") || Begins(text, "def")
  {
    hide Begins, LStrip, BeginsElseIf;
    StartsWordIff(text, "if");
    StartsWordIff(text, "elif");
    StartsWordIff(text, "else");
    StartsWordIff(text, "for");
    StartsWordIff(text, "while");
    StartsWordIff(text, "function");
    StartsWordIff(text, "def");
    ElseIfIsElse(text);
    if StartsWord(text, "else") {
      ElseIfIff(text);
      assert text[0] == 'e' && text[2] == 's';
    }
    if StartsWord(text, "elif") {
      assert text[0] == 'e' && text[2] == 'i';
    }
    if StartsWord(text, "if") {
      assert text[0] == 'i';
    }
  }

  lemma ElseIfIsElse(text: string)
    ensures BeginsElseIf(text) ==> StartsWord(text, "else")
  {
    if BeginsElseIf(text) {
      var w: string, t: string :| IsElseIf(text, w, t);
      assert text == "else" + (w + t) && text[..4] == "else" && text[4] == w[0];
      SpaceIsNoWord(w[0]);
    }
  }

  lemma SpaceIsNoWord(c: char)
    ensures IsSpace(c) ==> !IsWordChar(c)
  {
  }

  /** A line's indent is the white space it begins with; a line of nothing else is left out. */
  lemma LineOf(raw: seq<string>, w: string, t: string)
    requires (forall i :: 0 <= i < |w| ==> IsSpace(w[i])) && (t == "" || !IsSpace(t[0]))
    ensures LinesOf(raw + [w + t]) == LinesOf(raw) + (if t == "" then [] else [Line(|w|, KindOf(t))])
  {
    StripIs(w, t);
    assert (raw + [w + t])[..|raw|] == raw;
  }

  predicate Opens(line: Line) {
    line.kind != Plain
  }

  /** A block that may not run. */
  predicate Conditional(line: Line) {
    line.kind == If || line.kind == ElseIf || line.kind == Else
  }

  /* ------------------------------------------------------------ under a conditional */

  /** Every line after j and before i lies deeper than j. */
  ghost predicate Deeper(lines: seq<Line>, j: nat, i: nat)
    requires j < |lines| && i <= |lines|
  {
    forall k :: j < k < i ==> lines[k].indent > lines[j].indent
  }

  /** Some if, elif or else above line i is shallower than everything from there to line i. */
  ghost predicate UnderConditional(lines: seq<Line>, i: nat)
    requires i < |lines|
  {
    exists j: nat :: j < i && lines[j].kind in {If, ElseIf, Else} && Deeper(lines, j, i + 1)
  }

  /** The stack's entries are the blocks still open at line i, outermost first. */
  ghost predicate IsStack(lines: seq<Line>, i: nat, stack: seq<(nat, bool)>, open: seq<nat>)
    requires i <= |lines|
  {
    && |stack| == |open|
    && (forall m :: 0 <= m < |open| ==> open[m] < i && stack[m] == (lines[open[m]].indent, Conditional(lines[open[m]])))
    && (forall m, n :: 0 <= m < n < |open| ==> open[m] < open[n] && stack[m].0 < stack[n].0)
    && (forall j: nat :: j < i ==> (j in open <==> Opens(lines[j]) && Deeper(lines, j, i)))
  }

  /** The same, for the blocks shallower than line i as well. */
  ghost predicate IsPopped(lines: seq<Line>, i: nat, stack: seq<(nat, bool)>, open: seq<nat>)
    requires i < |lines|
  {
    && |stack| == |open|
    && (forall m :: 0 <= m < |open| ==> open[m] < i && stack[m] == (lines[open[m]].indent, Conditional(lines[open[m]])))
    && (forall m, n :: 0 <= m < n < |open| ==> open[m] < open[n] && stack[m].0 < stack[n].0)
    && (forall j: nat :: j < i ==> (j in open <==> Opens(lines[j]) && Deeper(lines, j, i + 1)))
  }

  /** The popping loop. */
  method Pop(lines: seq<Line>, i: nat, stack: seq<(nat, bool)>, ghost open: seq<nat>)
    returns (left: seq<(nat, bool)>, ghost still: seq<nat>)
    requires i < |lines| && IsStack(lines, i, stack, open)
    ensures IsPopped(lines, i, left, still)
  {
    hide IsStack, IsPopped;
    var n := |stack|;
    StackSize(lines, i, stack, open);
    while n > 0 && lines[i].indent <= stack[n - 1].0
      invariant 0 <= n <= |stack|
      invariant forall m :: n <= m < |stack| ==> lines[i].indent <= stack[m].0
    {
      n := n - 1;
    }
    left, still := stack[..n], open[..n];
    PoppedRight(lines, i, stack, open, n);
  }

  lemma StackSize(lines: seq<Line>, i: nat, stack: seq<(nat, bool)>, open: seq<nat>)
    requires i < |lines| && IsStack(lines, i, stack, open)
    ensures |stack| == |open|
  {
  }

  lemma PoppedRight(lines: seq<Line>, i: nat, stack: seq<(nat, bool)>, open: seq<nat>, n: nat)
    requires i < |lines| && IsStack(lines, i, stack, open) && n <= |stack|
    requires forall m :: n <= m < |stack| ==> lines[i].indent <= stack[m].0
    requires n > 0 ==> stack[n - 1].0 < lines[i].indent
    ensures IsPopped(lines, i, stack[..n], open[..n])
  {
    hide Opens, Conditional, Deeper;
    forall j: nat | j < i
      ensures j in open[..n] <==> Opens(lines[j]) && Deeper(lines, j, i + 1)
    {
      DeeperSteps(lines, j, i);
      if j in open {
        var m :| 0 <= m < |open| && open[m] == j;
        if m < n {
          assert open[..n][m] == j;
        } else {
          NotBefore(open, n, m);
        }
      }
    }
  }

  lemma NotBefore(open: seq<nat>, n: nat, m: nat)
    requires n <= m < |open| && forall a, b :: 0 <= a < b < |open| ==> open[a] < open[b]
    ensures open[m] !in open[..n]
  {
  }

  lemma DeeperSteps(lines: seq<Line>, j: nat, i: nat)
    requires j < i < |lines|
    ensures Deeper(lines, j, i + 1) <==> Deeper(lines, j, i) && lines[i].indent > lines[j].indent
  {
  }

  lemma Push(lines: seq<Line>, i: nat, left: seq<(nat, bool)>, still: seq<nat>)
    requires i < |lines| && IsPopped(lines, i, left, still)
    ensures if Opens(lines[i])
            then IsStack(lines, i + 1, left + [(lines[i].indent, Conditional(lines[i]))], still + [i])
            else IsStack(lines, i + 1, left, still)
  {
    hide Opens, Conditional;
    assert Deeper(lines, i, i + 1);
    forall m | 0 <= m < |still|
      ensures left[m].0 < lines[i].indent
    {
      assert still[m] in still && Deeper(lines, still[m], i + 1);
    }
  }

  lemma FlagIsRight(lines: seq<Line>, i: nat, left: seq<(nat, bool)>, still: seq<nat>)
    requires i < |lines| && IsPopped(lines, i, left, still)
    ensures (exists m :: 0 <= m < |left| && left[m].1) <==> UnderConditional(lines, i)
  {
    hide Deeper;
    if m :| 0 <= m < |left| && left[m].1 {
      assert still[m] in still;
    }
    if j: nat :| j < i && Conditional(lines[j]) && Deeper(lines, j, i + 1) {
      assert j in still;
      var m :| 0 <= m < |still| && still[m] == j;
      assert left[m].1;
    }
  }

  /** `_walk_pseudocode`: whether each line is under a conditional. */
  method WalkPseudocode(lines: seq<Line>) returns (flags: seq<bool>)
    ensures |flags| == |lines| && forall i :: 0 <= i < |lines| ==> (flags[i] <==> UnderConditional(lines, i))
  {
    hide IsStack, IsPopped, UnderConditional;
    flags := [];
    var stack: seq<(nat, bool)> := [];
    ghost var open: seq<nat> := [];
    EmptyStack(lines);
    for i := 0 to |lines|
      invariant |flags| == i && IsStack(lines, i, stack, open)
      invariant forall k :: 0 <= k < i ==> (flags[k] <==> UnderConditional(lines, k))
    {
      stack, open := Pop(lines, i, stack, open);
      FlagIsRight(lines, i, stack, open);
      flags := flags + [exists m :: 0 <= m < |stack| && stack[m].1];
      Push(lines, i, stack, open);
      if Opens(lines[i]) {
        stack, open := stack + [(lines[i].indent, Conditional(lines[i]))], open + [i];
      }
    }
  }

  lemma EmptyStack(lines: seq<Line>)
    ensures IsStack(lines, 0, [], [])
  {
  }

  /* ------------------------------------------------------------ guard chains */

  /** The first line at or after k that is not deeper than line i. */
  function NextNotDeeper(lines: seq<Line>, i: nat, k: nat): (n: nat)
    requires i < k <= |lines|
    ensures k <= n <= |lines| && (n < |lines| ==> lines[n].indent <= lines[i].indent)
    ensures forall m :: k <= m < n ==> lines[m].indent > lines[i].indent
    decreases |lines| - k
  {
    if k == |lines| || lines[k].indent <= lines[i].indent then k else NextNotDeeper(lines, i, k + 1)
  }

  /** The line that continues line i's chain, when there is one. */
  function Continuation(lines: seq<Line>, i: nat): (n: Option<nat>)
    requires i < |lines|
    ensures n.Some? ==> i < n.value < |lines|
  {
    var n := NextNotDeeper(lines, i, i + 1);
    if n < |lines| && lines[n].indent == lines[i].indent && lines[n].kind == ElseIf then Some(n) else None
  }

  /** The if/else-if chain from line i on. */
  function Chain(lines: seq<Line>, i: nat): (chain: seq<nat>)
    requires i < |lines|
    ensures chain != [] && chain[0] == i
    decreases |lines| - i
  {
    match Continuation(lines, i)
    case None => [i]
    case Some(n) => [i] + Chain(lines, n)
  }

  /** A chain begun at an `if` and followed up to, but not into, line i. */
  ghost predicate Pending(lines: seq<Line>, i: nat, d: nat, chain: seq<nat>)
    requires i <= |lines|
  {
    && chain != [] && chain[|chain| - 1] < i && chain[0] < i && lines[chain[0]].kind == If
    && lines[chain[0]].indent == d && lines[chain[|chain| - 1]].indent == d
    && Deeper(lines, chain[|chain| - 1], i)
    && Chain(lines, chain[0]) == chain[..|chain| - 1] + Chain(lines, chain[|chain| - 1])
  }

  ghost predicate Finished(lines: seq<Line>, chain: seq<nat>) {
    chain != [] && chain[0] < |lines| && lines[chain[0]].kind == If && chain == Chain(lines, chain[0])
  }

  function HeadOf(chain: seq<nat>): int {
    if chain == [] then -1 else chain[0]
  }

  /** No two chains have one head. */
  ghost predicate HeadsApart(out: seq<seq<nat>>) {
    forall a, b :: 0 <= a < b < |out| ==> HeadOf(out[a]) != HeadOf(out[b])
  }

  ghost predicate Headed(out: seq<seq<nat>>, open: map<nat, seq<nat>>, h: nat) {
    || (exists c :: c in out && c != [] && c[0] == h)
    || (exists d :: d in open && open[d] != [] && open[d][0] == h)
  }

  /** Every `if` before line i heads one chain, finished or pending. */
  ghost predicate OneEach(lines: seq<Line>, i: nat, out: seq<seq<nat>>, open: map<nat, seq<nat>>)
    requires i <= |lines|
  {
    && (forall c :: c in out ==> Finished(lines, c) && c[0] < i)
    && (forall d :: d in open ==> Pending(lines, i, d, open[d]))
    && (forall h: nat :: h < i && lines[h].kind == If ==> Headed(out, open, h))
    && HeadsApart(out)
    && (forall c, d :: c in out && c != [] && d in open && open[d] != [] ==> c[0] != open[d][0])
  }

  lemma {:induction false} ChainEnds(lines: seq<Line>, i: nat, d: nat, chain: seq<nat>)
    requires i <= |lines| && Pending(lines, i, d, chain)
    requires i < |lines| ==> lines[i].indent < d || (lines[i].indent == d && lines[i].kind != ElseIf)
    ensures Finished(lines, chain)
  {
    hide Chain;
    var last := chain[|chain| - 1];
    NextIs(lines, last, i);
    ChainOfLast(lines, last);
    assert chain == chain[..|chain| - 1] + [last];
  }

  lemma ChainOfLast(lines: seq<Line>, i: nat)
    requires i < |lines|
    ensures Continuation(lines, i) == None ==> Chain(lines, i) == [i]
    ensures Continuation(lines, i).Some? ==> Chain(lines, i) == [i] + Chain(lines, Continuation(lines, i).value)
  {
  }

  lemma NextIs(lines: seq<Line>, last: nat, i: nat)
    requires last < i <= |lines| && Deeper(lines, last, i) && (i < |lines| ==> lines[i].indent <= lines[last].indent)
    ensures NextNotDeeper(lines, last, last + 1) == i
  {
    NextFrom(lines, last, last + 1, i);
  }

  lemma {:induction false} NextFrom(lines: seq<Line>, last: nat, k: nat, i: nat)
    requires last < k <= i <= |lines| && Deeper(lines, last, i)
    requires i < |lines| ==> lines[i].indent <= lines[last].indent
    ensures NextNotDeeper(lines, last, k) == i
    decreases i - k
  {
    if k < i {
      NextFrom(lines, last, k + 1, i);
    }
  }

  lemma ChainGoesOn(lines: seq<Line>, i: nat, d: nat, chain: seq<nat>)
    requires i < |lines| && Pending(lines, i, d, chain) && lines[i].indent == d && lines[i].kind == ElseIf
    ensures Pending(lines, i + 1, d, chain + [i])
  {
    hide Chain;
    var last := chain[|chain| - 1];
    NextIs(lines, last, i);
    ChainOfLast(lines, last);
    var longer := chain + [i];
    assert longer[..|longer| - 1] == chain;
    assert chain[..|chain| - 1] + ([last] + Chain(lines, i)) == chain + Chain(lines, i);
  }

  lemma ChainWaits(lines: seq<Line>, i: nat, d: nat, chain: seq<nat>)
    requires i < |lines| && Pending(lines, i, d, chain) && lines[i].indent > d
    ensures Pending(lines, i + 1, d, chain)
  {
    hide Chain;
  }

  lemma ChainBegins(lines: seq<Line>, i: nat)
    requires i < |lines| && lines[i].kind == If
    ensures Pending(lines, i + 1, lines[i].indent, [i])
  {
    hide Chain;
    assert [i][..0] == [];
  }

  /** One pending chain ends and goes out. */
  lemma MovesOut(lines: seq<Line>, i: nat, out: seq<seq<nat>>, open: map<nat, seq<nat>>, d: nat)
    requires i <= |lines| && OneEach(lines, i, out, open) && d in open && DistinctHeads(lines, i, open)
    requires i < |lines| ==> lines[i].indent < d || (lines[i].indent == d && lines[i].kind != ElseIf)
    ensures OneEach(lines, i, out + [open[d]], open - {d})
  {
    hide Chain, Pending, Finished;
    assert Pending(lines, i, d, open[d]);
    ChainEnds(lines, i, d, open[d]);
    PendingHead(lines, i, d, open[d]);
    var more, less := out + [open[d]], open - {d};
    forall c | c in more
      ensures Finished(lines, c) && c != [] && c[0] < i
    {
      assert c in out || c == open[d];
      FinishedHead(lines, c);
    }
    forall h: nat | h < i && lines[h].kind == If
      ensures Headed(more, less, h)
    {
      assert Headed(out, open, h);
      if c :| c in out && c != [] && c[0] == h {
        assert c in more;
      } else {
        var e :| e in open && open[e] != [] && open[e][0] == h;
        if e == d {
          assert open[d] in more;
        } else {
          assert e in less;
        }
      }
    }
    forall a, b | 0 <= a < b < |more|
      ensures HeadOf(more[a]) != HeadOf(more[b])
    {
      if b == |out| {
        assert out[a] in out;
        FinishedHead(lines, out[a]);
      }
    }
  }

  lemma FinishedHead(lines: seq<Line>, chain: seq<nat>)
    requires Finished(lines, chain)
    ensures chain != [] && chain[0] < |lines|
  {
    hide Chain;
  }

  /** Chains at different indents have different heads. */
  ghost predicate DistinctHeads(lines: seq<Line>, i: nat, open: map<nat, seq<nat>>) {
    forall d, e :: d in open && e in open && d != e && open[d] != [] && open[e] != [] ==> open[d][0] != open[e][0]
  }

  lemma PendingApart(lines: seq<Line>, i: nat, out: seq<seq<nat>>, open: map<nat, seq<nat>>)
    requires i <= |lines| && OneEach(lines, i, out, open)
    ensures DistinctHeads(lines, i, open)
  {
    hide Chain, Finished;
  }

  lemma PendingHead(lines: seq<Line>, i: nat, d: nat, chain: seq<nat>)
    requires i <= |lines| && Pending(lines, i, d, chain)
    ensures chain != [] && chain[0] < i && lines[chain[0]].indent == d
  {
  }

  /** The chains a line closes because they lie deeper than it. */
  method CloseDeeper(lines: seq<Line>, i: nat, out: seq<seq<nat>>, open: map<nat, seq<nat>>, limit: nat)
    returns (out': seq<seq<nat>>, open': map<nat, seq<nat>>)
    requires i <= |lines| && OneEach(lines, i, out, open) && (i < |lines| ==> limit == lines[i].indent)
    ensures OneEach(lines, i, out', open')
    ensures i < |lines| ==> forall d :: d in open' ==> d <= limit
    ensures i == |lines| ==> open' == map[]
  {
    hide OneEach;
    out', open' := out, open;
    var rest := set d | d in open && (i == |lines| || d > limit);
    while rest != {}
      invariant rest <= open'.Keys && OneEach(lines, i, out', open')
      invariant forall d :: d in open' && d !in rest ==> i < |lines| && d <= limit
      invariant forall d :: d in rest ==> i == |lines| || d > limit
      decreases |rest|
    {
      var d :| d in rest;
      PendingApart(lines, i, out', open');
      MovesOut(lines, i, out', open', d);
      out', open' := out' + [open'[d]], open' - {d};
      rest := rest - {d};
    }
  }

  /** `_guard_chains`. */
  method GuardChains(lines: seq<Line>) returns (out: seq<seq<nat>>)
    ensures forall c :: c in out ==> Finished(lines, c)
    ensures forall h: nat :: h < |lines| && lines[h].kind == If ==> Chain(lines, h) in out
    ensures HeadsApart(out)
  {
    hide OneEach, Chain;
    out := [];
    var open: map<nat, seq<nat>> := map[];
    NoChains(lines);
    for i := 0 to |lines|
      invariant OneEach(lines, i, out, open)
    {
      out, open := CloseDeeper(lines, i, out, open, lines[i].indent);
      var d := lines[i].indent;
      if d in open && lines[i].kind == ElseIf {
        OneMoreGuard(lines, i, out, open);
        open := open[d := open[d] + [i]];
      } else {
        if d in open {
          PendingApart(lines, i, out, open);
          MovesOut(lines, i, out, open, d);
          out, open := out + [open[d]], open - {d};
        }
        OneMoreLine(lines, i, out, open);
        if lines[i].kind == If {
          open := open[d := [i]];
        }
      }
    }
    out, open := CloseDeeper(lines, |lines|, out, open, 0);
    AllHeaded(lines, out);
  }

  lemma NoChains(lines: seq<Line>)
    ensures OneEach(lines, 0, [], map[])
  {
  }

  lemma OneMoreGuard(lines: seq<Line>, i: nat, out: seq<seq<nat>>, open: map<nat, seq<nat>>)
    requires i < |lines| && OneEach(lines, i, out, open) && lines[i].indent in open && lines[i].kind == ElseIf
    requires forall d :: d in open ==> d <= lines[i].indent
    ensures OneEach(lines, i + 1, out, open[lines[i].indent := open[lines[i].indent] + [i]])
  {
    hide Chain, Finished, Pending;
    var d := lines[i].indent;
    var more := open[d := open[d] + [i]];
    PendingHead(lines, i, d, open[d]);
    ChainGoesOn(lines, i, d, open[d]);
    forall e | e in more
      ensures Pending(lines, i + 1, e, more[e]) && more[e] != [] && more[e][0] == open[e][0]
    {
      PendingHead(lines, i, e, open[e]);
      if e != d {
        ChainWaits(lines, i, e, open[e]);
      }
    }
    forall h: nat | h < i + 1 && lines[h].kind == If
      ensures Headed(out, more, h)
    {
      HeadedStill(out, open, more, h);
    }
  }

  lemma HeadedStill(out: seq<seq<nat>>, open: map<nat, seq<nat>>, more: map<nat, seq<nat>>, h: nat)
    requires Headed(out, open, h)
    requires forall e :: e in open ==> e in more && more[e] != [] && (open[e] != [] ==> more[e][0] == open[e][0])
    ensures Headed(out, more, h)
  {
    if e :| e in open && open[e] != [] && open[e][0] == h {
      assert e in more && more[e][0] == h;
    }
  }

  lemma OneMoreLine(lines: seq<Line>, i: nat, out: seq<seq<nat>>, open: map<nat, seq<nat>>)
    requires i < |lines| && OneEach(lines, i, out, open)
    requires forall d :: d in open ==> d < lines[i].indent
    ensures OneEach(lines, i + 1, out, if lines[i].kind == If then open[lines[i].indent := [i]] else open)
  {
    hide Chain, Finished, Pending;
    var more := if lines[i].kind == If then open[lines[i].indent := [i]] else open;
    forall e | e in more
      ensures Pending(lines, i + 1, e, more[e])
    {
      if e in open {
        ChainWaits(lines, i, e, open[e]);
      } else {
        ChainBegins(lines, i);
      }
    }
    forall e | e in open
      ensures e in more && more[e] == open[e] && open[e] != []
    {
      PendingHead(lines, i, e, open[e]);
    }
    forall h: nat | h < i + 1 && lines[h].kind == If
      ensures Headed(out, more, h)
    {
      if h < i {
        HeadedStill(out, open, more, h);
      } else {
        assert lines[i].indent in more && more[lines[i].indent][0] == h;
      }
    }
  }

  lemma AllHeaded(lines: seq<Line>, out: seq<seq<nat>>)
    requires OneEach(lines, |lines|, out, map[])
    ensures forall c :: c in out ==> Finished(lines, c)
    ensures forall h: nat :: h < |lines| && lines[h].kind == If ==> Chain(lines, h) in out
    ensures HeadsApart(out)
  {
    hide Chain, Finished, OneEach;
    forall h: nat | h < |lines| && lines[h].kind == If
      ensures Chain(lines, h) in out
    {
      HeadIsOut(lines, out, h);
    }
    OutApart(lines, out);
  }

  lemma HeadIsOut(lines: seq<Line>, out: seq<seq<nat>>, h: nat)
    requires OneEach(lines, |lines|, out, map[]) && h < |lines| && lines[h].kind == If
    ensures Chain(lines, h) in out
  {
    hide Chain;
    assert Headed(out, map[], h);
    var c :| c in out && c != [] && c[0] == h;
    assert Finished(lines, c);
  }

  lemma OutApart(lines: seq<Line>, out: seq<seq<nat>>)
    requires OneEach(lines, |lines|, out, map[])
    ensures forall c :: c in out ==> Finished(lines, c)
    ensures HeadsApart(out)
  {
    hide Chain, Finished, HeadsApart, Headed;
  }

  /* ------------------------------------------------------------ guards that can never be reached */

  /** `v >> k`. */
  function Shr(v: nat, k: nat): nat {
    if k == 0 then v else Shr(v / 2, k - 1)
  }

  function Shl(v: nat, k: nat): nat {
    if k == 0 then v else 2 * Shl(v, k - 1)
  }

  /** `(v >> shift) == value`. */
  datatype Guard = Guard(name: string, shift: nat, value: nat)

  predicate Passes(g: Guard, v: nat) {
    Shr(v, g.shift) == g.value
  }

  lemma {:induction false} ShrTwice(v: nat, a: nat, b: nat)
    ensures Shr(v, a + b) == Shr(Shr(v, a), b)
  {
    if a > 0 {
      ShrTwice(v / 2, a - 1, b);
    }
  }

  lemma {:induction false} ShrShl(v: nat, k: nat)
    ensures Shr(Shl(v, k), k) == v
  {
    if k > 0 {
      ShrShl(v, k - 1);
      assert Shl(v, k) / 2 == Shl(v, k - 1);
    }
  }

  /** The earlier guard holds wherever the later one does: exactly when the later one tests a prefix at least as
      long, and its value continues the earlier one's. */
  lemma ImpliedIff(earlier: Guard, later: Guard)
    ensures (forall v: nat :: Passes(later, v) ==> Passes(earlier, v)) <==> Shadows(earlier, later)
  {
    hide Shr, Shl;
    if Shadows(earlier, later) {
      forall v: nat | Passes(later, v)
        ensures Passes(earlier, v)
      {
        ShrTwice(v, later.shift, earlier.shift - later.shift);
      }
    }
    if forall v: nat :: Passes(later, v) ==> Passes(earlier, v) {
      if later.shift <= earlier.shift {
        Continues(earlier, later);
      } else {
        TwoPrefixes(earlier, later);
      }
    }
  }

  /** What the check computes. */
  predicate Shadows(earlier: Guard, later: Guard) {
    later.shift <= earlier.shift && Shr(later.value, earlier.shift - later.shift) == earlier.value
  }

  lemma Continues(earlier: Guard, later: Guard)
    requires later.shift <= earlier.shift && forall v: nat :: Passes(later, v) ==> Passes(earlier, v)
    ensures Shadows(earlier, later)
  {
    hide Shr, Shl;
    var v := Shl(later.value, later.shift);
    ShrShl(later.value, later.shift);
    assert Passes(later, v) && Passes(earlier, v);
    ShrTwice(v, later.shift, earlier.shift - later.shift);
  }

  /** A shorter prefix never decides a longer one: it is met by two values the longer one tells apart. */
  lemma TwoPrefixes(earlier: Guard, later: Guard)
    requires earlier.shift < later.shift
    ensures exists v: nat :: Passes(later, v) && !Passes(earlier, v)
  {
    hide Shl;
    var k := later.shift - earlier.shift;
    var w := Shl(later.value, k);
    ShlEven(later.value, k);
    ShrShl(later.value, k);
    assert Shr(w + 1, k) == Shr((w + 1) / 2, k - 1) == Shr(w / 2, k - 1) == Shr(w, k);
    WithPrefix(earlier, later, w);
    WithPrefix(earlier, later, w + 1);
    assert w != w + 1;
    var u := if w == earlier.value then w + 1 else w;
    assert Passes(later, Shl(u, earlier.shift)) && !Passes(earlier, Shl(u, earlier.shift));
  }

  lemma ShlEven(v: nat, k: nat)
    requires k > 0
    ensures Shl(v, k) % 2 == 0
  {
  }

  lemma WithPrefix(earlier: Guard, later: Guard, w: nat)
    requires earlier.shift < later.shift && Shr(w, later.shift - earlier.shift) == later.value
    ensures Shr(Shl(w, earlier.shift), earlier.shift) == w && Passes(later, Shl(w, earlier.shift))
  {
    hide Shr, Shl;
    ShrShl(w, earlier.shift);
    ShrTwice(Shl(w, earlier.shift), earlier.shift, later.shift - earlier.shift);
  }

  /** The arms the check reports: each has an earlier guard on its variable that it implies. */
  ghost predicate Dead(guards: seq<Option<Guard>>, j: nat)
    requires j < |guards|
  {
    guards[j].Some? && exists i :: 0 <= i < j && guards[i].Some? && Covers(guards[i].value, guards[j].value)
  }

  ghost predicate Covers(earlier: Guard, later: Guard) {
    earlier.name == later.name && forall v: nat :: Passes(later, v) ==> Passes(earlier, v)
  }

  /** `_check_branch_guards` on one chain: an arm is reported, once, exactly when an earlier guard covers it. */
  method CheckBranchGuards(guards: seq<Option<Guard>>) returns (reported: seq<nat>)
    ensures forall j: nat :: j in reported <==> j < |guards| && Dead(guards, j)
    ensures forall a, b :: 0 <= a < b < |reported| ==> reported[a] < reported[b]
  {
    hide Dead;
    reported := [];
    for j := 0 to |guards|
      invariant forall k: nat :: k in reported <==> k < j && Dead(guards, k)
      invariant forall a, b :: 0 <= a < b < |reported| ==> reported[a] < reported[b]
    {
      var dead := IsDead(guards, j);
      if dead {
        assert forall a :: 0 <= a < |reported| ==> reported[a] in reported;
        reported := reported + [j];
      }
    }
  }

  method IsDead(guards: seq<Option<Guard>>, j: nat) returns (dead: bool)
    requires j < |guards|
    ensures dead <==> Dead(guards, j)
  {
    hide Covers, Shadows;
    if guards[j] == None {
      return false;
    }
    for i := 0 to j
      invariant forall k :: 0 <= k < i ==> guards[k] == None || !Covers(guards[k].value, guards[j].value)
    {
      if guards[i].Some? {
        CoversIff(guards[i].value, guards[j].value);
        if guards[i].value.name == guards[j].value.name && Shadows(guards[i].value, guards[j].value) {
          return true;
        }
      }
    }
    dead := false;
  }

  lemma CoversIff(earlier: Guard, later: Guard)
    ensures Covers(earlier, later) <==> earlier.name == later.name && Shadows(earlier, later)
  {
    hide Passes, Shadows;
    ImpliedIff(earlier, later);
  }

  /** A reported arm never runs. */
  lemma DeadNeverRuns(guards: seq<Option<Guard>>, j: nat, v: nat)
    requires j < |guards| && Dead(guards, j) && Passes(guards[j].value, v)
    ensures exists i :: 0 <= i < j && guards[i].Some? && guards[i].value.name == guards[j].value.name && Passes(guards[i].value, v)
  {
    hide Passes;
  }

  /** Guard `i` is an earlier guard on arm `j`'s variable. */
  ghost predicate Earlier(guards: seq<Option<Guard>>, i: nat, j: nat)
    requires j < |guards|
  {
    i < j && guards[j].Some? && guards[i].Some? && guards[i].value.name == guards[j].value.name
  }

  /** Whatever the variable holds, if the arm's guard passes then an earlier guard on it has passed already. */
  ghost predicate Unreachable(guards: seq<Option<Guard>>, j: nat)
    requires j < |guards|
  {
    guards[j].Some? &&
    forall v: nat :: Passes(guards[j].value, v) ==> exists i: nat :: Earlier(guards, i, j) && Passes(guards[i].value, v)
  }

  /** No earlier guard on the arm's variable, nor the arm's own, looks below bit `m`. */
  ghost predicate NoneFiner(guards: seq<Option<Guard>>, j: nat, m: nat)
    requires j < |guards|
  {
    guards[j].Some? && m <= guards[j].value.shift &&
    forall i: nat :: Earlier(guards, i, j) ==> m <= guards[i].value.shift
  }

  /** Some earlier guard takes every value whose bits from `m` up are `w`. */
  ghost predicate Taken(guards: seq<Option<Guard>>, j: nat, m: nat, w: nat)
    requires j < |guards| && NoneFiner(guards, j, m)
  {
    exists i: nat :: Earlier(guards, i, j) && Shr(w, guards[i].value.shift - m) == guards[i].value.value
  }

  /** `w` continues a prefix by `k` bits exactly in one block of `2^k` values. */
  lemma {:induction false} ShrIsBlock(w: nat, k: nat, value: nat)
    ensures Shr(w, k) == value <==> Shl(value, k) <= w < Shl(value + 1, k)
  {
    if k > 0 {
      ShrIsBlock(w / 2, k - 1, value);
    }
  }

  /** When an arm can never run: at the finest bit any of the guards looks at, each of the finitely many values that
      continue its own constant is taken by an earlier guard. */
  lemma UnreachableIff(guards: seq<Option<Guard>>, j: nat, m: nat)
    requires j < |guards| && NoneFiner(guards, j, m)
    ensures var arm := guards[j].value;
            Unreachable(guards, j) <==>
            forall w: nat :: Shl(arm.value, arm.shift - m) <= w < Shl(arm.value + 1, arm.shift - m) ==> Taken(guards, j, m, w)
  {
    hide Shr, Shl;
    var arm := guards[j].value;
    if Unreachable(guards, j) {
      forall w: nat | Shl(arm.value, arm.shift - m) <= w < Shl(arm.value + 1, arm.shift - m)
        ensures Taken(guards, j, m, w)
      {
        ShrIsBlock(w, arm.shift - m, arm.value);
        var v := Shl(w, m);
        ReadsAbove(v, w, m, arm);
        ShrShl(w, m);
        var i: nat :| Earlier(guards, i, j) && Passes(guards[i].value, v);
        ReadsAbove(v, w, m, guards[i].value);
      }
    }
    if forall w: nat :: Shl(arm.value, arm.shift - m) <= w < Shl(arm.value + 1, arm.shift - m) ==> Taken(guards, j, m, w) {
      forall v: nat | Passes(arm, v)
        ensures exists i: nat :: Earlier(guards, i, j) && Passes(guards[i].value, v)
      {
        var w := Shr(v, m);
        ReadsAbove(v, w, m, arm);
        ShrIsBlock(w, arm.shift - m, arm.value);
        assert Taken(guards, j, m, w);
        var i: nat :| Earlier(guards, i, j) && Shr(w, guards[i].value.shift - m) == guards[i].value.value;
        ReadsAbove(v, w, m, guards[i].value);
      }
    }
  }

  /** A guard reads a value through its bits from `m` up. */
  lemma ReadsAbove(v: nat, w: nat, m: nat, g: Guard)
    requires m <= g.shift
    ensures w == Shr(v, m) ==> (Passes(g, v) <==> Shr(w, g.shift - m) == g.value)
  {
    ShrTwice(v, m, g.shift - m);
  }

  /** The check is complete for an arm when no earlier guard on its variable looks at more of it than the arm does: then
      the arm can never run exactly when it is reported. */
  lemma ReportedIffUnreachable(guards: seq<Option<Guard>>, j: nat)
    requires j < |guards| && guards[j].Some?
    requires forall i: nat :: Earlier(guards, i, j) ==> guards[j].value.shift <= guards[i].value.shift
    ensures Dead(guards, j) <==> Unreachable(guards, j)
  {
    hide Shr, Shl, Passes;
    var arm := guards[j].value;
    UnreachableIff(guards, j, arm.shift);
    NoShift(arm.value);
    NoShift(arm.value + 1);
    forall i: nat | Earlier(guards, i, j)
      ensures Covers(guards[i].value, arm) <==> Shr(arm.value, guards[i].value.shift - arm.shift) == guards[i].value.value
    {
      CoversIff(guards[i].value, arm);
    }
    if Dead(guards, j) {
      forall v: nat | Passes(arm, v)
        ensures exists i: nat :: Earlier(guards, i, j) && Passes(guards[i].value, v)
      {
        DeadNeverRuns(guards, j, v);
        var i: nat :| i < j && guards[i].Some? && guards[i].value.name == arm.name && Passes(guards[i].value, v);
        assert Earlier(guards, i, j);
      }
    }
    if Unreachable(guards, j) {
      assert Taken(guards, j, arm.shift, arm.value);
      var i: nat :| Earlier(guards, i, j) && Shr(arm.value, guards[i].value.shift - arm.shift) == guards[i].value.value;
      assert Covers(guards[i].value, arm);
    }
  }

  lemma NoShift(v: nat)
    ensures Shl(v, 0) == v
  {
  }

  /** The converse fails: two earlier guards can cover an arm between them, and the check, which looks at one at a
      time, stays silent. */
  lemma TogetherGoesUnseen()
    ensures var guards := [Some(Guard("v", 0, 0)), Some(Guard("v", 0, 1)), Some(Guard("v", 1, 0))];
            && !Dead(guards, 2)
            && forall v: nat :: Passes(guards[2].value, v) ==> Passes(guards[0].value, v) || Passes(guards[1].value, v)
  {
    var guards := [Some(Guard("v", 0, 0)), Some(Guard("v", 0, 1)), Some(Guard("v", 1, 0))];
    CoversIff(guards[0].value, guards[2].value);
    CoversIff(guards[1].value, guards[2].value);
    forall v: nat | Passes(guards[2].value, v)
      ensures v == 0 || v == 1
    {
      assert Shr(v, 1) == v / 2;
    }
  }
}
