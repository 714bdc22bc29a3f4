/** What a review round is judged by: the check findings it introduces, and the detail it loses
    (loop/spec_checks.py, `new_errors` and `is_worse`; loop/spec_review.py, `regressions`). */
module ReviewGates {
  import opened Wrappers
  import opened Json
  import opened Strings
  import opened JsonPointer
  import PointerSteps

  /* ------------------------------------------------------------ findings */

  datatype Severity = Error | Warn | Info

  datatype Finding = Finding(pointer: string, code: string, severity: Severity)

  datatype Key = Key(code: string, pointer: string)

  function KeyOf(f: Finding): Key {
    Key(f.code, f.pointer)
  }

  function ErrorKeys(findings: seq<Finding>): set<Key> {
    set f | f in findings && f.severity == Error :: KeyOf(f)
  }

  function Count(findings: seq<Finding>, s: Severity): nat {
    if findings == [] then 0
    else Count(findings[..|findings| - 1], s) + (if findings[|findings| - 1].severity == s then 1 else 0)
  }

  function Introduced(before: seq<Finding>, after: seq<Finding>): set<Key> {
    ErrorKeys(after) - ErrorKeys(before)
  }

  ghost predicate OnePerKey(out: seq<Finding>, keys: set<Key>) {
    && (forall i :: 0 <= i < |out| ==> out[i].severity == Error && KeyOf(out[i]) in keys)
    && (forall k :: k in keys ==> exists i :: 0 <= i < |out| && KeyOf(out[i]) == k)
    && (forall i, j :: 0 <= i < j < |out| ==> KeyOf(out[i]) != KeyOf(out[j]))
    && |out| == |keys|
  }

  /** `new_errors`: one finding for each error key that was not there before. */
  method NewErrors(before: seq<Finding>, after: seq<Finding>) returns (out: seq<Finding>)
    ensures OnePerKey(out, Introduced(before, after))
    ensures forall f :: f in out ==> f in after
  {
    hide KeyOf, ErrorKeys, OnePerKey;
    var had := ErrorKeys(before);
    var seen: set<Key> := {};
    out := [];
    NoFindings();
    assert after[..0] == [];
    for i := 0 to |after|
      invariant seen == ErrorKeys(after[..i]) - had
      invariant OnePerKey(out, seen)
      invariant forall f :: f in out ==> f in after
    {
      var f := after[i];
      OneMoreKey(after, i);
      if f.severity == Error && KeyOf(f) !in had && KeyOf(f) !in seen {
        OneMorePerKey(out, seen, f);
        seen := seen + {KeyOf(f)};
        out := out + [f];
      }
    }
    assert after[..|after|] == after;
  }

  lemma NoFindings()
    ensures ErrorKeys([]) == {} && OnePerKey([], {})
  {
  }

  lemma OneMoreKey(findings: seq<Finding>, i: nat)
    requires i < |findings|
    ensures ErrorKeys(findings[..i + 1]) ==
            ErrorKeys(findings[..i]) + (if findings[i].severity == Error then {KeyOf(findings[i])} else {})
  {
    hide KeyOf;
    assert findings[..i + 1] == findings[..i] + [findings[i]];
    assert forall f :: f in findings[..i + 1] <==> f in findings[..i] || f == findings[i];
  }

  lemma OneMorePerKey(out: seq<Finding>, keys: set<Key>, f: Finding)
    requires OnePerKey(out, keys) && f.severity == Error && KeyOf(f) !in keys
    ensures OnePerKey(out + [f], keys + {KeyOf(f)})
  {
    hide KeyOf;
    var all := out + [f];
    assert all[|out|] == f;
    forall k | k in keys + {KeyOf(f)}
      ensures exists i :: 0 <= i < |all| && KeyOf(all[i]) == k
    {
      if k in keys {
        var i :| 0 <= i < |out| && KeyOf(out[i]) == k;
        assert all[i] == out[i];
      }
    }
  }

  /** `is_worse`. */
  predicate IsWorse(before: seq<Finding>, after: seq<Finding>) {
    || Count(after, Error) > Count(before, Error)
    || Introduced(before, after) != {}
    || (Count(after, Error) == Count(before, Error) && Count(after, Warn) > Count(before, Warn))
  }

  /** The findings of a severity, by where they stand. */
  ghost function Of(findings: seq<Finding>, s: Severity): set<nat> {
    set i: nat | i < |findings| && findings[i].severity == s
  }

  lemma {:induction false} CountIsOf(findings: seq<Finding>, s: Severity)
    ensures Count(findings, s) == |Of(findings, s)|
  {
    if findings == [] {
      assert Of(findings, s) == {};
    } else {
      var last := |findings| - 1;
      CountIsOf(findings[..last], s);
      var more: set<nat> := if findings[last].severity == s then {last} else {};
      assert Of(findings, s) == Of(findings[..last], s) + more by {
        forall i: nat ensures i in Of(findings, s) <==> i in Of(findings[..last], s) + more {
        }
      }
    }
  }

  /** An error finding of `after` that no error of `before` names by its code and pointer. */
  ghost predicate NewError(before: seq<Finding>, after: seq<Finding>, f: Finding) {
    f in after && f.severity == Error && forall g :: g in before && g.severity == Error ==> g.code != f.code || g.pointer != f.pointer
  }

  /** A round makes things worse exactly when some error is new, there are more errors, or as many errors and more
      warnings. */
  lemma WorseIff(before: seq<Finding>, after: seq<Finding>)
    ensures IsWorse(before, after) <==>
            || (exists f :: NewError(before, after, f))
            || |Of(after, Error)| > |Of(before, Error)|
            || (|Of(after, Error)| == |Of(before, Error)| && |Of(after, Warn)| > |Of(before, Warn)|)
  {
    hide Count, Of;
    CountIsOf(before, Error);
    CountIsOf(after, Error);
    CountIsOf(before, Warn);
    CountIsOf(after, Warn);
    if f :| NewError(before, after, f) {
      assert KeyOf(f) in Introduced(before, after);
    }
    if Introduced(before, after) != {} {
      var k :| k in Introduced(before, after);
      var f :| f in after && f.severity == Error && KeyOf(f) == k;
      assert forall g :: g in before && g.severity == Error ==> KeyOf(g) in ErrorKeys(before);
      assert NewError(before, after, f);
    }
  }

  /** Over any number of rounds that are not worse, none is worse than the first: no error key appears, and the
      counts do not rise. */
  lemma NotWorseIsPreorder(a: seq<Finding>, b: seq<Finding>, c: seq<Finding>)
    ensures !IsWorse(a, a)
    ensures !IsWorse(a, b) ==> ErrorKeys(b) <= ErrorKeys(a) && Count(b, Error) <= Count(a, Error)
    ensures !IsWorse(a, b) && !IsWorse(b, c) ==> !IsWorse(a, c)
  {
    hide ErrorKeys, Count;
    assert Introduced(a, a) == {};
    if !IsWorse(a, b) {
      assert forall k :: k in ErrorKeys(b) && k !in ErrorKeys(a) ==> k in Introduced(a, b);
    }
    if !IsWorse(a, b) && !IsWorse(b, c) {
      assert forall k :: k in ErrorKeys(c) && k !in ErrorKeys(b) ==> k in Introduced(b, c);
      assert Introduced(a, c) == {};
    }
  }

  /* ------------------------------------------------------------ lost detail */

  const REGRESSION_RATIO: real := 0.4

  predicate EndsWith(s: string, end: string) {
    |s| >= |end| && s[|s| - |end|..] == end
  }

  /** A unit test, or its expectation or setup: text that is meant to get shorter. */
  predicate IsTestText(pointer: string) {
    var head := "/unit_tests/";
    head <= pointer &&
    var rest := pointer[|head|..];
    IsDigits(rest)
    || (EndsWith(rest, "/expect") && IsDigits(rest[..|rest| - 7]))
    || (EndsWith(rest, "/given") && IsDigits(rest[..|rest| - 6]))
  }

  datatype Loss = Loss(pointer: string, code: string)

  function OrSlash(path: string): string {
    if path == "" then "/" else path
  }

  /** What this node alone lost. */
  function LostHere(was: Json, now: Json, path: string): set<Loss> {
    match (was, now)
    case (Obj(a), Obj(b)) => set k | k in a && k !in b :: Loss(path + "/" + k, "removed_key")
    case (Arr(a), Arr(b)) => if |b| < |a| then {Loss(OrSlash(path), "removed_element")} else {}
    case (Str(a), Str(b)) =>
      if a != "" && |b| as real < REGRESSION_RATIO * (|a| as real) && !IsTestText(path)
      then {Loss(OrSlash(path), "shortened_field")} else {}
    case _ => {}
  }

  function Shorter(a: nat, b: nat): nat {
    if a < b then a else b
  }

  /** `regressions`. */
  function Regressions(was: Json, now: Json, path: string): set<Loss>
    decreases was
  {
    LostHere(was, now, path) +
    match (was, now)
    case (Obj(a), Obj(b)) => set k, f | k in a && k in b && f in Regressions(a[k], b[k], path + "/" + k) :: f
    case (Arr(a), Arr(b)) =>
      set i, f | 0 <= i < Shorter(|a|, |b|) && f in Regressions(a[i], b[i], path + "/" + NatToStr(i)) :: f
    case _ => {}
  }

  /** The two documents have the same containers along the way to this place. */
  predicate Shared(was: Json, now: Json, tokens: seq<string>) {
    tokens == [] ||
    match (was, now)
    case (Obj(a), Obj(b)) => tokens[0] in a && tokens[0] in b && Shared(a[tokens[0]], b[tokens[0]], tokens[1..])
    case (Arr(a), Arr(b)) =>
      Canonical(tokens[0]) && ParseNat(tokens[0]) < Shorter(|a|, |b|)
      && Shared(a[ParseNat(tokens[0])], b[ParseNat(tokens[0])], tokens[1..])
    case _ => false
  }

  lemma {:induction false} SharedResolves(was: Json, now: Json, tokens: seq<string>)
    requires Shared(was, now, tokens)
    ensures Resolves(was, tokens) && Resolves(now, tokens)
  {
    if tokens != [] {
      match (was, now)
      case (Obj(a), Obj(b)) => SharedResolves(a[tokens[0]], b[tokens[0]], tokens[1..]);
      case (Arr(a), Arr(b)) => SharedResolves(a[ParseNat(tokens[0])], b[ParseNat(tokens[0])], tokens[1..]);
    }
  }

  /** The pointer text the differ writes: the tokens as they are, unescaped. */
  function Joined(path: string, tokens: seq<string>): string
    decreases |tokens|
  {
    if tokens == [] then path else Joined(path + "/" + tokens[0], tokens[1..])
  }

  ghost predicate LostAt(was: Json, now: Json, path: string, tokens: seq<string>, f: Loss) {
    Shared(was, now, tokens) &&
    (SharedResolves(was, now, tokens);
     f in LostHere(ValueAt(was, tokens), ValueAt(now, tokens), Joined(path, tokens)))
  }

  /** The differ reports exactly what some place common to the two documents lost. */
  lemma {:induction false} RegressionsAreLosses(was: Json, now: Json, path: string, f: Loss)
    ensures f in Regressions(was, now, path) <==> exists tokens :: LostAt(was, now, path, tokens, f)
    decreases was
  {
    if f in Regressions(was, now, path) {
      LossHasPlace(was, now, path, f);
    }
    if tokens :| LostAt(was, now, path, tokens, f) {
      PlaceIsReported(was, now, path, tokens, f);
    }
  }

  lemma {:induction false} LossHasPlace(was: Json, now: Json, path: string, f: Loss)
    requires f in Regressions(was, now, path)
    ensures exists tokens :: LostAt(was, now, path, tokens, f)
    decreases was
  {
    hide LostHere;
    if f in LostHere(was, now, path) {
      assert LostAt(was, now, path, [], f);
    } else {
      match (was, now)
      case (Obj(a), Obj(b)) =>
        var k :| k in a && k in b && f in Regressions(a[k], b[k], path + "/" + k);
        LossHasPlace(a[k], b[k], path + "/" + k, f);
        var rest :| LostAt(a[k], b[k], path + "/" + k, rest, f);
        assert ([k] + rest)[1..] == rest;
        assert LostAt(was, now, path, [k] + rest, f);
      case (Arr(a), Arr(b)) =>
        var i :| 0 <= i < Shorter(|a|, |b|) && f in Regressions(a[i], b[i], path + "/" + NatToStr(i));
        LossHasPlace(a[i], b[i], path + "/" + NatToStr(i), f);
        var rest :| LostAt(a[i], b[i], path + "/" + NatToStr(i), rest, f);
        ParsePrinted(i);
        assert ([NatToStr(i)] + rest)[1..] == rest;
        assert LostAt(was, now, path, [NatToStr(i)] + rest, f);
    }
  }

  lemma {:induction false} PlaceIsReported(was: Json, now: Json, path: string, tokens: seq<string>, f: Loss)
    requires LostAt(was, now, path, tokens, f)
    ensures f in Regressions(was, now, path)
    decreases was
  {
    hide LostHere;
    SharedResolves(was, now, tokens);
    if tokens != [] {
      match (was, now)
      case (Obj(a), Obj(b)) =>
        PlaceIsReported(a[tokens[0]], b[tokens[0]], path + "/" + tokens[0], tokens[1..], f);
      case (Arr(a), Arr(b)) =>
        var i := ParseNat(tokens[0]);
        assert NatToStr(i) == tokens[0];
        PlaceIsReported(a[i], b[i], path + "/" + NatToStr(i), tokens[1..], f);
    }
  }

  /** `uncovered_regressions`: a loss is excused only by a patch at exactly its pointer. */
  function Uncovered(was: Json, now: Json, patched: set<string>): set<Loss> {
    set f | f in Regressions(was, now, "") && f.pointer !in patched
  }

  /** So when nothing is uncovered, every place the two share kept its keys, its elements and its text, unless a
      patch named what was lost. */
  lemma AcceptedKeepsDetail(was: Json, now: Json, patched: set<string>, tokens: seq<string>)
    requires Uncovered(was, now, patched) == {} && Shared(was, now, tokens)
    ensures Resolves(was, tokens) && Resolves(now, tokens)
    ensures forall f :: f in LostHere(ValueAt(was, tokens), ValueAt(now, tokens), Joined("", tokens)) ==> f.pointer in patched
  {
    hide LostHere, Regressions;
    SharedResolves(was, now, tokens);
    forall f | f in LostHere(ValueAt(was, tokens), ValueAt(now, tokens), Joined("", tokens))
      ensures f.pointer in patched
    {
      assert LostAt(was, now, "", tokens, f);
      RegressionsAreLosses(was, now, "", f);
      assert f.pointer !in patched ==> f in Uncovered(was, now, patched);
    }
  }

  /** How a place of `was` is gone from `now` unseen: where the two documents part on the way to it, a patch names the
      key or the list that lost it, or a container became something of another kind. */
  ghost predicate GoneUnseen(was: Json, now: Json, path: string, patched: set<string>, tokens: seq<string>)
    decreases |tokens|
  {
    tokens != [] &&
    match (was, now)
    case (Obj(a), Obj(b)) =>
      if tokens[0] in a && tokens[0] in b then GoneUnseen(a[tokens[0]], b[tokens[0]], path + "/" + tokens[0], patched, tokens[1..])
      else path + "/" + tokens[0] in patched
    case (Arr(a), Arr(b)) =>
      if Canonical(tokens[0]) && ParseNat(tokens[0]) < Shorter(|a|, |b|)
      then GoneUnseen(a[ParseNat(tokens[0])], b[ParseNat(tokens[0])], path + "/" + tokens[0], patched, tokens[1..])
      else OrSlash(path) in patched
    case _ => !Resolves(now, tokens)
  }

  /** When nothing is uncovered, a place of `was` is missing from `now` exactly when it went in one of those ways. */
  lemma MissingIffGoneUnseen(was: Json, now: Json, patched: set<string>, tokens: seq<string>)
    requires Uncovered(was, now, patched) == {} && Resolves(was, tokens)
    ensures !Resolves(now, tokens) <==> GoneUnseen(was, now, "", patched, tokens)
  {
    hide Regressions, GoneUnseen, Resolves;
    forall f | f in Regressions(was, now, "")
      ensures f.pointer in patched
    {
      assert f.pointer !in patched ==> f in Uncovered(was, now, patched);
    }
    MissingBelow(was, now, "", patched, tokens);
  }

  lemma {:induction false} MissingBelow(was: Json, now: Json, path: string, patched: set<string>, tokens: seq<string>)
    requires forall f :: f in Regressions(was, now, path) ==> f.pointer in patched
    requires Resolves(was, tokens)
    ensures !Resolves(now, tokens) <==> GoneUnseen(was, now, path, patched, tokens)
    decreases |tokens|
  {
    hide LostHere;
    if tokens != [] {
      match (was, now)
      case (Obj(a), Obj(b)) =>
        if tokens[0] in b {
          MissingBelow(a[tokens[0]], b[tokens[0]], path + "/" + tokens[0], patched, tokens[1..]);
        } else {
          KeyIsMissed(a, b, path, tokens[0]);
        }
      case (Arr(a), Arr(b)) =>
        var i := ParseNat(tokens[0]);
        if i < |b| {
          assert NatToStr(i) == tokens[0];
          MissingBelow(a[i], b[i], path + "/" + tokens[0], patched, tokens[1..]);
        } else {
          ElementIsMissed(a, b, path);
        }
      case _ =>
    }
  }

  lemma KeyIsMissed(a: map<string, Json>, b: map<string, Json>, path: string, k: string)
    requires k in a && k !in b
    ensures Loss(path + "/" + k, "removed_key") in Regressions(Obj(a), Obj(b), path)
  {
    assert Loss(path + "/" + k, "removed_key") in LostHere(Obj(a), Obj(b), path);
  }

  lemma ElementIsMissed(a: seq<Json>, b: seq<Json>, path: string)
    requires |b| < |a|
    ensures Loss(OrSlash(path), "removed_element") in Regressions(Arr(a), Arr(b), path)
  {
    assert Loss(OrSlash(path), "removed_element") in LostHere(Arr(a), Arr(b), path);
  }

  /** A container that becomes text loses everything in it unseen, and may come back without it in a later round. */
  lemma KindChangeGoesUnseen(k: string, v: Json, text: string)
    ensures var was, between, now := Obj(map["x" := Obj(map[k := v])]), Obj(map["x" := Str(text)]), Obj(map["x" := Obj(map[])]);
            && Regressions(was, between, "") == {} && Regressions(between, now, "") == {}
            && Loss("/x/" + k, "removed_key") in Regressions(was, now, "")
  {
    hide Regressions;
    var full, text, empty := Obj(map[k := v]), Str(text), Obj(map[]);
    OneField(full, text);
    OneField(text, empty);
    OneField(full, empty);
    NothingAcrossKinds(full, text);
    NothingAcrossKinds(text, empty);
    KeyIsMissed(map[k := v], map[], "/x", k);
    assert "/x" + "/" + k == "/x/" + k;
  }

  lemma NothingAcrossKinds(a: Json, b: Json)
    requires (a.Obj? && b.Str?) || (a.Str? && b.Obj?)
    ensures Regressions(a, b, "/x") == {}
  {
  }

  lemma {:induction false} NothingLostInPlace(doc: Json, path: string)
    ensures Regressions(doc, doc, path) == {}
    decreases doc
  {
    assert LostHere(doc, doc, path) == {};
    match doc
    case Obj(a) =>
      forall k | k in a ensures Regressions(a[k], a[k], path + "/" + k) == {} { NothingLostInPlace(a[k], path + "/" + k); }
    case Arr(a) =>
      forall i | 0 <= i < |a| ensures Regressions(a[i], a[i], path + "/" + NatToStr(i)) == {} {
        NothingLostInPlace(a[i], path + "/" + NatToStr(i));
      }
    case _ =>
  }

  /** The differ's rule for one text: it must keep this share of its length. */
  predicate Shortened(a: string, b: string) {
    a != "" && |b| as real < REGRESSION_RATIO * (|a| as real)
  }

  lemma ShortenedIsReported(a: string, b: string, path: string)
    requires !IsTestText(path)
    ensures Loss(OrSlash(path), "shortened_field") in Regressions(Str(a), Str(b), path) <==> Shortened(a, b)
  {
  }

  /** The least length a text of this length may be cut to in one round. */
  function LeastKept(n: nat): (m: nat)
    ensures m as real >= REGRESSION_RATIO * (n as real) && (m > 0 ==> (m - 1) as real < REGRESSION_RATIO * (n as real))
    ensures n > 0 ==> m > 0
  {
    var least := REGRESSION_RATIO * (n as real);
    if least.Floor as real == least then least.Floor as nat else (least.Floor + 1) as nat
  }

  /** The share is per round. Two rounds the differ accepts can bring a text down to `c` exactly when `c` is no shorter
      than two least cuts leave it, and together they lose what the differ refuses at once exactly when it is also
      shorter than one round may leave it. */
  lemma TwoRoundsReachIff(a: string, c: string, path: string)
    requires a != ""
    ensures (exists b: string :: !Shortened(a, b) && !Shortened(b, c)) <==> |c| >= LeastKept(LeastKept(|a|))
    ensures !IsTestText(path) ==>
              (Loss(OrSlash(path), "shortened_field") in Regressions(Str(a), Str(c), path) <==> |c| < LeastKept(|a|))
  {
    if !IsTestText(path) {
      ShortenedIsReported(a, c, path);
    }
    hide Regressions, IsTestText;
    if |c| >= LeastKept(LeastKept(|a|)) {
      var b := seq(LeastKept(|a|), _ => 'x');
      assert !Shortened(a, b) && !Shortened(b, c);
    }
    if b: string :| !Shortened(a, b) && !Shortened(b, c) {
      assert |b| >= LeastKept(|a|);
      LeastKeptGrows(LeastKept(|a|), |b|);
      assert b != "";
    }
  }

  lemma LeastKeptGrows(m: nat, n: nat)
    requires m <= n
    ensures LeastKept(m) <= LeastKept(n)
  {
  }

  /** For one: two rounds the differ accepts lose together what it would refuse at once. */
  lemma LossCompounds()
    ensures var long, half, quarter := Str("0123456789"), Str("01234"), Str("01");
            && Regressions(Obj(map["x" := long]), Obj(map["x" := half]), "") == {}
            && Regressions(Obj(map["x" := half]), Obj(map["x" := quarter]), "") == {}
            && Loss("/x", "shortened_field") in Regressions(Obj(map["x" := long]), Obj(map["x" := quarter]), "")
  {
    var long, half, quarter := Str("0123456789"), Str("01234"), Str("01");
    OneField(long, half);
    OneField(half, quarter);
    OneField(long, quarter);
    assert OrSlash("/x") == "/x" && !IsTestText("/x");
  }

  lemma OneField(a: Json, b: Json)
    ensures Regressions(Obj(map["x" := a]), Obj(map["x" := b]), "") == Regressions(a, b, "/x")
  {
    hide LostHere;
    var x, y := map["x" := a], map["x" := b];
    assert "" + "/" + "x" == "/x";
    assert LostHere(Obj(x), Obj(y), "") == {} by { NoFieldLost(a, b); }
    var whole, part := Regressions(Obj(x), Obj(y), ""), Regressions(a, b, "/x");
    forall f
      ensures f in whole <==> f in part
    {
      FieldLoss(x, y, f);
    }
  }

  lemma FieldLoss(x: map<string, Json>, y: map<string, Json>, f: Loss)
    requires LostHere(Obj(x), Obj(y), "") == {}
    ensures f in Regressions(Obj(x), Obj(y), "") <==>
            exists k :: k in x && k in y && f in Regressions(x[k], y[k], "" + "/" + k)
  {
    hide LostHere;
  }

  lemma NoFieldLost(a: Json, b: Json)
    ensures LostHere(Obj(map["x" := a]), Obj(map["x" := b]), "") == {}
  {
  }

  /* ------------------------------------------------------------ regions */

  /** `pointer.rsplit("/", 1)[0]`. */
  function Parent(pointer: string): string {
    if '/' !in pointer then pointer
    else if pointer[|pointer| - 1] == '/' then pointer[..|pointer| - 1]
    else ParentOf(pointer[..|pointer| - 1])
  }

  function ParentOf(pointer: string): string
    requires '/' in pointer
  {
    if pointer[|pointer| - 1] == '/' then pointer[..|pointer| - 1] else ParentOf(pointer[..|pointer| - 1])
  }

  /** `_enclosing_object`: the object whose fields a contradiction is between. */
  function EnclosingObject(doc: Json, pointer: string): string {
    var parent := Parent(pointer);
    match PtrSplit(parent)
    case None => pointer
    case Some(tokens) =>
      var found := PtrGet(doc, tokens);
      if parent != "" && found.Found? && found.value.Obj? then parent else pointer
  }

  lemma {:induction false} RenderLast(front: seq<string>, last: string)
    ensures Render(front + [last]) == Render(front) + "/" + Escape(last)
  {
    if front == [] {
      assert front + [last] == [last];
    } else {
      assert (front + [last])[1..] == front[1..] + [last];
      RenderLast(front[1..], last);
    }
  }

  lemma {:induction false} ParentCuts(front: string, last: string)
    requires '/' !in last
    ensures '/' in front + "/" + last && ParentOf(front + "/" + last) == front
  {
    var pointer := front + "/" + last;
    assert pointer[|front|] == '/';
    if last == "" {
      assert pointer[..|pointer| - 1] == front;
    } else {
      var less := last[..|last| - 1];
      assert pointer[|pointer| - 1] == last[|last| - 1] && last[|last| - 1] in last;
      assert pointer[..|pointer| - 1] == front + "/" + less;
      ParentCuts(front, less);
    }
  }

  /** What holds the place, when that is an object other than the whole document; else the place itself. */
  lemma EnclosingObjectIs(doc: Json, front: seq<string>, last: string)
    requires front != [""]
    ensures EnclosingObject(doc, Render(front + [last])) ==
            if front != [] && exists fields :: PointerSteps.ReadsTo(doc, front, Obj(fields)) then Render(front) else Render(front + [last])
  {
    hide PtrGet, PtrSplit, Render, PointerSteps.ReadsTo, Escape;
    var pointer := Render(front + [last]);
    RenderLast(front, last);
    ParentCuts(Render(front), Escape(last));
    ParentIsParentOf(pointer);
    SplitInvertsRender(front);
    RenderSteps(front);
    forall v
      ensures PtrGet(doc, front) == Found(v) <==> PointerSteps.ReadsTo(doc, front, v)
    {
      PointerSteps.FoundIff(doc, front, v);
    }
    if PtrGet(doc, front).Found? && PtrGet(doc, front).value.Obj? {
      assert PtrGet(doc, front).value == Obj(PtrGet(doc, front).value.fields);
    }
  }

  lemma ParentIsParentOf(pointer: string)
    requires '/' in pointer
    ensures Parent(pointer) == ParentOf(pointer)
  {
  }

  /** The texts that may shrink: a unit test, what it expects, and what it is given. */
  lemma IsTestTextIff(pointer: string)
    ensures IsTestText(pointer) <==> exists n: string :: IsDigits(n) && IsTextOfTest(pointer, n)
  {
    hide IsDigits, IsTextOfTest, IsTestText;
    if IsTestText(pointer) {
      var n := NumberOf(pointer);
    }
    if n: string :| IsDigits(n) && IsTextOfTest(pointer, n) {
      TestTextHasNumber(pointer, n);
    }
  }

  lemma NumberOf(pointer: string) returns (n: string)
    requires IsTestText(pointer)
    ensures IsDigits(n) && IsTextOfTest(pointer, n)
  {
    hide IsDigits, IsTextOfTest;
    var rest := pointer[|"/unit_tests/"|..];
    if IsDigits(rest) {
      assert rest + "" == rest;
      TestTextReads(pointer, rest, "");
      return rest;
    }
    var end := if EndsWith(rest, "/expect") && IsDigits(rest[..|rest| - 7]) then "/expect" else "/given";
    EndIsCut(rest, end);
    n := rest[..|rest| - |end|];
    TestTextReads(pointer, n, end);
  }

  lemma TestTextHasNumber(pointer: string, n: string)
    requires IsDigits(n) && IsTextOfTest(pointer, n)
    ensures IsTestText(pointer)
  {
    hide IsDigits, IsTextOfTest, EndsWith;
    TextOfTestIs(pointer, n);
  }

  lemma EndIsCut(s: string, end: string)
    requires EndsWith(s, end)
    ensures |s| >= |end| && s[..|s| - |end|] + end == s
  {
  }

  lemma TestTextReads(pointer: string, n: string, end: string)
    requires "/unit_tests/" <= pointer && pointer[12..] == n + end && (end == "" || end == "/expect" || end == "/given")
    ensures IsTextOfTest(pointer, n)
  {
    assert |"/unit_tests/"| == 12;
    assert pointer == "/unit_tests/" + (n + end);
    assert n + "" == n;
    assert "/unit_tests/" + (n + end) == "/unit_tests/" + n + end;
  }

  lemma TextOfTestIs(pointer: string, n: string)
    requires IsTextOfTest(pointer, n)
    ensures "/unit_tests/" <= pointer
    ensures var rest := pointer[|"/unit_tests/"|..];
            || rest == n
            || (EndsWith(rest, "/expect") && rest[..|rest| - 7] == n)
            || (EndsWith(rest, "/given") && rest[..|rest| - 6] == n)
  {
    assert |"/expect"| == 7 && |"/given"| == 6;
    var head := "/unit_tests/";
    if pointer == head + n {
      assert pointer[|head|..] == n;
    } else if pointer == head + n + "/expect" {
      assert pointer == head + (n + "/expect");
      assert pointer[|head|..] == n + "/expect";
    } else {
      assert pointer == head + (n + "/given");
      assert pointer[|head|..] == n + "/given";
    }
  }

  ghost predicate IsTextOfTest(pointer: string, n: string) {
    var test := "/unit_tests/" + n;
    pointer == test || pointer == test + "/expect" || pointer == test + "/given"
  }

  /** `_overlaps`. */
  predicate Overlaps(pointer: string, region: string) {
    pointer == region || region + "/" <= pointer || pointer + "/" <= region
  }

  lemma RenderSteps(tokens: seq<string>)
    ensures Render(tokens) == "" || Render(tokens)[0] == '/'
    ensures Render(tokens) == "" <==> tokens == []
  {
  }

  /** Two escaped tokens, each followed by nothing or a slash, line up only when they are one token. */
  lemma TokenLinesUp(a: string, x: string, b: string, y: string)
    requires '/' !in a && '/' !in b && x != "" && x[0] == '/' && (y == "" || y[0] == '/')
    requires a + x <= b + y
    ensures a == b && x <= y
  {
    var s := b + y;
    assert s[|a|] == (a + x)[|a|] == '/';
    assert forall i :: 0 <= i < |b| ==> s[i] == b[i] && b[i] in b;
    assert forall i :: 0 <= i < |a| ==> s[i] == (a + x)[i] == a[i] && a[i] in a;
    assert |b| < |s| && s[|b|] == y[0];
    assert |a| == |b|;
    assert a == (a + x)[..|a|] == s[..|a|] == b;
    assert x == (a + x)[|a|..] && (a + x)[|a|..] <= s[|a|..] == y;
  }

  lemma OneStep(a: string, x: string, b: string, y: string)
    requires '/' !in a && '/' !in b && x != "" && x[0] == '/' && (y == "" || y[0] == '/')
    ensures "/" + (a + x) <= "/" + (b + y) <==> a == b && x <= y
  {
    if "/" + (a + x) <= "/" + (b + y) {
      assert a + x == ("/" + (a + x))[1..] && b + y == ("/" + (b + y))[1..];
      assert a + x <= b + y;
      TokenLinesUp(a, x, b, y);
    }
    if a == b && x <= y {
      assert y == x + y[|x|..];
      assert "/" + (b + y) == "/" + (a + x) + y[|x|..];
    }
  }

  lemma RenderHead(p: seq<string>)
    requires p != []
    ensures Render(p) == "/" + (Escape(p[0]) + Render(p[1..]))
    ensures Render(p) + "/" == "/" + (Escape(p[0]) + (Render(p[1..]) + "/"))
  {
    hide Escape;
  }

  lemma PrefixStep(p: seq<string>, q: seq<string>)
    requires p != [] && q != []
    ensures p < q <==> p[0] == q[0] && p[1..] < q[1..]
  {
    assert p == [p[0]] + p[1..] && q == [q[0]] + q[1..];
  }

  lemma {:induction false} BelowIsPrefix(p: seq<string>, q: seq<string>)
    ensures Render(p) + "/" <= Render(q) <==> p < q
  {
    hide Escape, Render, Unescape;
    RenderSteps(p);
    RenderSteps(q);
    if p != [] && q != [] {
      RenderSteps(p[1..]);
      RenderSteps(q[1..]);
      RenderHead(p);
      RenderHead(q);
      BelowIsPrefix(p[1..], q[1..]);
      OneStep(Escape(p[0]), Render(p[1..]) + "/", Escape(q[0]), Render(q[1..]));
      UnescapeEscape(p[0]);
      UnescapeEscape(q[0]);
      PrefixStep(p, q);
    } else if p == [] && q != [] {
      assert Render(p) + "/" == "/" && Render(q)[..1] == "/";
    }
  }

  /** On pointers written as section 3 of RFC 6901 says, overlapping is lying on one path. */
  lemma OverlapsIsOnOnePath(p: seq<string>, q: seq<string>)
    ensures Overlaps(Render(p), Render(q)) <==> !Disjoint(p, q)
  {
    hide Render;
    BelowIsPrefix(p, q);
    BelowIsPrefix(q, p);
    assert p <= q <==> p < q || p == q;
    assert q <= p <==> q < p || p == q;
    if Render(p) == Render(q) {
      RenderInjective(p, q);
    }
  }

  lemma RenderInjective(p: seq<string>, q: seq<string>)
    requires Render(p) == Render(q)
    ensures p == q
  {
    hide Render, Escape, Unescape;
    SplitRendered(p);
    SplitRendered(q);
    assert ([""] + EscapeAll(p))[1..] == EscapeAll(p) && ([""] + EscapeAll(q))[1..] == EscapeAll(q);
    assert EscapeAll(p) == EscapeAll(q);
    forall i | 0 <= i < |p|
      ensures p[i] == q[i]
    {
      UnescapeEscape(p[i]);
      UnescapeEscape(q[i]);
      assert EscapeAll(p)[i] == Escape(p[i]) && EscapeAll(q)[i] == Escape(q[i]);
    }
  }
}
