/** Applying one round's patches to a fresh copy of the spec (loop/spec_review.py, `_apply_to`): the order they go
    in, and when that order does not matter. */
module Patches {
  import opened Wrappers
  import opened Json
  import opened Strings
  import opened JsonPointer

  /** A record's patch; `id` stands for the record's identity. */
  datatype Patch = Patch(id: nat, op: Op, pointer: string, value: Json)

  /* ------------------------------------------------------------ the order */

  /** The sort key: replaces before adds, then by pointer. */
  predicate Before(a: Patch, b: Patch) {
    (a.op == Replace && b.op == Add) || (a.op == b.op && Less(a.pointer, b.pointer))
  }

  lemma NotBeforeTransitive(a: Patch, b: Patch, c: Patch)
    requires !Before(b, a) && !Before(c, b)
    ensures !Before(c, a)
  {
    hide Less;
    if Before(c, a) && c.op == a.op {
      LessTotal(b.pointer, c.pointer);
      LessTotal(a.pointer, b.pointer);
      if Less(b.pointer, c.pointer) {
        LessTransitive(b.pointer, c.pointer, a.pointer);
      }
    }
  }

  predicate Ordered(patches: seq<Patch>) {
    forall i, j :: 0 <= i < j < |patches| ==> !Before(patches[j], patches[i])
  }

  /** Where a stable sort puts the next patch: after every one that is not later. */
  function Place(sorted: seq<Patch>, p: Patch): (out: seq<Patch>)
    ensures multiset(out) == multiset(sorted) + multiset{p}
    ensures |out| == |sorted| + 1
  {
    if sorted == [] then [p]
    else
      var last := |sorted| - 1;
      assert sorted == sorted[..last] + [sorted[last]];
      if Before(p, sorted[last]) then Place(sorted[..last], p) + [sorted[last]] else sorted + [p]
  }

  /** `sorted(records, key=...)`. */
  function SortPatches(patches: seq<Patch>): (out: seq<Patch>)
    ensures multiset(out) == multiset(patches)
    ensures |out| == |patches|
  {
    if patches == [] then []
    else
      var last := |patches| - 1;
      assert patches == patches[..last] + [patches[last]];
      Place(SortPatches(patches[..last]), patches[last])
  }

  lemma SameMembers(a: seq<Patch>, b: seq<Patch>, p: Patch)
    requires multiset(a) == multiset(b)
    ensures p in a <==> p in b
  {
    assert p in multiset(a) <==> p in multiset(b);
  }

  lemma {:induction false} PlaceKeepsOrdered(sorted: seq<Patch>, p: Patch)
    requires Ordered(sorted)
    ensures Ordered(Place(sorted, p))
  {
    hide Before;
    if sorted != [] {
      var last := |sorted| - 1;
      if Before(p, sorted[last]) {
        PlaceKeepsOrdered(sorted[..last], p);
        var front := Place(sorted[..last], p);
        forall i | 0 <= i < |front|
          ensures !Before(sorted[last], front[i])
        {
          assert front[i] in multiset(front);
          assert front[i] in sorted[..last] || front[i] == p;
          if front[i] == p {
            BeforeAsymmetric(p, sorted[last]);
          }
        }
      } else {
        forall i | 0 <= i < |sorted|
          ensures !Before(p, sorted[i])
        {
          if i < last {
            NotBeforeTransitive(sorted[i], sorted[last], p);
          }
        }
      }
    }
  }

  lemma BeforeAsymmetric(a: Patch, b: Patch)
    requires Before(a, b)
    ensures !Before(b, a)
  {
    hide Less;
    if a.op == b.op && Less(b.pointer, a.pointer) {
      LessTransitive(a.pointer, b.pointer, a.pointer);
      LessIrreflexive(a.pointer);
    }
  }

  lemma {:induction false} SortIsOrdered(patches: seq<Patch>)
    ensures Ordered(SortPatches(patches))
  {
    if patches != [] {
      SortIsOrdered(patches[..|patches| - 1]);
      PlaceKeepsOrdered(SortPatches(patches[..|patches| - 1]), patches[|patches| - 1]);
    }
  }

  /** The patches of this kind at this pointer, in order. */
  function Of(patches: seq<Patch>, op: Op, pointer: string): seq<Patch> {
    if patches == [] then []
    else
      var last := patches[|patches| - 1];
      Of(patches[..|patches| - 1], op, pointer) + (if last.op == op && last.pointer == pointer then [last] else [])
  }

  lemma OfOneMore(patches: seq<Patch>, p: Patch, op: Op, pointer: string)
    ensures Of(patches + [p], op, pointer) == Of(patches, op, pointer) + (if p.op == op && p.pointer == pointer then [p] else [])
  {
    assert (patches + [p])[..|patches|] == patches;
  }

  lemma {:induction false} PlaceIsStable(sorted: seq<Patch>, p: Patch, op: Op, pointer: string)
    ensures Of(Place(sorted, p), op, pointer) == Of(sorted, op, pointer) + (if p.op == op && p.pointer == pointer then [p] else [])
  {
    hide Before, Of;
    if sorted == [] {
      OfOneMore([], p, op, pointer);
      assert [] + [p] == [p];
    } else {
      var last := |sorted| - 1;
      assert sorted == sorted[..last] + [sorted[last]];
      if Before(p, sorted[last]) {
        PlaceIsStable(sorted[..last], p, op, pointer);
        OfOneMore(Place(sorted[..last], p), sorted[last], op, pointer);
        OfOneMore(sorted[..last], sorted[last], op, pointer);
        BeforeIsApart(p, sorted[last]);
      } else {
        OfOneMore(sorted, p, op, pointer);
      }
    }
  }

  lemma BeforeIsApart(a: Patch, b: Patch)
    requires Before(a, b)
    ensures a.op != b.op || a.pointer != b.pointer
  {
    LessIrreflexive(a.pointer);
  }

  /** The patches go in by their fields: replaces before adds, each kind by pointer, and those of one kind at one pointer
      as they stood in the round. */
  lemma {:induction false} SortByFields(patches: seq<Patch>)
    ensures var sorted := SortPatches(patches);
            && multiset(sorted) == multiset(patches)
            && (forall i, j :: 0 <= i < j < |sorted| ==>
                  && (sorted[i].op == Add ==> sorted[j].op == Add)
                  && (sorted[i].op == sorted[j].op ==> !Less(sorted[j].pointer, sorted[i].pointer)))
            && forall op, pointer :: Of(sorted, op, pointer) == Of(patches, op, pointer)
  {
    SortIsOrdered(patches);
    hide Place, Less, SortPatches;
    forall op, pointer ensures Of(SortPatches(patches), op, pointer) == Of(patches, op, pointer) {
      SortIsStable(patches, op, pointer);
    }
    var sorted := SortPatches(patches);
    forall i, j | 0 <= i < j < |sorted|
      ensures sorted[i].op == Add ==> sorted[j].op == Add
      ensures sorted[i].op == sorted[j].op ==> !Less(sorted[j].pointer, sorted[i].pointer)
    {
      assert !Before(sorted[j], sorted[i]);
    }
  }

  lemma {:induction false} SortIsStable(patches: seq<Patch>, op: Op, pointer: string)
    ensures Of(SortPatches(patches), op, pointer) == Of(patches, op, pointer)
  {
    hide Place;
    if patches != [] {
      var last := |patches| - 1;
      SortIsStable(patches[..last], op, pointer);
      PlaceIsStable(SortPatches(patches[..last]), patches[last], op, pointer);
    }
  }

  predicate Above(a: string, b: string) {
    |a| < |b| && b[..|a|] == a
  }

  lemma OrderedPlaces(sorted: seq<Patch>, i: nat, j: nat)
    requires Ordered(sorted) && i < |sorted| && j < |sorted| && Before(sorted[j], sorted[i])
    ensures j < i
  {
    BeforeAsymmetric(sorted[j], sorted[i]);
  }

  /** A replace goes in before every replace below it and before every add, wherever they stood in the round. */
  lemma AncestorsFirst(patches: seq<Patch>, i: nat, j: nat)
    requires i < |patches| && j < |patches|
    requires SortPatches(patches)[j].op == Replace
    requires SortPatches(patches)[i].op == Add || Above(SortPatches(patches)[j].pointer, SortPatches(patches)[i].pointer)
    ensures j < i
  {
    hide SortPatches, Above, Before, Ordered;
    var sorted := SortPatches(patches);
    SortIsOrdered(patches);
    AboveIsBefore(sorted[j], sorted[i]);
    OrderedPlaces(sorted, i, j);
  }

  lemma AboveIsBefore(a: Patch, b: Patch)
    requires a.op == Replace && (b.op == Add || Above(a.pointer, b.pointer))
    ensures Before(a, b)
  {
    hide Less;
    if b.op == Replace {
      assert b.pointer == a.pointer + b.pointer[|a.pointer|..];
      PrefixLess(a.pointer, b.pointer[|a.pointer|..]);
    }
  }

  /* ------------------------------------------------------------ applying */

  datatype Applied = Applied(doc: Json, failed: seq<Patch>)

  function ApplyOne(doc: Json, p: Patch): Outcome {
    match PtrSplit(p.pointer)
    case None => Failed
    case Some(tokens) => PtrApply(doc, tokens, p.value, p.op)
  }

  /** In the order given; a patch that raises is set aside and changes nothing. */
  function Run(spec: Json, patches: seq<Patch>): Applied {
    if patches == [] then Applied(spec, [])
    else
      var last := |patches| - 1;
      var so := Run(spec, patches[..last]);
      match ApplyOne(so.doc, patches[last])
      case Failed => Applied(so.doc, so.failed + [patches[last]])
      case Ok(doc) => Applied(doc, so.failed)
  }

  function ApplyTo(spec: Json, patches: seq<Patch>): Applied {
    Run(spec, SortPatches(patches))
  }

  /** `_apply_to`. */
  method ApplyPatchList(spec: Json, patches: seq<Patch>) returns (doc: Json, failed: seq<Patch>)
    ensures Applied(doc, failed) == ApplyTo(spec, patches)
  {
    hide ApplyOne;
    var ordered := SortPatches(patches);
    doc, failed := spec, [];
    for i := 0 to |ordered|
      invariant Applied(doc, failed) == Run(spec, ordered[..i])
    {
      assert ordered[..i + 1][..i] == ordered[..i];
      match ApplyOne(doc, ordered[i])
      case Failed => failed := failed + [ordered[i]];
      case Ok(next) => doc := next;
    }
    assert ordered[..|ordered|] == ordered;
  }

  /* ------------------------------------------------------------ replaces that do not meet */

  function Tokens(p: Patch): seq<string> {
    match PtrSplit(p.pointer)
    case None => []
    case Some(tokens) => tokens
  }

  /** A replace at a place the document has. */
  predicate Sits(doc: Json, p: Patch) {
    p.op == Replace && Tokens(p) != [] && Resolves(doc, Tokens(p))
  }

  ghost predicate Apart(patches: seq<Patch>) {
    forall i, j :: 0 <= i < j < |patches| ==> Disjoint(Tokens(patches[i]), Tokens(patches[j]))
  }

  ghost predicate AllSit(doc: Json, patches: seq<Patch>) {
    forall i :: 0 <= i < |patches| ==> Sits(doc, patches[i])
  }

  lemma SittingLands(doc: Json, p: Patch)
    requires Sits(doc, p)
    ensures ApplyOne(doc, p) == PtrApply(doc, Tokens(p), p.value, Replace) && ApplyOne(doc, p).Ok?
    ensures Resolves(ApplyOne(doc, p).doc, Tokens(p)) && ValueAt(ApplyOne(doc, p).doc, Tokens(p)) == p.value
  {
    hide PtrApply, PtrSplit;
    ReplaceReadsBack(doc, Tokens(p), p.value);
  }

  lemma OneMore(spec: Json, patches: seq<Patch>, p: Patch)
    requires Sits(Run(spec, patches).doc, p)
    ensures ApplyOne(Run(spec, patches).doc, p).Ok?
    ensures Run(spec, patches + [p]) == Applied(ApplyOne(Run(spec, patches).doc, p).doc, Run(spec, patches).failed)
  {
    hide ApplyOne;
    SittingLands(Run(spec, patches).doc, p);
    assert (patches + [p])[..|patches|] == patches;
  }

  ghost predicate Clear(patches: seq<Patch>, q: seq<string>) {
    forall i :: 0 <= i < |patches| ==> Disjoint(Tokens(patches[i]), q)
  }

  /** A round of disjoint replaces: a path none of them meets keeps its value. */
  lemma {:induction false} ReplacesKeepTheRest(spec: Json, patches: seq<Patch>, q: seq<string>)
    requires AllSit(spec, patches) && Apart(patches) && Clear(patches, q) && Resolves(spec, q)
    ensures Run(spec, patches).failed == []
    ensures Resolves(Run(spec, patches).doc, q) && ValueAt(Run(spec, patches).doc, q) == ValueAt(spec, q)
  {
    hide ApplyOne, PtrApply, PtrSplit, Disjoint, Resolves, ValueAt;
    if patches != [] {
      var last := |patches| - 1;
      var front, p := patches[..last], patches[last];
      assert patches == front + [p];
      ReplacesKeepTheRest(spec, front, q);
      assert Clear(front, Tokens(p));
      ReplacesKeepTheRest(spec, front, Tokens(p));
      var doc := Run(spec, front).doc;
      OneMore(spec, front, p);
      SittingLands(doc, p);
      ReplaceFrame(doc, Tokens(p), p.value, q);
    }
  }

  lemma ClearSymmetric(patches: seq<Patch>, i: nat)
    requires Apart(patches) && i < |patches|
    ensures Clear(patches[..i], Tokens(patches[i])) && Clear(patches[i + 1..], Tokens(patches[i]))
  {
  }

  /** ... and every one of them lands and reads back. */
  lemma {:induction false} ReplacesReadBack(spec: Json, patches: seq<Patch>, i: nat)
    requires AllSit(spec, patches) && Apart(patches) && i < |patches|
    ensures Run(spec, patches).failed == []
    ensures Resolves(Run(spec, patches).doc, Tokens(patches[i]))
    ensures ValueAt(Run(spec, patches).doc, Tokens(patches[i])) == patches[i].value
  {
    hide ApplyOne, PtrApply, PtrSplit, Disjoint, Resolves, ValueAt;
    var last := |patches| - 1;
    var front, p := patches[..last], patches[last];
    assert patches == front + [p];
    ClearSymmetric(patches, last);
    ReplacesKeepTheRest(spec, front, Tokens(p));
    var doc := Run(spec, front).doc;
    OneMore(spec, front, p);
    SittingLands(doc, p);
    if i < last {
      ReplacesReadBack(spec, front, i);
      ApartPair(patches, last, i);
      ReplaceFrame(doc, Tokens(p), p.value, Tokens(patches[i]));
    }
  }

  lemma ApartPair(patches: seq<Patch>, i: nat, j: nat)
    requires Apart(patches) && i < |patches| && j < |patches| && i != j
    ensures Disjoint(Tokens(patches[i]), Tokens(patches[j]))
  {
    hide PtrSplit;
    if j < i {
      assert Disjoint(Tokens(patches[j]), Tokens(patches[i]));
    }
  }

  /* ------------------------------------------------------------ the order does not matter */

  /** Any one of the replaces may as well go last. */
  lemma {:induction false} MoveLast(spec: Json, front: seq<Patch>, p: Patch, back: seq<Patch>)
    requires AllSit(spec, front + [p] + back) && Apart(front + [p] + back)
    ensures Run(spec, front + [p] + back) == Run(spec, front + back + [p])
  {
    hide ApplyOne, PtrApply, PtrSplit, Disjoint, Resolves, ValueAt, AllSit, Apart, Run;
    var all := front + [p] + back;
    if back == [] {
      assert all == front + back + [p];
    } else {
      var last := |back| - 1;
      var q := back[last];
      var some := front + [p] + back[..last];
      assert all == some + [q];
      SubApart(spec, all, |all| - 1);
      assert all[..|all| - 1] == some;
      MoveLast(spec, front, p, back[..last]);
      var rest := front + back[..last];
      assert front + back == rest + [q];
      RunExtends(spec, some, rest + [p], q);
      assert rest == all[..|front|] + all[|front| + 1..|all| - 1];
      TwoOrders(spec, all, rest, p, q, |front|, |all| - 1);
    }
  }

  lemma SubApart(spec: Json, patches: seq<Patch>, n: nat)
    requires AllSit(spec, patches) && Apart(patches) && n <= |patches|
    ensures AllSit(spec, patches[..n]) && Apart(patches[..n])
  {
    hide Sits, Disjoint, PtrSplit;
  }

  lemma TwoOrders(spec: Json, all: seq<Patch>, rest: seq<Patch>, p: Patch, q: Patch, at: nat, to: nat)
    requires AllSit(spec, all) && Apart(all)
    requires at < to < |all| && all[at] == p && all[to] == q
    requires rest == all[..at] + all[at + 1..to]
    ensures Run(spec, rest + [p] + [q]) == Run(spec, rest + [q] + [p])
  {
    hide ApplyOne, PtrApply, PtrSplit, Resolves, ValueAt, Disjoint;
    ApartPair(all, at, to);
    RestIsClear(spec, all, rest, at, to);
    ReplacesKeepTheRest(spec, rest, Tokens(p));
    ReplacesKeepTheRest(spec, rest, Tokens(q));
    var doc := Run(spec, rest).doc;
    SwapTwo(doc, p, q);
    OneMore(spec, rest, p);
    OneMore(spec, rest, q);
    OneMore(spec, rest + [p], q);
    OneMore(spec, rest + [q], p);
  }

  lemma RestIsClear(spec: Json, all: seq<Patch>, rest: seq<Patch>, at: nat, to: nat)
    requires AllSit(spec, all) && Apart(all) && at < to < |all| && rest == all[..at] + all[at + 1..to]
    ensures AllSit(spec, rest) && Apart(rest) && Clear(rest, Tokens(all[at])) && Clear(rest, Tokens(all[to]))
  {
    hide Sits, PtrSplit;
    forall i | 0 <= i < |rest|
      ensures Sits(spec, rest[i]) && Disjoint(Tokens(rest[i]), Tokens(all[at])) && Disjoint(Tokens(rest[i]), Tokens(all[to]))
    {
      var k := if i < at then i else i + 1;
      assert rest[i] == all[k];
      ApartPair(all, k, at);
      ApartPair(all, k, to);
    }
    forall i, j | 0 <= i < j < |rest|
      ensures Disjoint(Tokens(rest[i]), Tokens(rest[j]))
    {
      var k, l := if i < at then i else i + 1, if j < at then j else j + 1;
      assert rest[i] == all[k] && rest[j] == all[l];
      ApartPair(all, k, l);
    }
  }

  lemma SwapTwo(doc: Json, p: Patch, q: Patch)
    requires Sits(doc, p) && Sits(doc, q) && Disjoint(Tokens(p), Tokens(q))
    ensures ApplyOne(doc, p).Ok? && ApplyOne(doc, q).Ok?
    ensures Sits(ApplyOne(doc, p).doc, q) && Sits(ApplyOne(doc, q).doc, p)
    ensures ApplyOne(ApplyOne(doc, p).doc, q) == ApplyOne(ApplyOne(doc, q).doc, p)
  {
    hide PtrApply, PtrSplit, Resolves, ValueAt;
    ReplacesCommute(doc, Tokens(p), p.value, Tokens(q), q.value);
    ReplaceFrame(doc, Tokens(p), p.value, Tokens(q));
    ReplaceFrame(doc, Tokens(q), q.value, Tokens(p));
    SittingLands(doc, p);
    SittingLands(doc, q);
    SittingLands(ApplyOne(doc, p).doc, q);
    SittingLands(ApplyOne(doc, q).doc, p);
  }

  /** Replaces that do not meet give one document, in whatever order they are applied. */
  lemma {:induction false} OrderOfReplacesIsFree(spec: Json, a: seq<Patch>, b: seq<Patch>)
    requires AllSit(spec, a) && Apart(a) && multiset(a) == multiset(b)
    ensures Run(spec, a) == Run(spec, b)
    decreases |b|
  {
    hide ApplyOne, PtrApply, PtrSplit, Disjoint, Resolves, ValueAt, Run, AllSit, Apart;
    if b == [] {
      SameLength(a, b);
    } else {
      var last := |b| - 1;
      var p := b[last];
      var k := WithoutLast(a, b);
      var front, back := a[..k], a[k + 1..];
      assert a == front + [p] + back && b == b[..last] + [p];
      MoveLast(spec, front, p, back);
      WithoutOne(spec, a, k);
      OrderOfReplacesIsFree(spec, front + back, b[..last]);
      RunExtends(spec, front + back, b[..last], p);
    }
  }

  lemma SameLength(a: seq<Patch>, b: seq<Patch>)
    requires multiset(a) == multiset(b)
    ensures |a| == |b|
  {
    assert |multiset(a)| == |a| && |multiset(b)| == |b|;
  }

  lemma WithoutLast(a: seq<Patch>, b: seq<Patch>) returns (k: nat)
    requires b != [] && multiset(a) == multiset(b)
    ensures k < |a| && a[k] == b[|b| - 1]
    ensures multiset(a[..k] + a[k + 1..]) == multiset(b[..|b| - 1])
  {
    var last := |b| - 1;
    SameMembers(a, b, b[last]);
    k :| 0 <= k < |a| && a[k] == b[last];
    RemoveOne(a, k);
    RemoveOne(b, last);
    assert b[..last] + b[last + 1..] == b[..last];
    CancelOne(multiset(a[..k] + a[k + 1..]), multiset(b[..last]), b[last]);
  }

  lemma RemoveOne(s: seq<Patch>, k: nat)
    requires k < |s|
    ensures multiset(s) == multiset(s[..k] + s[k + 1..]) + multiset{s[k]}
  {
    assert s == s[..k] + [s[k]] + s[k + 1..];
  }

  lemma CancelOne(x: multiset<Patch>, y: multiset<Patch>, p: Patch)
    requires x + multiset{p} == y + multiset{p}
    ensures x == y
  {
    assert x == (x + multiset{p}) - multiset{p};
    assert y == (y + multiset{p}) - multiset{p};
  }

  lemma WithoutOne(spec: Json, a: seq<Patch>, k: nat)
    requires AllSit(spec, a) && Apart(a) && k < |a|
    ensures AllSit(spec, a[..k] + a[k + 1..]) && Apart(a[..k] + a[k + 1..])
  {
    hide Sits, Disjoint, PtrSplit;
    var rest := a[..k] + a[k + 1..];
    forall i | 0 <= i < |rest|
      ensures Sits(spec, rest[i])
    {
      assert rest[i] == a[if i < k then i else i + 1];
    }
    forall i, j | 0 <= i < j < |rest|
      ensures Disjoint(Tokens(rest[i]), Tokens(rest[j]))
    {
      assert rest[i] == a[if i < k then i else i + 1] && rest[j] == a[if j < k then j else j + 1];
    }
  }

  lemma RunExtends(spec: Json, a: seq<Patch>, b: seq<Patch>, p: Patch)
    requires Run(spec, a) == Run(spec, b)
    ensures Run(spec, a + [p]) == Run(spec, b + [p])
  {
    hide ApplyOne;
    assert (a + [p])[..|a|] == a && (b + [p])[..|b|] == b;
  }

  /* ------------------------------------------------------------ appends */

  /** An append to a list the document has. */
  predicate Appends(doc: Json, p: Patch, path: seq<string>) {
    Tokens(p) == path + ["-"] && Resolves(doc, path) && ValueAt(doc, path).Arr?
  }

  lemma AppendLands(doc: Json, p: Patch, path: seq<string>)
    requires Appends(doc, p, path)
    ensures ApplyOne(doc, p) == PtrApply(doc, path + ["-"], p.value, p.op) && ApplyOne(doc, p).Ok?
  {
    hide PtrApply, PtrSplit;
    AppendLandsAtEnd(doc, path, p.value, p.op);
  }

  /** What an append does to any path the document had: it stays, an array stays an array at least as long, and the
      value changes only on the way to the array that grew. */
  lemma AppendKeeps(doc: Json, p: Patch, path: seq<string>, q: seq<string>)
    requires Appends(doc, p, path) && Resolves(doc, q)
    ensures ApplyOne(doc, p).Ok? && Resolves(ApplyOne(doc, p).doc, q)
    ensures !(q <= path) ==> ValueAt(ApplyOne(doc, p).doc, q) == ValueAt(doc, q)
    ensures ValueAt(doc, q).Arr? ==> ValueAt(ApplyOne(doc, p).doc, q).Arr?
  {
    hide PtrSplit;
    AppendLands(doc, p, path);
    AppendKeepsNames(doc, path, p.value, p.op, q);
    if ValueAt(doc, q).Arr? {
      AppendKeepsArrays(doc, path, p.value, p.op, q);
    }
  }

  lemma {:induction false} AppendKeepsArrays(doc: Json, path: seq<string>, v: Json, op: Op, q: seq<string>)
    requires Resolves(doc, path) && ValueAt(doc, path).Arr? && Resolves(doc, q) && ValueAt(doc, q).Arr?
    requires PtrApply(doc, path + ["-"], v, op).Ok? && Resolves(PtrApply(doc, path + ["-"], v, op).doc, q)
    ensures ValueAt(PtrApply(doc, path + ["-"], v, op).doc, q).Arr?
  {
    AppendKeepsNames(doc, path, v, op, q);
    if q != [] && q <= path {
      var tokens := path + ["-"];
      assert tokens[1..] == path[1..] + ["-"];
      assert q[1..] <= path[1..] && q[0] == path[0];
      match doc
      case Arr(items) =>
        AppendLandsAtEnd(items[ParseNat(path[0])], path[1..], v, op);
        AppendKeepsNames(items[ParseNat(path[0])], path[1..], v, op, q[1..]);
        AppendKeepsArrays(items[ParseNat(path[0])], path[1..], v, op, q[1..]);
      case Obj(fields) =>
        AppendLandsAtEnd(fields[path[0]], path[1..], v, op);
        AppendKeepsNames(fields[path[0]], path[1..], v, op, q[1..]);
        AppendKeepsArrays(fields[path[0]], path[1..], v, op, q[1..]);
    }
  }

  ghost predicate AllAppend(doc: Json, patches: seq<Patch>, paths: seq<seq<string>>) {
    |paths| == |patches| && forall i :: 0 <= i < |patches| ==> Appends(doc, patches[i], paths[i])
  }

  /** A round of appends: none fails, and every pointer into the old document names what it named, unless it leads
      to a list that grew. */
  lemma {:induction false} AppendsRenumberNothing(spec: Json, patches: seq<Patch>, paths: seq<seq<string>>, q: seq<string>)
    requires AllAppend(spec, patches, paths) && Resolves(spec, q)
    ensures Run(spec, patches).failed == [] && Resolves(Run(spec, patches).doc, q)
    ensures ValueAt(spec, q).Arr? ==> ValueAt(Run(spec, patches).doc, q).Arr?
    ensures (forall i :: 0 <= i < |paths| ==> !(q <= paths[i])) ==> ValueAt(Run(spec, patches).doc, q) == ValueAt(spec, q)
  {
    hide ApplyOne, PtrSplit, PtrApply, Resolves, ValueAt;
    if patches != [] {
      var last := |patches| - 1;
      assert Appends(spec, patches[last], paths[last]);
      AppendsRenumberNothing(spec, patches[..last], paths[..last], q);
      AppendsRenumberNothing(spec, patches[..last], paths[..last], paths[last]);
      AppendKeeps(Run(spec, patches[..last]).doc, patches[last], paths[last], q);
    }
  }
}
