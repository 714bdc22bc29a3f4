/** Pruning the open questions at the end of a review (loop/spec_review.py, `prune_open_questions`): answered
    questions go, re-asked ones collapse onto their head, and no pointer is lost. */
module QuestionPruning {
  import opened Wrappers
  import opened Strings
  import opened QuestionClusters

  /** `_question_pointer`: a leading `[/...]` tag and the text after it. */
  function TagEnd(s: string, i: nat): (e: nat)
    requires i <= |s|
    ensures i <= e <= |s| && ']' !in s[i..e] && (e < |s| ==> s[e] == ']')
    decreases |s| - i
  {
    if i < |s| && s[i] != ']' then
      var e := TagEnd(s, i + 1);
      assert s[i..e] == [s[i]] + s[i + 1..e];
      e
    else i
  }

  function QuestionPointer(entry: string): (Option<string>, string) {
    if |entry| < 3 || entry[0] != '[' || entry[1] != '/' || TagEnd(entry, 1) == |entry| then (None, entry)
    else (Some(entry[1..TagEnd(entry, 1)]), LStrip(entry[TagEnd(entry, 1) + 1..]))
  }

  predicate IsPointer(p: string) {
    p != "" && p[0] == '/' && ']' !in p
  }

  lemma {:induction false} TagEndAt(s: string, i: nat, e: nat)
    requires i <= e < |s| && s[e] == ']' && forall k :: i <= k < e ==> s[k] != ']'
    ensures TagEnd(s, i) == e
    decreases e - i
  {
    if i < e {
      TagEndAt(s, i + 1, e);
    }
  }

  /** Writing a tag and reading it back. */
  lemma TagReadsBack(p: string, body: string)
    requires IsPointer(p)
    ensures QuestionPointer("[" + p + "] " + body) == (Some(p), LStrip(body))
  {
    hide TagEnd;
    var rest := "] " + body;
    var s := "[" + (p + rest);
    assert "[" + p + "] " + body == s;
    var e := 1 + |p|;
    assert s[e] == rest[0] == ']';
    forall k | 1 <= k < e
      ensures s[k] != ']'
    {
      assert s[k] == p[k - 1] && p[k - 1] in p;
    }
    TagEndAt(s, 1, e);
    assert s[1..e] == p && s[e + 1..] == " " + body;
    assert s[1] == p[0];
    BlankGoes(body);
  }

  lemma BlankGoes(body: string)
    ensures LStrip(" " + body) == LStrip(body)
  {
    assert (" " + body)[1..] == body;
  }

  lemma PointersAreWellFormed(entry: string)
    ensures QuestionPointer(entry).0.Some? ==> IsPointer(QuestionPointer(entry).0.value)
  {
    if QuestionPointer(entry).0.Some? {
      var e := TagEnd(entry, 1);
      assert e > 1;
      assert entry[1..e][0] == '/';
    }
  }

  function JoinComma(parts: seq<string>): string {
    if parts == [] then "" else if |parts| == 1 then parts[0] else parts[0] + ", " + JoinComma(parts[1..])
  }

  /** `part` occurs in `whole`. */
  ghost predicate Occurs(part: string, whole: string) {
    exists a: string, b: string :: whole == a + part + b
  }

  lemma {:induction false} JoinedOccurs(parts: seq<string>, i: nat)
    requires i < |parts|
    ensures Occurs(parts[i], JoinComma(parts))
  {
    var j := JoinComma(parts);
    if |parts| == 1 {
      assert j == "" + parts[0] + "";
    } else if i == 0 {
      assert j == "" + parts[0] + (", " + JoinComma(parts[1..]));
    } else {
      JoinedOccurs(parts[1..], i - 1);
      var a: string, b: string :| JoinComma(parts[1..]) == a + parts[i] + b;
      assert j == (parts[0] + ", " + a) + parts[i] + b;
    }
  }

  /** The entry that stands for a whole cluster: the head's text under the first pointer, the others named in a
      sentence. */
  function Merged(pointers: seq<string>, body: string): string {
    if pointers == [] then body
    else if |pointers| == 1 then "[" + pointers[0] + "] " + body
    else "[" + pointers[0] + "] " + body + " Also raised at " + JoinComma(pointers[1..]) + "."
  }

  lemma OccursWithin(part: string, inner: string, before: string, after: string)
    requires Occurs(part, inner)
    ensures Occurs(part, before + inner + after)
  {
    var a: string, b: string :| inner == a + part + b;
    assert before + inner + after == (before + a) + part + (b + after);
  }

  lemma OccursInItself(part: string)
    ensures Occurs(part, part)
  {
    assert part == "" + part + "";
  }

  lemma MergedKeepsPointer(pointers: seq<string>, body: string, i: nat)
    requires i < |pointers|
    ensures Occurs(pointers[i], Merged(pointers, body))
  {
    hide Occurs;
    if i == 0 {
      OccursInItself(pointers[0]);
      var after := if |pointers| == 1 then "] " + body else "] " + body + " Also raised at " + JoinComma(pointers[1..]) + ".";
      assert Merged(pointers, body) == "[" + pointers[0] + after;
      OccursWithin(pointers[0], pointers[0], "[", after);
    } else {
      JoinedOccurs(pointers[1..], i - 1);
      assert pointers[1..][i - 1] == pointers[i];
      OccursWithin(pointers[i], JoinComma(pointers[1..]), "[" + pointers[0] + "] " + body + " Also raised at ", ".");
    }
  }

  ghost predicate AllBelow(members: seq<nat>, n: nat) {
    forall k :: 0 <= k < |members| ==> members[k] < n
  }

  /** The `n`-th member is tagged with this pointer. */
  ghost predicate Tagged(live: seq<string>, members: seq<nat>, n: nat, p: string) {
    n < |members| && members[n] < |live| && QuestionPointer(live[members[n]]).0 == Some(p)
  }

  /** Exactly the pointers the first `n` members are tagged with, in the order they first appear there. */
  ghost predicate AreTheirs(live: seq<string>, members: seq<nat>, n: nat, pointers: seq<string>) {
    && (forall p :: p in pointers <==> TaggedBelow(live, members, n, p))
    && (forall i, j, k: nat :: 0 <= i < j < |pointers| && k < n && Tagged(live, members, k, pointers[j]) ==>
          TaggedBelow(live, members, k, pointers[i]))
  }

  ghost predicate TaggedBelow(live: seq<string>, members: seq<nat>, n: nat, p: string) {
    exists k :: 0 <= k < n && Tagged(live, members, k, p)
  }

  lemma OneMoreTagged(live: seq<string>, members: seq<nat>, k: nat, pointers: seq<string>)
    requires k < |members| && members[k] < |live| && AreTheirs(live, members, k, pointers)
    ensures var ptr := QuestionPointer(live[members[k]]).0;
            AreTheirs(live, members, k + 1, if ptr.Some? && ptr.value !in pointers then pointers + [ptr.value] else pointers)
  {
    hide QuestionPointer;
    var ptr := QuestionPointer(live[members[k]]).0;
    var next := if ptr.Some? && ptr.value !in pointers then pointers + [ptr.value] else pointers;
    forall p
      ensures p in next <==> TaggedBelow(live, members, k + 1, p)
    {
      assert Tagged(live, members, k, p) <==> ptr == Some(p);
      assert p in next <==> p in pointers || ptr == Some(p);
      if TaggedBelow(live, members, k, p) {
        var n :| 0 <= n < k && Tagged(live, members, n, p);
        assert 0 <= n < k + 1 && Tagged(live, members, n, p);
      }
    }
    forall i, j, n: nat | 0 <= i < j < |next| && n < k + 1 && Tagged(live, members, n, next[j])
      ensures TaggedBelow(live, members, n, next[i])
    {
      assert next[i] == pointers[i] && pointers[i] in pointers;
      if n == k && j < |pointers| {
        assert pointers[j] in pointers;
      } else if n < k {
        assert TaggedBelow(live, members, k, next[j]);
        assert next[j] in pointers;
      }
    }
  }

  /** The pointers a cluster's members carry, in order and once each. */
  method CollectPointers(live: seq<string>, members: seq<nat>) returns (pointers: seq<string>)
    requires AllBelow(members, |live|)
    ensures forall p :: p in pointers <==> exists k :: 0 <= k < |members| && QuestionPointer(live[members[k]]).0 == Some(p)
    ensures forall i, j :: 0 <= i < j < |pointers| ==> pointers[i] != pointers[j]
    ensures AreTheirs(live, members, |members|, pointers)
  {
    hide AreTheirs, QuestionPointer;
    pointers := [];
    NoneTagged(live, members);
    for k := 0 to |members|
      invariant forall p :: p in pointers <==> exists m :: 0 <= m < k && QuestionPointer(live[members[m]]).0 == Some(p)
      invariant forall i, j :: 0 <= i < j < |pointers| ==> pointers[i] != pointers[j]
      invariant AreTheirs(live, members, k, pointers)
    {
      OneMoreTagged(live, members, k, pointers);
      var ptr := QuestionPointer(live[members[k]]).0;
      if ptr.Some? && ptr.value !in pointers {
        pointers := pointers + [ptr.value];
      }
    }
  }

  lemma NoneTagged(live: seq<string>, members: seq<nat>)
    ensures AreTheirs(live, members, 0, [])
  {
  }

  function StaleBelow(stale: set<nat>, n: nat): set<nat> {
    set i: nat | i < n && i in stale
  }

  /** The questions that are not stale, in order. */
  function Live(questions: seq<string>, stale: set<nat>): (live: seq<string>)
    ensures |live| + |StaleBelow(stale, |questions|)| == |questions|
  {
    if questions == [] then
      assert StaleBelow(stale, 0) == {};
      []
    else
      var last := |questions| - 1;
      assert StaleBelow(stale, |questions|) ==
             if last in stale then StaleBelow(stale, last) + {last} else StaleBelow(stale, last);
      Live(questions[..last], stale) + (if last in stale then [] else [questions[last]])
  }

  lemma {:induction false} LiveKeeps(questions: seq<string>, stale: set<nat>, i: nat)
    requires i < |questions| && i !in stale
    ensures questions[i] in Live(questions, stale)
  {
    var last := |questions| - 1;
    if i < last {
      LiveKeeps(questions[..last], stale, i);
    }
  }

  /** A question stands before those that come after it: it has lost its stale predecessors and nothing else. */
  lemma {:induction false} LiveAt(questions: seq<string>, stale: set<nat>, i: nat)
    requires i < |questions| && i !in stale
    ensures var at := i - |StaleBelow(stale, i)|; 0 <= at < |Live(questions, stale)| && Live(questions, stale)[at] == questions[i]
  {
    hide StaleBelow;
    var last := |questions| - 1;
    if i < last {
      LiveAt(questions[..last], stale, i);
    } else {
      assert |Live(questions[..last], stale)| + |StaleBelow(stale, last)| == last;
    }
  }

  datatype Stats = Stats(before: nat, stale: nat, merged: nat, after: nat)

  /** Every question of the cluster under `h` is reachable from `entry`: its pointer occurs there, and the tag the
      next round reads is one of the cluster's. */
  ghost predicate Carries(live: seq<string>, members: seq<nat>, entry: string) {
    && (forall k :: 0 <= k < |members| && members[k] < |live| && QuestionPointer(live[members[k]]).0.Some? ==>
          Occurs(QuestionPointer(live[members[k]]).0.value, entry))
    && (forall k :: 0 <= k < |members| && members[k] < |live| && QuestionPointer(live[members[k]]).0.Some? ==>
          QuestionPointer(entry).0.Some?)
    && (QuestionPointer(entry).0.Some? ==>
          exists k :: 0 <= k < |members| && members[k] < |live| &&
                      QuestionPointer(live[members[k]]).0 == QuestionPointer(entry).0)
  }

  /** The head's own question, under the first pointer of its cluster, with the other pointers named at its end. */
  ghost predicate Worded(live: seq<string>, members: seq<nat>, head: nat, entry: string) {
    exists pointers :: AreTheirs(live, members, |members|, pointers) && ReadsAs(live, head, pointers, entry)
  }

  ghost predicate ReadsAs(live: seq<string>, head: nat, pointers: seq<string>, entry: string) {
    head < |live| &&
    if pointers == [] then entry == live[head]
    else
      var question := "[" + pointers[0] + "] " + QuestionPointer(live[head]).1;
      entry == if |pointers| == 1 then question else question + " Also raised at " + JoinComma(pointers[1..]) + "."
  }

  /** How a list of pointers is written out. */
  lemma {:induction false} JoinCommaOfTwo(a: seq<string>, b: seq<string>)
    requires a != [] && b != []
    ensures JoinComma(a + b) == JoinComma(a) + ", " + JoinComma(b) && JoinComma([a[0]]) == a[0]
  {
    if |a| == 1 {
      assert (a + b)[1..] == b;
    } else {
      assert (a + b)[1..] == a[1..] + b;
      JoinCommaOfTwo(a[1..], b);
    }
  }

  /** One cluster's surviving entry. */
  method Survivor(live: seq<string>, members: seq<nat>, head: nat) returns (entry: string)
    requires head in members && AllBelow(members, |live|)
    ensures Carries(live, members, entry) && Worded(live, members, head, entry)
  {
    hide AreTheirs, Carries, QuestionPointer;
    var pointers := CollectPointers(live, members);
    var body := QuestionPointer(live[head]).1;
    entry := Merged(pointers, body);
    ghost var at :| 0 <= at < |members| && members[at] == head;
    SurvivorCarries(live, members, head, pointers);
    SurvivorReads(live, members, head, pointers);
  }

  lemma TagIsTheirs(live: seq<string>, members: seq<nat>, k: nat, pointers: seq<string>)
    requires k < |members| && members[k] < |live| && AreTheirs(live, members, |members|, pointers)
    ensures QuestionPointer(live[members[k]]).0.Some? ==> QuestionPointer(live[members[k]]).0.value in pointers
  {
    hide QuestionPointer;
    if QuestionPointer(live[members[k]]).0.Some? {
      assert Tagged(live, members, k, QuestionPointer(live[members[k]]).0.value);
      assert TaggedBelow(live, members, |members|, QuestionPointer(live[members[k]]).0.value);
    }
  }

  lemma SurvivorReads(live: seq<string>, members: seq<nat>, head: nat, pointers: seq<string>)
    requires head in members && AllBelow(members, |live|) && AreTheirs(live, members, |members|, pointers)
    ensures ReadsAs(live, head, pointers, Merged(pointers, QuestionPointer(live[head]).1))
  {
    hide QuestionPointer, JoinComma;
    var at :| 0 <= at < |members| && members[at] == head;
    TagIsTheirs(live, members, at, pointers);
    UntaggedIsItself(live[head]);
  }

  lemma SurvivorCarries(live: seq<string>, members: seq<nat>, head: nat, pointers: seq<string>)
    requires head in members && AllBelow(members, |live|)
    requires forall p :: p in pointers <==> exists k :: 0 <= k < |members| && QuestionPointer(live[members[k]]).0 == Some(p)
    ensures Carries(live, members, Merged(pointers, QuestionPointer(live[head]).1))
  {
    hide QuestionPointer, Occurs;
    var body := QuestionPointer(live[head]).1;
    var entry := Merged(pointers, body);
    forall k | 0 <= k < |members| && QuestionPointer(live[members[k]]).0.Some?
      ensures Occurs(QuestionPointer(live[members[k]]).0.value, entry)
    {
      var p := QuestionPointer(live[members[k]]).0.value;
      assert p in pointers;
      var i :| 0 <= i < |pointers| && pointers[i] == p;
      MergedKeepsPointer(pointers, body, i);
    }
    if pointers == [] {
      var at :| 0 <= at < |members| && members[at] == head;
      assert QuestionPointer(live[head]).0 == None by {
        assert forall p :: QuestionPointer(live[members[at]]).0 == Some(p) ==> p in pointers;
      }
      UntaggedIsItself(live[head]);
    } else {
      assert pointers[0] in pointers;
      var k :| 0 <= k < |members| && QuestionPointer(live[members[k]]).0 == Some(pointers[0]);
      PointersAreWellFormed(live[members[k]]);
      var rest := if |pointers| == 1 then body else body + " Also raised at " + JoinComma(pointers[1..]) + ".";
      assert entry == "[" + pointers[0] + "] " + rest;
      TagReadsBack(pointers[0], rest);
    }
  }

  lemma UntaggedIsItself(entry: string)
    ensures QuestionPointer(entry).0 == None ==> QuestionPointer(entry).1 == entry
  {
  }

  ghost function Elements(members: seq<nat>): set<nat> {
    set m | m in members
  }

  lemma {:induction false} AscendingCount(members: seq<nat>)
    requires Ascending(members)
    ensures |Elements(members)| == |members|
  {
    if members != [] {
      var last := |members| - 1;
      AscendingCount(members[..last]);
      assert Elements(members) == Elements(members[..last]) + {members[last]};
    }
  }

  lemma {:induction false} BelowCount(s: set<nat>, n: nat)
    requires forall i: nat :: i in s <==> i < n
    ensures |s| == n
  {
    if n > 0 {
      BelowCount(s - {n - 1}, n - 1);
    }
  }

  /** The questions covered by the clusters whose head is below `h`. */
  ghost predicate Covered(clusters: map<nat, seq<nat>>, h: nat, done: set<nat>) {
    forall x :: x in done <==> exists g :: g in clusters && g < h && x in clusters[g]
  }

  ghost predicate Survives(live: seq<string>, kept: seq<string>, i: nat)
    requires i < |live|
  {
    QuestionPointer(live[i]).0.Some? ==>
      exists e :: e in kept && Occurs(QuestionPointer(live[i]).0.value, e) && QuestionPointer(e).0.Some?
  }

  lemma CarriedSurvive(live: seq<string>, members: seq<nat>, entry: string, kept: seq<string>)
    requires Carries(live, members, entry) && entry in kept
    ensures forall m :: m in members && m < |live| ==> Survives(live, kept, m)
  {
    forall m | m in members && m < |live|
      ensures Survives(live, kept, m)
    {
      var k :| 0 <= k < |members| && members[k] == m;
    }
  }

  lemma MembersBelow(live: seq<string>, clusters: map<nat, seq<nat>>, linked: Relation, size: nat -> nat, h: nat)
    requires AreComponents(|live|, linked, size, clusters) && h in clusters
    ensures h in clusters[h] && AllBelow(clusters[h], |live|) && Ascending(clusters[h])
  {
    hide Connected;
  }

  lemma CoverGrows(clusters: map<nat, seq<nat>>, h: nat, done: set<nat>)
    requires Covered(clusters, h, done)
    ensures Covered(clusters, h + 1, if h in clusters then done + Elements(clusters[h]) else done)
  {
  }

  lemma NothingCovered(clusters: map<nat, seq<nat>>)
    ensures Covered(clusters, 0, {}) && HeadsBelow(clusters, 0) == {}
    ensures forall live, kept :: AllSurvive(live, kept, {})
  {
  }

  lemma AllCovered(live: seq<string>, clusters: map<nat, seq<nat>>, linked: Relation, size: nat -> nat, done: set<nat>)
    requires AreComponents(|live|, linked, size, clusters) && Covered(clusters, |live|, done)
    ensures forall i: nat :: i in done <==> i < |live|
    ensures forall h :: h in clusters ==> h < |live|
  {
    hide Connected;
    forall h | h in clusters
      ensures h < |live|
    {
      MembersBelow(live, clusters, linked, size, h);
    }
    forall i: nat
      ensures i in done <==> i < |live|
    {
      if i < |live| {
        assert Placed(clusters, i);
      }
      if i in done {
        var g :| g in clusters && i in clusters[g];
        MembersBelow(live, clusters, linked, size, g);
      }
    }
  }

  /** The merge loop: one entry per cluster, in the order of their heads. */
  method MergeClusters(live: seq<string>, clusters: map<nat, seq<nat>>, linked: Relation, size: nat -> nat)
    returns (kept: seq<string>, merged: nat)
    requires AreComponents(|live|, linked, size, clusters)
    ensures merged + |kept| == |live|
    ensures |kept| == |clusters|
    ensures InPlace(live, clusters, kept, |live|) && forall h :: h in clusters ==> h < |live|
    ensures forall i :: 0 <= i < |live| ==> Survives(live, kept, i)
  {
    hide Carries, Worded, Survives, Connected, AreComponents, Covered, HeadsBelow, AllSurvive, Ascending, AllBelow, InPlace;
    kept, merged := [], 0;
    NonePlaced(live, clusters);
    ghost var done: set<nat> := {};
    NothingCovered(clusters);
    for h := 0 to |live|
      invariant Covered(clusters, h, done) && |done| == merged + |kept|
      invariant |HeadsBelow(clusters, h)| == |kept| && InPlace(live, clusters, kept, h)
      invariant AllSurvive(live, kept, done)
    {
      CoverGrows(clusters, h, done);
      HeadsGrow(clusters, h);
      PlacesGrow(live, clusters, kept, h);
      if h in clusters {
        var members := clusters[h];
        MembersBelow(live, clusters, linked, size, h);
        merged := merged + |members| - 1;
        var entry := Survivor(live, members, h);
        OneMoreSurvives(live, members, kept, entry, done);
        OneMoreInPlace(live, clusters, kept, h, entry);
        kept := kept + [entry];
        DoneGrows(live, clusters, linked, size, h, done);
        done := done + Elements(members);
      }
    }
    AllCovered(live, clusters, linked, size, done);
    AllHeads(live, clusters);
    BelowCount(done, |live|);
    EverySurvivor(live, kept, done);
  }

  ghost function HeadsBelow(clusters: map<nat, seq<nat>>, h: nat): set<nat> {
    set g | g in clusters && g < h
  }

  /** Every cluster's entry stands at its head's rank, carries its members' pointers, and asks its head's question. */
  ghost predicate InPlace(live: seq<string>, clusters: map<nat, seq<nat>>, kept: seq<string>, h: nat) {
    forall g :: g in clusters && g < h ==>
      && |HeadsBelow(clusters, g)| < |kept|
      && Carries(live, clusters[g], kept[|HeadsBelow(clusters, g)|])
      && Worded(live, clusters[g], g, kept[|HeadsBelow(clusters, g)|])
  }

  lemma NonePlaced(live: seq<string>, clusters: map<nat, seq<nat>>)
    ensures InPlace(live, clusters, [], 0)
  {
  }

  lemma PlacesGrow(live: seq<string>, clusters: map<nat, seq<nat>>, kept: seq<string>, h: nat)
    requires InPlace(live, clusters, kept, h)
    ensures h !in clusters ==> InPlace(live, clusters, kept, h + 1)
  {
    hide HeadsBelow, Carries, Worded;
  }

  lemma OneMoreInPlace(live: seq<string>, clusters: map<nat, seq<nat>>, kept: seq<string>, h: nat, entry: string)
    requires InPlace(live, clusters, kept, h) && h in clusters && |HeadsBelow(clusters, h)| == |kept|
    requires Carries(live, clusters[h], entry) && Worded(live, clusters[h], h, entry)
    ensures InPlace(live, clusters, kept + [entry], h + 1)
  {
    hide HeadsBelow, Carries, Worded;
  }

  lemma HeadsGrow(clusters: map<nat, seq<nat>>, h: nat)
    ensures |HeadsBelow(clusters, h + 1)| == |HeadsBelow(clusters, h)| + (if h in clusters then 1 else 0)
  {
    assert HeadsBelow(clusters, h + 1) == HeadsBelow(clusters, h) + (if h in clusters then {h} else {});
  }

  lemma AllHeads(live: seq<string>, clusters: map<nat, seq<nat>>)
    requires forall h :: h in clusters ==> h < |live|
    ensures |HeadsBelow(clusters, |live|)| == |clusters|
  {
    assert HeadsBelow(clusters, |live|) == clusters.Keys;
  }

  ghost predicate AllSurvive(live: seq<string>, kept: seq<string>, done: set<nat>) {
    forall i :: i in done ==> i < |live| && Survives(live, kept, i)
  }

  lemma OneMoreSurvives(live: seq<string>, members: seq<nat>, kept: seq<string>, entry: string, done: set<nat>)
    requires AllSurvive(live, kept, done) && Carries(live, members, entry) && AllBelow(members, |live|)
    ensures AllSurvive(live, kept + [entry], done + Elements(members))
  {
    hide Survives, Carries;
    CarriedSurvive(live, members, entry, kept + [entry]);
    forall i | i in done ensures Survives(live, kept + [entry], i) { KeptGrows(live, kept, entry, i); }
  }

  lemma DoneGrows(live: seq<string>, clusters: map<nat, seq<nat>>, linked: Relation, size: nat -> nat,
                  h: nat, done: set<nat>)
    requires AreComponents(|live|, linked, size, clusters) && h in clusters && Covered(clusters, h, done)
    ensures |done + Elements(clusters[h])| == |done| + |clusters[h]|
  {
    hide Connected, Covered;
    MembersBelow(live, clusters, linked, size, h);
    AscendingCount(clusters[h]);
    HeadsAreApart(live, clusters, linked, size, h, done);
  }

  lemma EverySurvivor(live: seq<string>, kept: seq<string>, done: set<nat>)
    requires AllSurvive(live, kept, done) && forall i: nat :: i in done <==> i < |live|
    ensures forall i :: 0 <= i < |live| ==> Survives(live, kept, i)
  {
    hide Survives;
  }

  lemma KeptGrows(live: seq<string>, kept: seq<string>, entry: string, i: nat)
    requires i < |live| && Survives(live, kept, i)
    ensures Survives(live, kept + [entry], i)
  {
    if QuestionPointer(live[i]).0.Some? {
      var e :| e in kept && Occurs(QuestionPointer(live[i]).0.value, e) && QuestionPointer(e).0.Some?;
      assert e in kept + [entry];
    }
  }

  /** Clusters that share a question are one cluster. */
  lemma SharedMeansSame(n: nat, clusters: map<nat, seq<nat>>, linked: Relation, size: nat -> nat, g: nat, h: nat, x: nat)
    requires AreComponents(n, linked, size, clusters) && g in clusters && h in clusters
    requires x in clusters[g] && x in clusters[h]
    ensures g == h
  {
    hide Connected;
    assert h in clusters[h] && g in clusters[g];
    assert h in clusters[g] && g in clusters[h];
  }

  lemma HeadsAreApart(live: seq<string>, clusters: map<nat, seq<nat>>, linked: Relation, size: nat -> nat,
                      h: nat, done: set<nat>)
    requires AreComponents(|live|, linked, size, clusters) && h in clusters && Covered(clusters, h, done)
    ensures done !! Elements(clusters[h])
  {
    hide AreComponents;
    forall x | x in done
      ensures x !in clusters[h]
    {
      var g :| g in clusters && g < h && x in clusters[g];
      if x in clusters[h] {
        SharedMeansSame(|live|, clusters, linked, size, g, h, x);
      }
    }
  }

  function SizeOf(live: seq<string>, gistLength: string -> nat): nat -> nat {
    (i: nat) => if i < |live| then gistLength(live[i]) else 0
  }

  lemma NoQuestions(linked: Relation, size: nat -> nat)
    ensures AreComponents(0, linked, size, map[])
  {
  }

  /** `prune_open_questions`: every question is accounted for once, there is one survivor per connected component of
      live questions, in the order of their heads, and every pointer of a live question is in its own component's. */
  method PruneOpenQuestions(questions: seq<string>, stale: set<nat>, linkedOf: seq<string> -> Relation,
                            gistLength: string -> nat)
    returns (kept: seq<string>, stats: Stats, ghost clusters: map<nat, seq<nat>>)
    requires forall i :: i in stale ==> i < |questions|
    ensures var live := Live(questions, stale);
            AreComponents(|live|, linkedOf(live), SizeOf(live, gistLength), clusters) && |kept| == |clusters|
    ensures var live := Live(questions, stale);
            (forall h :: h in clusters ==> h < |live|) && InPlace(live, clusters, kept, |live|)
    ensures var live := Live(questions, stale);
            forall i :: 0 <= i < |questions| && i !in stale ==>
              0 <= i - |StaleBelow(stale, i)| < |live| && live[i - |StaleBelow(stale, i)|] == questions[i]
    ensures stats.before == |questions| && stats.stale == |stale| && stats.after == |kept|
    ensures stats.before == stats.stale + stats.merged + stats.after
    ensures forall i :: 0 <= i < |questions| && i !in stale && QuestionPointer(questions[i]).0.Some? ==>
              exists e :: e in kept && Occurs(QuestionPointer(questions[i]).0.value, e) && QuestionPointer(e).0.Some?
  {
    hide Connected, Occurs, QuestionPointer, AreComponents, InPlace;
    forall i: nat | i < |questions| && i !in stale
      ensures 0 <= i - |StaleBelow(stale, i)| < |Live(questions, stale)|
      ensures Live(questions, stale)[i - |StaleBelow(stale, i)|] == questions[i]
    {
      LiveAt(questions, stale, i);
    }
    if questions == [] {
      assert stale == {};
      NoQuestions(linkedOf([]), SizeOf([], gistLength));
      NonePlaced([], map[]);
      return [], Stats(0, 0, 0, 0), map[];
    }
    var live := Live(questions, stale);
    assert StaleBelow(stale, |questions|) == stale;
    var size := SizeOf(live, gistLength);
    var groups := Clusters(|live|, linkedOf(live), size);
    clusters := groups;
    var merged: nat;
    kept, merged := MergeClusters(live, groups, linkedOf(live), size);
    stats := Stats(|questions|, |stale|, merged, |kept|);
    forall i: nat | i < |questions| && i !in stale && QuestionPointer(questions[i]).0.Some?
      ensures exists e :: e in kept && Occurs(QuestionPointer(questions[i]).0.value, e) && QuestionPointer(e).0.Some?
    {
      LiveKeeps(questions, stale, i);
      var k :| 0 <= k < |live| && live[k] == questions[i];
      assert Survives(live, kept, k);
    }
  }
}
