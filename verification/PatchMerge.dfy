/** Merging the reviewers' patches into one list (loop/spec_review.py, `apply_patches`): patches at one place are one
    decision, appends are not, and what is refused is said to be. */
module PatchMerge {
  import opened Wrappers
  import opened Json
  import opened Strings
  import opened Patches
  import opened ReviewGates

  /** An admitted record: its patch, and what its duplicates are ordered by. */
  datatype Candidate = Candidate(patch: Patch, unit: string, claim: string)

  predicate IsAppend(c: Candidate) {
    EndsWith(c.patch.pointer, "/-")
  }

  /** The preferred value of a group that says one thing in several wordings (`_agreeing_value`), if there is one. */
  type Agree = seq<Json> -> Option<Json>

  ghost predicate PrefersOneOfThem(agree: Agree) {
    forall values :: agree(values).Some? ==> agree(values).value in values
  }

  /* ------------------------------------------------------------ grouping */

  /** The candidates at one place, in order. */
  function GroupOf(cs: seq<Candidate>, pointer: string): (group: seq<Candidate>)
    ensures forall c :: c in group <==> c in cs && !IsAppend(c) && c.patch.pointer == pointer
  {
    if cs == [] then []
    else
      var last := |cs| - 1;
      assert cs == cs[..last] + [cs[last]];
      GroupOf(cs[..last], pointer)
      + (if !IsAppend(cs[last]) && cs[last].patch.pointer == pointer then [cs[last]] else [])
  }

  function AppendsOf(cs: seq<Candidate>): (appends: seq<Candidate>)
    ensures forall c :: c in appends <==> c in cs && IsAppend(c)
  {
    if cs == [] then []
    else
      var last := |cs| - 1;
      assert cs == cs[..last] + [cs[last]];
      AppendsOf(cs[..last]) + (if IsAppend(cs[last]) then [cs[last]] else [])
  }

  ghost predicate Grouped(cs: seq<Candidate>, grouped: map<string, seq<Candidate>>) {
    && (forall p :: p in grouped <==> exists c :: c in cs && !IsAppend(c) && c.patch.pointer == p)
    && (forall p :: p in grouped ==> grouped[p] == GroupOf(cs, p) != [])
  }

  lemma GroupStep(cs: seq<Candidate>, c: Candidate, p: string)
    ensures GroupOf(cs + [c], p) == GroupOf(cs, p) + (if !IsAppend(c) && c.patch.pointer == p then [c] else [])
    ensures AppendsOf(cs + [c]) == AppendsOf(cs) + (if IsAppend(c) then [c] else [])
  {
    hide IsAppend;
    assert (cs + [c])[..|cs|] == cs;
  }

  lemma OneMoreCandidate(cs: seq<Candidate>, c: Candidate, grouped: map<string, seq<Candidate>>)
    requires Grouped(cs, grouped)
    ensures var p := c.patch.pointer;
            Grouped(cs + [c], if IsAppend(c) then grouped else grouped[p := (if p in grouped then grouped[p] else []) + [c]])
  {
    hide IsAppend, GroupOf;
    var all, at := cs + [c], c.patch.pointer;
    assert forall x :: x in all <==> x in cs || x == c;
    forall p: string
      ensures GroupOf(all, p) == GroupOf(cs, p) + (if !IsAppend(c) && at == p then [c] else [])
    {
      GroupStep(cs, c, p);
    }
    if !IsAppend(c) {
      assert c in all;
      if at !in grouped {
        NoneThere(cs, at);
      }
    }
  }

  lemma NoneThere(cs: seq<Candidate>, pointer: string)
    requires forall c :: c in cs && !IsAppend(c) ==> c.patch.pointer != pointer
    ensures GroupOf(cs, pointer) == []
  {
    if GroupOf(cs, pointer) != [] {
      assert GroupOf(cs, pointer)[0] in GroupOf(cs, pointer);
    }
  }

  /* ------------------------------------------------------------ one place */

  function ValuesOf(group: seq<Candidate>): (values: seq<Json>)
    ensures |values| == |group| && forall i :: 0 <= i < |group| ==> values[i] == group[i].patch.value
  {
    if group == [] then [] else [group[0].patch.value] + ValuesOf(group[1..])
  }

  ghost predicate Unanimous(group: seq<Candidate>) {
    forall a, b :: a in group && b in group ==> a.patch.value == b.patch.value
  }

  lemma OneValueIffUnanimous(group: seq<Candidate>)
    ensures |set c | c in group :: c.patch.value| > 1 <==> !Unanimous(group)
  {
    var values := set c | c in group :: c.patch.value;
    if Unanimous(group) {
      if group != [] {
        assert group[0] in group;
        assert values == {group[0].patch.value};
      } else {
        assert values == {};
      }
    } else {
      var a, b :| a in group && b in group && a.patch.value != b.patch.value;
      assert {a.patch.value, b.patch.value} <= values;
      SubsetSize({a.patch.value, b.patch.value}, values);
    }
  }

  lemma {:induction false} SubsetSize(a: set<Json>, b: set<Json>)
    requires a <= b
    ensures |a| <= |b|
  {
    if a != {} {
      var x :| x in a;
      SubsetSize(a - {x}, b - {x});
    }
  }

  /** The first candidate that says `v`. */
  function FirstSaying(group: seq<Candidate>, v: Json): (first: Option<Candidate>)
    ensures first == None <==> forall c :: c in group ==> c.patch.value != v
    ensures first.Some? ==> first.value in group && first.value.patch.value == v
  {
    if group == [] then None
    else if group[0].patch.value == v then Some(group[0])
    else FirstSaying(group[1..], v)
  }

  /** The candidate that goes in at a place, if one does. */
  ghost function Winner(group: seq<Candidate>, agree: Agree): (winner: Option<Candidate>)
    requires group != []
    ensures winner.Some? ==> winner.value in group
  {
    if Unanimous(group) then Some(group[0])
    else match agree(ValuesOf(group))
         case None => None
         case Some(v) => FirstSaying(group, v)
  }

  method FindSaying(group: seq<Candidate>, v: Json) returns (first: Option<Candidate>)
    ensures first == FirstSaying(group, v)
  {
    for i := 0 to |group|
      invariant FirstSaying(group, v) == FirstSaying(group[i..], v)
    {
      if group[i].patch.value == v {
        return Some(group[i]);
      }
      assert group[i..][1..] == group[i + 1..];
    }
    first := None;
  }

  /** `reject` on every candidate of a group but the winner. */
  method RefuseOthers(group: seq<Candidate>, winner: Option<Candidate>) returns (refused: seq<Candidate>)
    ensures forall c :: c in refused <==> c in group && Some(c) != winner
  {
    refused := [];
    for i := 0 to |group|
      invariant forall c :: c in refused <==> c in group[..i] && Some(c) != winner
    {
      assert group[..i + 1] == group[..i] + [group[i]];
      if winner != Some(group[i]) {
        refused := refused + [group[i]];
      }
    }
    assert group[..|group|] == group;
  }

  /* ------------------------------------------------------------ the order of the places */

  ghost predicate Increasing(pointers: seq<string>) {
    forall i, j :: 0 <= i < j < |pointers| ==> Less(pointers[i], pointers[j])
  }

  function Insert(sorted: seq<string>, p: string): (out: seq<string>)
    ensures forall x :: x in out <==> x in sorted || x == p
  {
    if sorted == [] then [p]
    else if Less(p, sorted[0]) then [p] + sorted
    else [sorted[0]] + Insert(sorted[1..], p)
  }

  lemma {:induction false} InsertKeepsIncreasing(sorted: seq<string>, p: string)
    requires Increasing(sorted) && p !in sorted
    ensures Increasing(Insert(sorted, p))
  {
    hide Less;
    if sorted != [] {
      LessTotal(p, sorted[0]);
      if Less(p, sorted[0]) {
        forall j | 0 <= j < |sorted|
          ensures Less(p, sorted[j])
        {
          if j > 0 {
            LessTransitive(p, sorted[0], sorted[j]);
          }
        }
      } else {
        InsertKeepsIncreasing(sorted[1..], p);
        var rest := Insert(sorted[1..], p);
        forall j | 0 <= j < |rest|
          ensures Less(sorted[0], rest[j])
        {
          assert rest[j] in rest;
          if rest[j] != p {
            var k :| 0 <= k < |sorted[1..]| && sorted[1..][k] == rest[j];
            assert Less(sorted[0], sorted[k + 1]);
          }
        }
      }
    }
  }

  /** `sorted(grouped)`. */
  method SortPointers(pointers: set<string>) returns (sorted: seq<string>)
    ensures Increasing(sorted) && forall p :: p in sorted <==> p in pointers
  {
    sorted := [];
    var rest := pointers;
    while rest != {}
      invariant rest <= pointers && Increasing(sorted) && forall p :: p in sorted <==> p in pointers - rest
      decreases |rest|
    {
      var p :| p in rest;
      InsertKeepsIncreasing(sorted, p);
      sorted := Insert(sorted, p);
      rest := rest - {p};
    }
  }

  /* ------------------------------------------------------------ the order of the appends */

  /** The sort key of appends: pointer, unit, claim. */
  predicate KeyBefore(a: Candidate, b: Candidate) {
    Less(a.patch.pointer, b.patch.pointer)
    || (a.patch.pointer == b.patch.pointer && (Less(a.unit, b.unit) || (a.unit == b.unit && Less(a.claim, b.claim))))
  }

  lemma KeyBeforeIsOrder(a: Candidate, b: Candidate, c: Candidate)
    ensures KeyBefore(a, b) ==> !KeyBefore(b, a)
    ensures !KeyBefore(b, a) && !KeyBefore(c, b) ==> !KeyBefore(c, a)
  {
    hide Less;
    TextOrder(a.patch.pointer, b.patch.pointer, c.patch.pointer);
    TextOrder(a.unit, b.unit, c.unit);
    TextOrder(a.claim, b.claim, c.claim);
  }

  lemma TextOrder(a: string, b: string, c: string)
    ensures Less(a, b) ==> !Less(b, a) && a != b
    ensures !Less(b, a) && !Less(c, b) ==> !Less(c, a)
    ensures !Less(b, a) && !Less(c, b) && a == c ==> a == b
    ensures !Less(a, b) && !Less(b, a) ==> a == b
  {
    hide Less;
    LessIrreflexive(a);
    LessTotal(a, b);
    LessTotal(b, c);
    LessTotal(a, c);
    if Less(a, b) && Less(b, a) {
      LessTransitive(a, b, a);
    }
    if !Less(b, a) && !Less(c, b) && Less(c, a) {
      if Less(a, b) {
        LessTransitive(c, a, b);
      }
      if Less(b, c) {
        LessTransitive(b, c, a);
      }
    }
    if Less(a, b) && Less(b, a) {
      LessTransitive(a, b, a);
    }
    if a == c && Less(a, b) && Less(b, c) {
      LessTransitive(a, b, a);
    }
  }

  ghost predicate InOrder(appends: seq<Candidate>) {
    forall i, j :: 0 <= i < j < |appends| ==> !KeyBefore(appends[j], appends[i])
  }

  /** Where a stable sort puts the next candidate. */
  function PlaceByKey(sorted: seq<Candidate>, c: Candidate): (out: seq<Candidate>)
    ensures forall x :: x in out <==> x in sorted || x == c
  {
    if sorted == [] then [c]
    else
      var last := |sorted| - 1;
      assert sorted == sorted[..last] + [sorted[last]];
      if KeyBefore(c, sorted[last]) then PlaceByKey(sorted[..last], c) + [sorted[last]] else sorted + [c]
  }

  /** `sorted(appends, key=...)`. */
  function SortAppends(appends: seq<Candidate>): (out: seq<Candidate>)
    ensures forall x :: x in out <==> x in appends
  {
    if appends == [] then []
    else
      var last := |appends| - 1;
      assert appends == appends[..last] + [appends[last]];
      PlaceByKey(SortAppends(appends[..last]), appends[last])
  }

  lemma {:induction false} PlaceKeepsInOrder(sorted: seq<Candidate>, c: Candidate)
    requires InOrder(sorted)
    ensures InOrder(PlaceByKey(sorted, c))
  {
    hide KeyBefore;
    if sorted != [] {
      var last := |sorted| - 1;
      if KeyBefore(c, sorted[last]) {
        PlaceKeepsInOrder(sorted[..last], c);
        var front := PlaceByKey(sorted[..last], c);
        forall i | 0 <= i < |front|
          ensures !KeyBefore(sorted[last], front[i])
        {
          assert front[i] in front;
          KeyBeforeIsOrder(c, sorted[last], c);
        }
      } else {
        forall i | 0 <= i < |sorted|
          ensures !KeyBefore(c, sorted[i])
        {
          KeyBeforeIsOrder(sorted[i], sorted[last], c);
        }
      }
    }
  }

  lemma {:induction false} SortAppendsInOrder(appends: seq<Candidate>)
    ensures InOrder(SortAppends(appends))
  {
    if appends != [] {
      SortAppendsInOrder(appends[..|appends| - 1]);
      PlaceKeepsInOrder(SortAppends(appends[..|appends| - 1]), appends[|appends| - 1]);
    }
  }

  predicate SaysTheSame(a: Candidate, b: Candidate) {
    a.patch.pointer == b.patch.pointer && a.patch.value == b.patch.value
  }

  /** The appends that say what none before them said. */
  function FirstSayings(appends: seq<Candidate>): (out: seq<Candidate>)
    ensures forall c :: c in out ==> c in appends
  {
    if appends == [] then []
    else
      var last := |appends| - 1;
      assert appends == appends[..last] + [appends[last]];
      FirstSayings(appends[..last])
      + (if exists c :: c in appends[..last] && SaysTheSame(c, appends[last]) then [] else [appends[last]])
  }

  /** Of each saying exactly one append is among them. */
  lemma {:induction false} EachSayingIsKept(appends: seq<Candidate>, c: Candidate) returns (kept: Candidate)
    requires c in appends
    ensures kept in FirstSayings(appends) && SaysTheSame(kept, c)
  {
    var last := |appends| - 1;
    var front := appends[..last];
    assert appends == front + [appends[last]];
    if c in front {
      kept := EachSayingIsKept(front, c);
    } else if exists d :: d in front && SaysTheSame(d, c) {
      var d :| d in front && SaysTheSame(d, c);
      kept := EachSayingIsKept(front, d);
    } else {
      kept := c;
    }
  }

  lemma {:induction false} EachSayingIsKeptOnce(appends: seq<Candidate>)
    ensures var out := FirstSayings(appends); forall i, j :: 0 <= i < j < |out| ==> !SaysTheSame(out[i], out[j])
  {
    hide SaysTheSame;
    if appends != [] {
      var last := |appends| - 1;
      EachSayingIsKeptOnce(appends[..last]);
      assert forall k :: 0 <= k < |FirstSayings(appends[..last])| ==> FirstSayings(appends[..last])[k] in appends[..last];
    }
  }

  /** The append kept of a saying comes first by unit and claim. */
  lemma {:induction false} KeptComesFirst(appends: seq<Candidate>, kept: Candidate, c: Candidate)
    requires InOrder(appends) && kept in FirstSayings(appends) && c in appends && SaysTheSame(kept, c)
    ensures !KeyBefore(c, kept)
  {
    hide KeyBefore;
    var last := |appends| - 1;
    var front := appends[..last];
    assert appends == front + [appends[last]];
    if kept in FirstSayings(front) {
      if c in front {
        KeptComesFirst(front, kept, c);
      } else {
        var i :| 0 <= i < |front| && front[i] == kept;
        assert appends[i] == kept;
      }
    } else {
      assert kept == appends[last];
      KeyBeforeIsOrder(kept, kept, kept);
    }
  }

  /* ------------------------------------------------------------ the merge */

  /** What becomes of a candidate: it goes in, it is refused, or another at its place says the same. */
  datatype Fate = Lands | Refused | Twin

  ghost function FateOf(cs: seq<Candidate>, agree: Agree, c: Candidate): Fate
    requires c in cs
  {
    if IsAppend(c) then (if c in FirstSayings(SortAppends(AppendsOf(cs))) then Lands else Refused)
    else
      var group := GroupOf(cs, c.patch.pointer);
      assert c in group;
      if Winner(group, agree) == Some(c) then Lands
      else if Unanimous(group) then Twin
      else Refused
  }

  ghost predicate Contested(cs: seq<Candidate>, agree: Agree, pointer: string) {
    var group := GroupOf(cs, pointer);
    group != [] && !Unanimous(group) && agree(ValuesOf(group)) == None
  }

  /** The candidates with this fate at these places. */
  ghost predicate AreThose(cs: seq<Candidate>, agree: Agree, places: seq<string>, fate: Fate, out: seq<Candidate>) {
    forall c :: c in out <==> c in cs && !IsAppend(c) && c.patch.pointer in places && FateOf(cs, agree, c) == fate
  }

  ghost predicate ByPointer(applied: seq<Candidate>) {
    forall i, j :: 0 <= i < j < |applied| ==> Less(applied[i].patch.pointer, applied[j].patch.pointer)
  }

  /** The places decided so far. */
  ghost predicate Decided(cs: seq<Candidate>, agree: Agree, places: seq<string>, applied: seq<Candidate>, refused: seq<Candidate>,
                          conflicts: seq<string>) {
    && AreThose(cs, agree, places, Lands, applied) && ByPointer(applied)
    && AreThose(cs, agree, places, Refused, refused)
    && (forall p :: p in conflicts <==> p in places && Contested(cs, agree, p)) && Increasing(conflicts)
  }

  /** One place of the loop over the groups. */
  method DecidePlace(group: seq<Candidate>, agree: Agree)
    returns (winner: Option<Candidate>, refused: seq<Candidate>, contested: bool)
    requires group != [] && PrefersOneOfThem(agree)
    ensures winner == Winner(group, agree)
    ensures forall c :: c in refused <==> c in group && !Unanimous(group) && Some(c) != winner
    ensures contested <==> !Unanimous(group) && agree(ValuesOf(group)) == None
  {
    var values := set c | c in group :: c.patch.value;
    OneValueIffUnanimous(group);
    if |values| > 1 {
      var agreed := agree(ValuesOf(group));
      if agreed.Some? {
        winner := FindSaying(group, agreed.value);
        refused := RefuseOthers(group, winner);
        AgreedIsSaid(group, agreed.value);
        return winner, refused, false;
      }
      refused := RefuseOthers(group, None);
      return None, refused, true;
    }
    return Some(group[0]), [], false;
  }

  lemma AgreedIsSaid(group: seq<Candidate>, v: Json)
    requires v in ValuesOf(group)
    ensures FirstSaying(group, v).Some?
  {
    var i :| 0 <= i < |group| && ValuesOf(group)[i] == v;
    assert group[i] in group;
  }

  lemma FateAtPlace(cs: seq<Candidate>, agree: Agree, c: Candidate)
    requires c in cs && !IsAppend(c)
    ensures var group := GroupOf(cs, c.patch.pointer);
            && c in group
            && (FateOf(cs, agree, c) == Lands <==> Winner(group, agree) == Some(c))
            && (FateOf(cs, agree, c) == Refused <==> Winner(group, agree) != Some(c) && !Unanimous(group))
  {
    hide IsAppend, Winner, Unanimous;
  }

  lemma OneMoreThose(cs: seq<Candidate>, agree: Agree, places: seq<string>, p: string, fate: Fate, out: seq<Candidate>, more: seq<Candidate>)
    requires AreThose(cs, agree, places, fate, out)
    requires forall c :: c in more <==> c in cs && !IsAppend(c) && c.patch.pointer == p && FateOf(cs, agree, c) == fate
    ensures AreThose(cs, agree, places + [p], fate, out + more)
  {
    hide IsAppend, FateOf;
    assert forall x :: x in places + [p] <==> x in places || x == p;
  }

  lemma OneMorePlace(cs: seq<Candidate>, agree: Agree, places: seq<string>, p: string, applied: seq<Candidate>,
                     refused: seq<Candidate>, conflicts: seq<string>, winner: Option<Candidate>, others: seq<Candidate>, contested: bool)
    requires Decided(cs, agree, places, applied, refused, conflicts) && Increasing(places + [p])
    requires var group := GroupOf(cs, p);
             && group != [] && winner == Winner(group, agree)
             && (forall c :: c in others <==> c in group && !Unanimous(group) && Some(c) != winner)
             && (contested <==> Contested(cs, agree, p))
    ensures Decided(cs, agree, places + [p], applied + (if winner.Some? then [winner.value] else []), refused + others,
                    conflicts + (if contested then [p] else []))
  {
    hide Less, Winner, Unanimous, Contested, IsAppend, FateOf;
    forall c | c in cs && !IsAppend(c)
      ensures c.patch.pointer == p ==> (FateOf(cs, agree, c) == Lands <==> winner == Some(c)) &&
                                       (FateOf(cs, agree, c) == Refused <==> c in others)
    {
      FateAtPlace(cs, agree, c);
    }
    OneMoreThose(cs, agree, places, p, Lands, applied, if winner.Some? then [winner.value] else []);
    OneMoreThose(cs, agree, places, p, Refused, refused, others);
    PlacesBelow(places, p);
    assert forall x :: x in places + [p] <==> x in places || x == p;
    forall i | 0 <= i < |applied|
      ensures Less(applied[i].patch.pointer, p)
    {
      assert applied[i] in applied;
    }
    forall i | 0 <= i < |conflicts|
      ensures Less(conflicts[i], p)
    {
      assert conflicts[i] in conflicts;
    }
  }

  lemma PlacesBelow(places: seq<string>, p: string)
    requires Increasing(places + [p])
    ensures forall q :: q in places ==> Less(q, p)
  {
    hide Less;
    var all := places + [p];
    forall q | q in places
      ensures Less(q, p)
    {
      var i :| 0 <= i < |places| && places[i] == q;
      assert all[i] == q && all[|places|] == p;
    }
  }

  /** What the loop over the appends has kept, refused and seen. */
  ghost predicate Sifted(appends: seq<Candidate>, kept: seq<Candidate>, refused: seq<Candidate>, seen: set<(string, Json)>) {
    && kept == FirstSayings(appends)
    && (forall k :: k in seen <==> exists c :: c in appends && (c.patch.pointer, c.patch.value) == k)
    && (forall c :: c in refused ==> c in appends && c !in kept)
    && (forall c :: c in appends ==> c in kept || c in refused)
  }

  lemma OneMoreSifted(appends: seq<Candidate>, r: Candidate, kept: seq<Candidate>, refused: seq<Candidate>, seen: set<(string, Json)>)
    requires Sifted(appends, kept, refused, seen) && r !in appends
    ensures var key := (r.patch.pointer, r.patch.value);
            if key in seen then Sifted(appends + [r], kept, refused + [r], seen)
            else Sifted(appends + [r], kept + [r], refused, seen + {key})
  {
    hide FirstSayings;
    var all, key := appends + [r], (r.patch.pointer, r.patch.value);
    SayingStep(appends, r);
    assert forall c :: c in all <==> c in appends || c == r;
    assert key in seen <==> exists c :: c in appends && SaysTheSame(c, r) by { SeenIffSaid(appends, r, kept, refused, seen); }
  }

  lemma SayingStep(appends: seq<Candidate>, r: Candidate)
    ensures FirstSayings(appends + [r]) ==
            FirstSayings(appends) + (if exists c :: c in appends && SaysTheSame(c, r) then [] else [r])
    ensures forall c :: c in FirstSayings(appends) ==> c in appends
  {
    hide SaysTheSame;
    assert (appends + [r])[..|appends|] == appends;
  }

  lemma SeenIffSaid(appends: seq<Candidate>, r: Candidate, kept: seq<Candidate>, refused: seq<Candidate>, seen: set<(string, Json)>)
    requires Sifted(appends, kept, refused, seen)
    ensures (r.patch.pointer, r.patch.value) in seen <==> exists c :: c in appends && SaysTheSame(c, r)
  {
    hide FirstSayings;
    if c :| c in appends && SaysTheSame(c, r) {
      assert (c.patch.pointer, c.patch.value) == (r.patch.pointer, r.patch.value);
    }
    if (r.patch.pointer, r.patch.value) in seen {
      var c :| c in appends && (c.patch.pointer, c.patch.value) == (r.patch.pointer, r.patch.value);
      assert SaysTheSame(c, r);
    }
  }

  /** The loop over the appends. */
  method KeepFirstSayings(appends: seq<Candidate>) returns (kept: seq<Candidate>, refused: seq<Candidate>)
    requires NoRepeats(appends)
    ensures kept == FirstSayings(appends)
    ensures forall c :: c in refused <==> c in appends && c !in kept
  {
    hide Sifted, FirstSayings;
    kept, refused := [], [];
    var seen: set<(string, Json)> := {};
    NothingSifted();
    assert appends[..0] == [];
    for i := 0 to |appends|
      invariant Sifted(appends[..i], kept, refused, seen)
    {
      var r := appends[i];
      assert appends[..i + 1] == appends[..i] + [r];
      OneMoreSifted(appends[..i], r, kept, refused, seen);
      var key := (r.patch.pointer, r.patch.value);
      if key in seen {
        refused := refused + [r];
      } else {
        seen := seen + {key};
        kept := kept + [r];
      }
    }
    assert appends[..|appends|] == appends;
    SiftedAll(appends, kept, refused, seen);
  }

  lemma NothingSifted()
    ensures Sifted([], [], [], {})
  {
  }

  lemma SiftedAll(appends: seq<Candidate>, kept: seq<Candidate>, refused: seq<Candidate>, seen: set<(string, Json)>)
    requires Sifted(appends, kept, refused, seen)
    ensures kept == FirstSayings(appends) && forall c :: c in refused <==> c in appends && c !in kept
  {
    hide FirstSayings;
  }

  ghost predicate DistinctCandidates(cs: seq<Candidate>) {
    forall i, j :: 0 <= i < j < |cs| ==> cs[i].patch.id != cs[j].patch.id
  }

  ghost predicate NoRepeats(cs: seq<Candidate>) {
    forall i, j :: 0 <= i < j < |cs| ==> cs[i] != cs[j]
  }

  /** Sorting repeats nothing. */
  lemma {:induction false} SortedAppendsDistinct(appends: seq<Candidate>)
    requires NoRepeats(appends)
    ensures NoRepeats(SortAppends(appends))
  {
    if appends != [] {
      var last := |appends| - 1;
      SortedAppendsDistinct(appends[..last]);
      PlacedDistinct(SortAppends(appends[..last]), appends[last]);
    }
  }

  lemma {:induction false} PlacedDistinct(sorted: seq<Candidate>, c: Candidate)
    requires NoRepeats(sorted) && c !in sorted
    ensures NoRepeats(PlaceByKey(sorted, c))
  {
    hide KeyBefore;
    if sorted != [] {
      var last := |sorted| - 1;
      if KeyBefore(c, sorted[last]) {
        PlacedDistinct(sorted[..last], c);
        assert sorted[last] !in sorted[..last];
        assert sorted[last] !in PlaceByKey(sorted[..last], c);
      }
    }
  }

  lemma {:induction false} AppendsDistinct(cs: seq<Candidate>)
    requires DistinctCandidates(cs)
    ensures NoRepeats(AppendsOf(cs))
  {
    hide IsAppend;
    if cs != [] {
      var last := |cs| - 1;
      AppendsDistinct(cs[..last]);
      assert cs[last] !in cs[..last];
      assert forall c :: c in AppendsOf(cs[..last]) ==> c in cs[..last];
    }
  }

  /** The merge in `apply_patches`: every candidate meets its fate, the ones that go in are the places in pointer order
      and then the appends by unit and claim, and the contested places are reported in order. */
  method Merge(cs: seq<Candidate>, agree: Agree) returns (applied: seq<Candidate>, refused: seq<Candidate>, conflicts: seq<string>)
    requires DistinctCandidates(cs) && PrefersOneOfThem(agree)
    ensures forall c :: c in applied <==> c in cs && FateOf(cs, agree, c) == Lands
    ensures forall c :: c in refused <==> c in cs && FateOf(cs, agree, c) == Refused
    ensures exists n: nat :: n <= |applied| && ByPointer(applied[..n]) && applied[n..] == FirstSayings(SortAppends(AppendsOf(cs)))
    ensures Increasing(conflicts) && forall p :: p in conflicts <==> Contested(cs, agree, p)
    ensures forall i :: 0 <= i < |cs| ==> (cs[i] in applied <==> GoesIn(cs, agree, i))
    ensures forall i :: 0 <= i < |cs| ==>
              (cs[i] in refused <==> !GoesIn(cs, agree, i) && (ToTheEnd(cs[i].patch.pointer) || Disputed(cs, cs[i].patch.pointer)))
    ensures forall p :: p in conflicts <==> Unsettled(cs, agree, p)
    ensures forall i, j :: 0 <= i < j < |applied| ==> InTurn(cs, applied[i], applied[j])
  {
    hide IsAppend, FateOf, Winner, Unanimous, GroupOf, AppendsOf, FirstSayings, SortAppends, Grouped, Decided, GoesIn, Disputed,
      ToTheEnd, Unsettled, InTurn;
    var grouped: map<string, seq<Candidate>>, appends: seq<Candidate> := map[], [];
    NothingGrouped();
    assert cs[..0] == [];
    for i := 0 to |cs|
      invariant Grouped(cs[..i], grouped) && appends == AppendsOf(cs[..i])
    {
      var c := cs[i];
      assert cs[..i + 1] == cs[..i] + [c];
      OneMoreCandidate(cs[..i], c, grouped);
      GroupStep(cs[..i], c, c.patch.pointer);
      if IsAppend(c) {
        appends := appends + [c];
      } else {
        grouped := grouped[c.patch.pointer := (if c.patch.pointer in grouped then grouped[c.patch.pointer] else []) + [c]];
      }
    }
    assert cs[..|cs|] == cs;
    GroupsFound(cs, grouped);
    var places := SortPointers(grouped.Keys);
    applied, refused, conflicts := [], [], [];
    NothingDecided(cs, agree);
    assert places[..0] == [];
    for i := 0 to |places|
      invariant Decided(cs, agree, places[..i], applied, refused, conflicts)
    {
      assert places[..i + 1] == places[..i] + [places[i]];
      var group := grouped[places[i]];
      var winner, others, contested := DecidePlace(group, agree);
      IncreasingFront(places, i + 1);
      OneMorePlace(cs, agree, places[..i], places[i], applied, refused, conflicts, winner, others, contested);
      if winner.Some? {
        applied := applied + [winner.value];
      } else {
        assert applied + [] == applied;
      }
      refused := refused + others;
      if contested {
        conflicts := conflicts + [places[i]];
      } else {
        assert conflicts + [] == conflicts;
      }
    }
    assert places[..|places|] == places;
    AppendsDistinct(cs);
    SortedAppendsDistinct(appends);
    var kept, repeats := KeepFirstSayings(SortAppends(appends));
    AllDecided(cs, agree, grouped, places, applied, refused, conflicts, kept, repeats);
    ghost var n, atPlaces := |applied|, applied;
    applied, refused := applied + kept, refused + repeats;
    assert applied[..n] + applied[n..] == applied && applied[..n] == atPlaces && applied[n..] == kept;
    MergeByFields(cs, agree);
    AppliedInTurn(cs, applied, n);
  }

  lemma NothingGrouped()
    ensures Grouped([], map[]) && AppendsOf([]) == []
  {
  }

  lemma NothingDecided(cs: seq<Candidate>, agree: Agree)
    ensures Decided(cs, agree, [], [], [], [])
  {
    hide FateOf, IsAppend;
  }

  lemma IncreasingFront(places: seq<string>, n: nat)
    requires Increasing(places) && n <= |places|
    ensures Increasing(places[..n])
  {
    hide Less;
  }

  lemma GroupsFound(cs: seq<Candidate>, grouped: map<string, seq<Candidate>>)
    requires Grouped(cs, grouped)
    ensures forall p :: p in grouped ==> grouped[p] == GroupOf(cs, p) != []
    ensures forall c :: c in cs && !IsAppend(c) ==> c.patch.pointer in grouped
    ensures forall p :: p !in grouped ==> GroupOf(cs, p) == []
  {
    hide IsAppend;
    forall p | p !in grouped
      ensures GroupOf(cs, p) == []
    {
      NoneThere(cs, p);
    }
  }

  lemma AllDecided(cs: seq<Candidate>, agree: Agree, grouped: map<string, seq<Candidate>>, places: seq<string>, applied: seq<Candidate>,
                   refused: seq<Candidate>, conflicts: seq<string>, kept: seq<Candidate>, repeats: seq<Candidate>)
    requires Decided(cs, agree, places, applied, refused, conflicts)
    requires (forall c :: c in cs && !IsAppend(c) ==> c.patch.pointer in places) && (forall p :: p !in places ==> GroupOf(cs, p) == [])
    requires var sorted := SortAppends(AppendsOf(cs));
             kept == FirstSayings(sorted) && forall c :: c in repeats <==> c in sorted && c !in kept
    ensures forall c :: c in applied + kept <==> c in cs && FateOf(cs, agree, c) == Lands
    ensures forall c :: c in refused + repeats <==> c in cs && FateOf(cs, agree, c) == Refused
    ensures ByPointer(applied) && Increasing(conflicts) && forall p :: p in conflicts <==> Contested(cs, agree, p)
    ensures forall c :: c in applied ==> !IsAppend(c)
  {
    hide IsAppend, Winner, Unanimous, GroupOf, FirstSayings, SortAppends, FateOf;
    forall c | c in cs && IsAppend(c)
      ensures FateOf(cs, agree, c) == (if c in kept then Lands else Refused) && (c in kept || c in repeats)
    {
      FateOfAppend(cs, agree, c);
    }
    assert forall c :: c in kept || c in repeats ==> c in AppendsOf(cs);
  }

  lemma FateOfAppend(cs: seq<Candidate>, agree: Agree, c: Candidate)
    requires c in cs && IsAppend(c)
    ensures FateOf(cs, agree, c) == (if c in FirstSayings(SortAppends(AppendsOf(cs))) then Lands else Refused)
    ensures c in SortAppends(AppendsOf(cs))
  {
    hide IsAppend;
  }

  /* ------------------------------------------------------------ what the merge promises */

  /** No place is written twice: apart from appends, two applied patches never share a pointer, and two applied appends
      never say the same. */
  lemma AppliedOnce(cs: seq<Candidate>, agree: Agree, a: Candidate, b: Candidate)
    requires a in cs && b in cs && a != b && a.patch.pointer == b.patch.pointer
    requires FateOf(cs, agree, a) == Lands && FateOf(cs, agree, b) == Lands
    ensures IsAppend(a) && IsAppend(b) && a.patch.value != b.patch.value
  {
    hide Winner, Unanimous, FirstSayings, SortAppends, GroupOf;
    if IsAppend(a) {
      var kept := FirstSayings(SortAppends(AppendsOf(cs)));
      FateOfAppend(cs, agree, a);
      FateOfAppend(cs, agree, b);
      EachSayingIsKeptOnce(SortAppends(AppendsOf(cs)));
      var i :| 0 <= i < |kept| && kept[i] == a;
      var j :| 0 <= j < |kept| && kept[j] == b;
      assert !SaysTheSame(kept[if i < j then i else j], kept[if i < j then j else i]);
    } else {
      FateAtPlace(cs, agree, a);
      FateAtPlace(cs, agree, b);
    }
  }

  /** Nothing a reviewer said is lost in silence: a patch that neither goes in nor is refused says what an applied one
      says at the same place, and so does an append that is refused. */
  lemma TwinIsApplied(cs: seq<Candidate>, agree: Agree, c: Candidate)
    requires c in cs && (FateOf(cs, agree, c) == Twin || (IsAppend(c) && FateOf(cs, agree, c) == Refused))
    ensures exists a :: a in cs && FateOf(cs, agree, a) == Lands && SaysTheSame(a, c)
  {
    if IsAppend(c) {
      hide FirstSayings, SortAppends, GroupOf, FateOf, IsAppend;
      FateOfAppend(cs, agree, c);
      var kept := EachSayingIsKept(SortAppends(AppendsOf(cs)), c);
      assert kept in AppendsOf(cs);
      FateOfAppend(cs, agree, kept);
    } else {
      hide FirstSayings, SortAppends, IsAppend, GroupOf;
      var group := GroupOf(cs, c.patch.pointer);
      assert c in group && Unanimous(group);
      var a := group[0];
      assert a in group && SaysTheSame(a, c);
      FateAtPlace(cs, agree, a);
    }
  }

  /** Of appends that say the same, the one first by unit and claim goes in. */
  lemma KeptAppendIsFirst(cs: seq<Candidate>, agree: Agree, kept: Candidate, c: Candidate)
    requires kept in cs && c in cs && IsAppend(kept) && IsAppend(c) && FateOf(cs, agree, kept) == Lands && SaysTheSame(kept, c)
    ensures !KeyBefore(c, kept)
  {
    hide FirstSayings, SortAppends, FateOf, IsAppend, KeyBefore, InOrder;
    FateOfAppend(cs, agree, kept);
    FateOfAppend(cs, agree, c);
    SortAppendsInOrder(AppendsOf(cs));
    KeptComesFirst(SortAppends(AppendsOf(cs)), kept, c);
  }

  /** Each place is decided: one wording goes in exactly when the reviewers say one thing, or agree on one of theirs. */
  lemma PlaceDecided(cs: seq<Candidate>, agree: Agree, pointer: string)
    requires PrefersOneOfThem(agree) && GroupOf(cs, pointer) != []
    ensures var group := GroupOf(cs, pointer);
            (exists c :: c in group && FateOf(cs, agree, c) == Lands) <==> Unanimous(group) || agree(ValuesOf(group)).Some?
  {
    hide IsAppend, Unanimous, FateOf, GroupOf;
    var group := GroupOf(cs, pointer);
    forall c | c in group
      ensures c in cs && (FateOf(cs, agree, c) == Lands <==> Winner(group, agree) == Some(c))
    {
      FateAtPlace(cs, agree, c);
    }
    if !Unanimous(group) && agree(ValuesOf(group)).Some? {
      AgreedIsSaid(group, agree(ValuesOf(group)).value);
    }
    if Unanimous(group) {
      assert group[0] in group;
    }
  }

  /* ------------------------------------------------------------ the same, by the records' own fields */

  /** The last token of the pointer is `-`. */
  ghost predicate ToTheEnd(pointer: string) {
    |pointer| >= 2 && pointer[|pointer| - 2] == '/' && pointer[|pointer| - 1] == '-'
  }

  /** Two candidates at one place say different things. */
  ghost predicate Disputed(cs: seq<Candidate>, pointer: string) {
    exists i, j :: 0 <= i < j < |cs| && cs[i].patch.pointer == cs[j].patch.pointer == pointer && cs[i].patch.value != cs[j].patch.value
  }

  /** What the candidates at a place say, in the order they came. */
  function Wordings(cs: seq<Candidate>, pointer: string): seq<Json> {
    if cs == [] then []
    else (if cs[0].patch.pointer == pointer then [cs[0].patch.value] else []) + Wordings(cs[1..], pointer)
  }

  /** None before it at its place says the same. */
  ghost predicate SaidFirst(cs: seq<Candidate>, i: nat)
    requires i < |cs|
  {
    forall j :: 0 <= j < i ==> cs[j].patch.pointer != cs[i].patch.pointer || cs[j].patch.value != cs[i].patch.value
  }

  /** Of two candidates at one place, `a` is first by unit and claim, and by coming first where those are the same. */
  ghost predicate Sooner(a: Candidate, b: Candidate, cameFirst: bool) {
    Less(a.unit, b.unit) || (a.unit == b.unit && (Less(a.claim, b.claim) || (a.claim == b.claim && cameFirst)))
  }

  /** It is the soonest of those that append the same. */
  ghost predicate Foremost(cs: seq<Candidate>, i: nat)
    requires i < |cs|
  {
    forall j :: 0 <= j < |cs| && j != i && cs[j].patch.pointer == cs[i].patch.pointer && cs[j].patch.value == cs[i].patch.value ==>
      Sooner(cs[i], cs[j], i < j)
  }

  ghost predicate GoesIn(cs: seq<Candidate>, agree: Agree, i: nat)
    requires i < |cs|
  {
    var place := cs[i].patch.pointer;
    if ToTheEnd(place) then Foremost(cs, i)
    else SaidFirst(cs, i) && (Disputed(cs, place) ==> agree(Wordings(cs, place)) == Some(cs[i].patch.value))
  }

  ghost predicate Unsettled(cs: seq<Candidate>, agree: Agree, pointer: string) {
    !ToTheEnd(pointer) && Disputed(cs, pointer) && agree(Wordings(cs, pointer)) == None
  }

  /** `a` goes in before `b`: what writes to a place by its pointer, then the appends by pointer, unit and claim. */
  ghost predicate InTurn(cs: seq<Candidate>, a: Candidate, b: Candidate) {
    var p, q := a.patch.pointer, b.patch.pointer;
    if !ToTheEnd(p) then ToTheEnd(q) || Less(p, q)
    else ToTheEnd(q) && (Less(p, q) || (p == q && Sooner(a, b, Before(cs, a, b))))
  }

  ghost predicate Before(cs: seq<Candidate>, a: Candidate, b: Candidate) {
    exists i, j :: 0 <= i < j < |cs| && cs[i] == a && cs[j] == b
  }

  lemma AppendIsToTheEnd(c: Candidate)
    ensures IsAppend(c) <==> ToTheEnd(c.patch.pointer)
  {
    var p := c.patch.pointer;
    if |p| >= 2 {
      assert p[|p| - 2..] == [p[|p| - 2], p[|p| - 1]];
      assert "/-" == ['/', '-'];
    }
  }

  lemma {:induction false} WordingsOneMore(cs: seq<Candidate>, c: Candidate, pointer: string)
    ensures Wordings(cs + [c], pointer) == Wordings(cs, pointer) + (if c.patch.pointer == pointer then [c.patch.value] else [])
  {
    if cs == [] {
      assert (cs + [c])[1..] == [];
    } else {
      assert (cs + [c])[1..] == cs[1..] + [c];
      WordingsOneMore(cs[1..], c, pointer);
    }
  }

  lemma {:induction false} ValuesOneMore(group: seq<Candidate>, c: Candidate)
    ensures ValuesOf(group + [c]) == ValuesOf(group) + [c.patch.value]
  {
    if group == [] {
      assert (group + [c])[1..] == [];
    } else {
      assert (group + [c])[1..] == group[1..] + [c];
      ValuesOneMore(group[1..], c);
    }
  }

  lemma {:induction false} GroupIsWordings(cs: seq<Candidate>, pointer: string)
    requires !ToTheEnd(pointer)
    ensures ValuesOf(GroupOf(cs, pointer)) == Wordings(cs, pointer)
  {
    hide IsAppend, ToTheEnd;
    if cs != [] {
      var last := |cs| - 1;
      assert cs == cs[..last] + [cs[last]];
      GroupIsWordings(cs[..last], pointer);
      WordingsOneMore(cs[..last], cs[last], pointer);
      AppendIsToTheEnd(cs[last]);
      GroupStep(cs[..last], cs[last], pointer);
      if cs[last].patch.pointer == pointer {
        ValuesOneMore(GroupOf(cs[..last], pointer), cs[last]);
      }
    }
  }

  lemma UnanimousIff(cs: seq<Candidate>, pointer: string)
    requires !ToTheEnd(pointer)
    ensures Unanimous(GroupOf(cs, pointer)) <==> !Disputed(cs, pointer)
  {
    hide IsAppend, ToTheEnd, GroupOf;
    var group := GroupOf(cs, pointer);
    forall c | c in cs
      ensures IsAppend(c) <==> ToTheEnd(c.patch.pointer)
    {
      AppendIsToTheEnd(c);
    }
    if !Unanimous(group) {
      var a, b :| a in group && b in group && a.patch.value != b.patch.value;
      var i :| 0 <= i < |cs| && cs[i] == a;
      var j :| 0 <= j < |cs| && cs[j] == b;
      assert i < j || j < i;
    }
  }

  /** A group lists its candidates in the order they came, so the first that says a thing there came first. */
  lemma {:induction false} FirstThereCameFirst(cs: seq<Candidate>, pointer: string, v: Json)
    requires !ToTheEnd(pointer)
    ensures var first := FirstSaying(GroupOf(cs, pointer), v);
            first.Some? ==> CameFirst(cs, first.value)
  {
    hide IsAppend, ToTheEnd, FirstSaying, CameFirst, GroupOf;
    if cs == [] {
      NoneThere(cs, pointer);
      NothingSaid(v);
    } else {
      var last := |cs| - 1;
      var front, c := cs[..last], cs[last];
      assert cs == front + [c];
      GroupStep(front, c, pointer);
      FirstThereCameFirst(front, pointer, v);
      FirstSayingOneMore(GroupOf(front, pointer), c, v);
      assert GroupOf(front, pointer) + [] == GroupOf(front, pointer);
      var was := FirstSaying(GroupOf(front, pointer), v);
      if was.Some? {
        CameFirstStays(front, c, was.value);
      } else if !IsAppend(c) && c.patch.pointer == pointer && c.patch.value == v {
        forall x | x in front && x.patch.pointer == pointer
          ensures x.patch.value != v
        {
          AppendIsToTheEnd(x);
          assert x in GroupOf(front, pointer);
        }
        NewCameFirst(front, c);
      }
    }
  }

  lemma NothingSaid(v: Json)
    ensures FirstSaying([], v) == None
  {
  }

  ghost predicate CameFirst(cs: seq<Candidate>, c: Candidate) {
    exists i :: 0 <= i < |cs| && cs[i] == c && SaidFirst(cs, i)
  }

  lemma CameFirstStays(front: seq<Candidate>, c: Candidate, x: Candidate)
    requires CameFirst(front, x)
    ensures CameFirst(front + [c], x)
  {
    var i :| 0 <= i < |front| && front[i] == x && SaidFirst(front, i);
    assert (front + [c])[i] == x && SaidFirst(front + [c], i);
  }

  lemma NewCameFirst(front: seq<Candidate>, c: Candidate)
    requires forall x :: x in front && x.patch.pointer == c.patch.pointer ==> x.patch.value != c.patch.value
    ensures CameFirst(front + [c], c)
  {
    var cs := front + [c];
    assert forall j :: 0 <= j < |front| ==> cs[j] == front[j];
    assert cs[|front|] == c && SaidFirst(cs, |front|);
  }

  lemma {:induction false} FirstSayingOneMore(group: seq<Candidate>, c: Candidate, v: Json)
    ensures FirstSaying(group + [c], v) ==
            if FirstSaying(group, v).Some? then FirstSaying(group, v) else if c.patch.value == v then Some(c) else None
  {
    if group == [] {
      assert (group + [c])[1..] == [];
    } else {
      assert (group + [c])[1..] == group[1..] + [c];
      FirstSayingOneMore(group[1..], c, v);
    }
  }

  lemma WinnerIsSaying(group: seq<Candidate>, agree: Agree)
    requires group != []
    ensures Winner(group, agree) ==
            if Unanimous(group) then FirstSaying(group, group[0].patch.value)
            else if agree(ValuesOf(group)) == None then None else FirstSaying(group, agree(ValuesOf(group)).value)
  {
    hide Unanimous;
  }

  lemma OneSaidFirst(cs: seq<Candidate>, i: nat, j: nat)
    requires i < |cs| && j < |cs| && SaidFirst(cs, i) && SaidFirst(cs, j)
    requires cs[i].patch.pointer == cs[j].patch.pointer && cs[i].patch.value == cs[j].patch.value
    ensures i == j
  {
  }

  /** At a place that is no list's end, by the fields. */
  lemma PlaceIff(cs: seq<Candidate>, agree: Agree, i: nat)
    requires i < |cs| && DistinctCandidates(cs) && !ToTheEnd(cs[i].patch.pointer)
    ensures FateOf(cs, agree, cs[i]) == Lands <==> GoesIn(cs, agree, i)
    ensures FateOf(cs, agree, cs[i]) == Refused <==> !GoesIn(cs, agree, i) && Disputed(cs, cs[i].patch.pointer)
  {
    hide IsAppend, Unanimous, GroupOf, FateOf, Winner, SaidFirst, Disputed, ToTheEnd, FirstSaying, Wordings;
    var c, place := cs[i], cs[i].patch.pointer;
    AppendIsToTheEnd(c);
    FateAtPlace(cs, agree, c);
    var group := GroupOf(cs, place);
    UnanimousIff(cs, place);
    GroupIsWordings(cs, place);
    WinnerIsSaying(group, agree);
    FirstThereIff(cs, place, i);
    if Unanimous(group) {
      SaysAsTheFirst(group, c);
    } else if agree(Wordings(cs, place)).Some? && agree(Wordings(cs, place)).value != c.patch.value {
      SaysIt(group, agree(Wordings(cs, place)).value, c);
    }
  }

  lemma SaysAsTheFirst(group: seq<Candidate>, c: Candidate)
    requires Unanimous(group) && c in group
    ensures group[0].patch.value == c.patch.value
  {
    assert group[0] in group;
  }

  lemma SaysIt(group: seq<Candidate>, v: Json, c: Candidate)
    requires c.patch.value != v
    ensures FirstSaying(group, v) != Some(c)
  {
  }

  lemma FirstThereIff(cs: seq<Candidate>, pointer: string, i: nat)
    requires i < |cs| && DistinctCandidates(cs) && !ToTheEnd(pointer) && cs[i].patch.pointer == pointer
    ensures FirstSaying(GroupOf(cs, pointer), cs[i].patch.value) == Some(cs[i]) <==> SaidFirst(cs, i)
  {
    hide IsAppend, GroupOf, ToTheEnd;
    var group, v := GroupOf(cs, pointer), cs[i].patch.value;
    AppendIsToTheEnd(cs[i]);
    assert cs[i] in group;
    FirstThereCameFirst(cs, pointer, v);
    var first := FirstSaying(group, v).value;
    assert first in group && first.patch.value == v;
    var k :| 0 <= k < |cs| && cs[k] == first && SaidFirst(cs, k);
    if SaidFirst(cs, i) {
      OneSaidFirst(cs, i, k);
    }
    if first == cs[i] {
      assert k == i;
    }
  }

  /** Sorted appends stand by their key, and where that is the same in the order they came. */
  ghost predicate Stable(came: seq<Candidate>, sorted: seq<Candidate>) {
    forall i, j :: 0 <= i < j < |sorted| ==> !KeyBefore(sorted[j], sorted[i]) && (KeyBefore(sorted[i], sorted[j]) || Before(came, sorted[i], sorted[j]))
  }

  lemma BeforeStays(came: seq<Candidate>, more: seq<Candidate>, a: Candidate, b: Candidate)
    requires Before(came, a, b)
    ensures Before(came + more, a, b)
  {
    var i, j :| 0 <= i < j < |came| && came[i] == a && came[j] == b;
    assert (came + more)[i] == a && (came + more)[j] == b;
  }

  lemma BeforeTheNext(came: seq<Candidate>, a: Candidate, c: Candidate)
    requires a in came
    ensures Before(came + [c], a, c)
  {
    var i :| 0 <= i < |came| && came[i] == a;
    assert (came + [c])[i] == a && (came + [c])[|came|] == c;
  }

  lemma {:induction false} PlaceKeepsStable(came: seq<Candidate>, sorted: seq<Candidate>, c: Candidate)
    requires Stable(came, sorted) && forall x :: x in sorted ==> x in came
    ensures Stable(came + [c], PlaceByKey(sorted, c))
  {
    hide KeyBefore, Before;
    forall x, y | Before(came, x, y)
      ensures Before(came + [c], x, y)
    {
      BeforeStays(came, [c], x, y);
    }
    if sorted != [] {
      var last := |sorted| - 1;
      var front, end := sorted[..last], sorted[last];
      if KeyBefore(c, end) {
        PlaceKeepsStable(came, front, c);
        var out := PlaceByKey(front, c);
        forall i | 0 <= i < |out|
          ensures !KeyBefore(end, out[i]) && (KeyBefore(out[i], end) || Before(came + [c], out[i], end))
        {
          assert out[i] in out;
          KeyBeforeIsOrder(c, end, c);
        }
      } else {
        forall i | 0 <= i < |sorted|
          ensures !KeyBefore(c, sorted[i]) && Before(came + [c], sorted[i], c)
        {
          KeyBeforeIsOrder(sorted[i], end, c);
          BeforeTheNext(came, sorted[i], c);
        }
      }
    }
  }

  lemma {:induction false} SortIsStable(appends: seq<Candidate>)
    ensures Stable(appends, SortAppends(appends))
  {
    if appends != [] {
      hide KeyBefore, Before, Stable;
      var last := |appends| - 1;
      assert appends == appends[..last] + [appends[last]];
      SortIsStable(appends[..last]);
      PlaceKeepsStable(appends[..last], SortAppends(appends[..last]), appends[last]);
    } else {
      hide KeyBefore, Before;
    }
  }

  lemma {:induction false} SayingsStayStable(came: seq<Candidate>, sorted: seq<Candidate>)
    requires Stable(came, sorted)
    ensures Stable(came, FirstSayings(sorted))
  {
    hide KeyBefore, Before;
    if sorted != [] {
      var last := |sorted| - 1;
      var front, end := FirstSayings(sorted[..last]), sorted[last];
      SayingsStayStable(came, sorted[..last]);
      forall i | 0 <= i < |front|
        ensures !KeyBefore(end, front[i]) && (KeyBefore(front[i], end) || Before(came, front[i], end))
      {
        assert front[i] in front;
        var k :| 0 <= k < last && sorted[k] == front[i];
        StableAtIndexes(came, sorted, k, last);
      }
    }
  }

  lemma {:induction false} AppendsCameSo(cs: seq<Candidate>, a: Candidate, b: Candidate)
    requires Before(AppendsOf(cs), a, b)
    ensures Before(cs, a, b)
  {
    hide IsAppend;
    if cs != [] {
      var last := |cs| - 1;
      var front, c := cs[..last], cs[last];
      assert cs == front + [c];
      if Before(AppendsOf(front), a, b) {
        AppendsCameSo(front, a, b);
        BeforeStays(front, [c], a, b);
      } else {
        var all := AppendsOf(cs);
        var i, j :| 0 <= i < j < |all| && all[i] == a && all[j] == b;
        assert j == |AppendsOf(front)|;
        assert a == AppendsOf(front)[i];
        BeforeTheNext(front, a, c);
      }
    }
  }

  /** A saying is kept where it first stands. */
  lemma {:induction false} KeptStandsFirst(sorted: seq<Candidate>, kept: Candidate, c: Candidate)
    requires NoRepeats(sorted) && kept in FirstSayings(sorted) && c in sorted && SaysTheSame(kept, c) && c != kept
    ensures Before(sorted, kept, c)
  {
    var last := |sorted| - 1;
    var front, end := sorted[..last], sorted[last];
    assert sorted == front + [end];
    if kept in FirstSayings(front) {
      if c == end {
        BeforeTheNext(front, kept, c);
      } else {
        KeptStandsFirst(front, kept, c);
        BeforeStays(front, [end], kept, c);
      }
    }
  }

  lemma ByKeyIsSooner(a: Candidate, b: Candidate, cameFirst: bool)
    requires a.patch.pointer == b.patch.pointer && !KeyBefore(b, a) && (KeyBefore(a, b) || cameFirst)
    ensures Sooner(a, b, cameFirst)
  {
    hide Less;
    LessIrreflexive(a.patch.pointer);
    LessTotal(a.unit, b.unit);
    LessTotal(a.claim, b.claim);
    LessIrreflexive(a.unit);
  }

  lemma ByKeyIsByPointer(a: Candidate, b: Candidate)
    requires !KeyBefore(b, a)
    ensures a.patch.pointer == b.patch.pointer || Less(a.patch.pointer, b.patch.pointer)
  {
    hide Less;
    LessTotal(a.patch.pointer, b.patch.pointer);
  }

  lemma SoonerIsOneWay(a: Candidate, b: Candidate, cameFirst: bool)
    requires Sooner(a, b, cameFirst)
    ensures !Sooner(b, a, !cameFirst)
  {
    hide Less;
    TextOrder(a.unit, b.unit, a.unit);
    TextOrder(a.claim, b.claim, a.claim);
  }

  lemma BeforeIsIndex(cs: seq<Candidate>, i: nat, j: nat)
    requires i < |cs| && j < |cs| && DistinctCandidates(cs)
    ensures Before(cs, cs[i], cs[j]) <==> i < j
  {
  }

  /** Among appends that say the same, the one kept is the soonest. */
  lemma KeptIsSooner(cs: seq<Candidate>, agree: Agree, i: nat, j: nat)
    requires i < |cs| && j < |cs| && i != j && DistinctCandidates(cs)
    requires IsAppend(cs[i]) && IsAppend(cs[j]) && SaysTheSame(cs[i], cs[j]) && FateOf(cs, agree, cs[i]) == Lands
    ensures Sooner(cs[i], cs[j], i < j)
  {
    hide IsAppend, FirstSayings, SortAppends, FateOf, KeyBefore, Before, Sooner;
    var appends := AppendsOf(cs);
    FateOfAppend(cs, agree, cs[i]);
    FateOfAppend(cs, agree, cs[j]);
    AppendsDistinct(cs);
    SortedAppendsDistinct(appends);
    KeptStandsFirst(SortAppends(appends), cs[i], cs[j]);
    SortIsStable(appends);
    StableAt(appends, SortAppends(appends), cs[i], cs[j]);
    if Before(appends, cs[i], cs[j]) {
      AppendsCameSo(cs, cs[i], cs[j]);
    }
    BeforeIsIndex(cs, i, j);
    ByKeyIsSooner(cs[i], cs[j], i < j);
  }

  lemma StableAt(came: seq<Candidate>, sorted: seq<Candidate>, a: Candidate, b: Candidate)
    requires Stable(came, sorted) && Before(sorted, a, b)
    ensures !KeyBefore(b, a) && (KeyBefore(a, b) || Before(came, a, b))
  {
    hide KeyBefore;
  }

  /** At a list's end, by the fields. */
  lemma AppendIff(cs: seq<Candidate>, agree: Agree, i: nat)
    requires i < |cs| && DistinctCandidates(cs) && ToTheEnd(cs[i].patch.pointer)
    ensures FateOf(cs, agree, cs[i]) == Lands <==> GoesIn(cs, agree, i)
    ensures FateOf(cs, agree, cs[i]) == Refused <==> !GoesIn(cs, agree, i)
  {
    hide IsAppend, FirstSayings, SortAppends, FateOf, ToTheEnd, Sooner;
    var c := cs[i];
    AppendIsToTheEnd(c);
    FateOfAppend(cs, agree, c);
    forall j | 0 <= j < |cs| && j != i && SaysTheSame(cs[j], c)
      ensures FateOf(cs, agree, c) == Lands ==> Sooner(c, cs[j], i < j)
    {
      AppendIsToTheEnd(cs[j]);
      if FateOf(cs, agree, c) == Lands {
        KeptIsSooner(cs, agree, i, j);
      }
    }
    if Foremost(cs, i) {
      var kept := EachSayingIsKept(SortAppends(AppendsOf(cs)), c);
      assert kept in AppendsOf(cs);
      FateOfAppend(cs, agree, kept);
      var k :| 0 <= k < |cs| && cs[k] == kept;
      if k != i {
        KeptIsSooner(cs, agree, k, i);
        SoonerIsOneWay(c, kept, i < k);
      }
    }
  }

  /** What becomes of every candidate, and which places stay contested, by the fields. */
  lemma MergeByFields(cs: seq<Candidate>, agree: Agree)
    requires DistinctCandidates(cs)
    ensures forall i :: 0 <= i < |cs| ==> (FateOf(cs, agree, cs[i]) == Lands <==> GoesIn(cs, agree, i))
    ensures forall i :: 0 <= i < |cs| ==>
              (FateOf(cs, agree, cs[i]) == Refused <==>
               !GoesIn(cs, agree, i) && (ToTheEnd(cs[i].patch.pointer) || Disputed(cs, cs[i].patch.pointer)))
    ensures forall p :: Contested(cs, agree, p) <==> Unsettled(cs, agree, p)
  {
    hide FateOf, GoesIn, Disputed, ToTheEnd, Contested, Unsettled;
    forall i | 0 <= i < |cs|
      ensures FateOf(cs, agree, cs[i]) == Lands <==> GoesIn(cs, agree, i)
      ensures FateOf(cs, agree, cs[i]) == Refused <==>
              !GoesIn(cs, agree, i) && (ToTheEnd(cs[i].patch.pointer) || Disputed(cs, cs[i].patch.pointer))
    {
      if ToTheEnd(cs[i].patch.pointer) {
        AppendIff(cs, agree, i);
      } else {
        PlaceIff(cs, agree, i);
      }
    }
    forall p
      ensures Contested(cs, agree, p) <==> Unsettled(cs, agree, p)
    {
      ContestedIff(cs, agree, p);
    }
  }

  lemma ContestedIff(cs: seq<Candidate>, agree: Agree, pointer: string)
    ensures Contested(cs, agree, pointer) <==> Unsettled(cs, agree, pointer)
  {
    hide IsAppend, Unanimous, GroupOf, ToTheEnd, Disputed, Wordings;
    if ToTheEnd(pointer) {
      forall c | c in cs
        ensures IsAppend(c) <==> ToTheEnd(c.patch.pointer)
      {
        AppendIsToTheEnd(c);
      }
      NoneThere(cs, pointer);
    } else {
      UnanimousIff(cs, pointer);
      GroupIsWordings(cs, pointer);
      if GroupOf(cs, pointer) == [] {
        NoneDisagree(GroupOf(cs, pointer));
      }
    }
  }

  lemma NoneDisagree(group: seq<Candidate>)
    ensures group == [] ==> Unanimous(group)
  {
  }

  /** The applied patches stand in their turn. */
  lemma AppliedInTurn(cs: seq<Candidate>, applied: seq<Candidate>, n: nat)
    requires DistinctCandidates(cs) && n <= |applied| && ByPointer(applied[..n])
    requires applied[n..] == FirstSayings(SortAppends(AppendsOf(cs)))
    requires forall c :: c in applied[..n] ==> !IsAppend(c)
    ensures forall i, j :: 0 <= i < j < |applied| ==> InTurn(cs, applied[i], applied[j])
  {
    hide IsAppend, FirstSayings, SortAppends, ToTheEnd, Before, Sooner, KeyBefore, Stable;
    var appends, kept := AppendsOf(cs), applied[n..];
    SortIsStable(appends);
    SayingsStayStable(appends, SortAppends(appends));
    forall i, j | 0 <= i < j < |applied|
      ensures InTurn(cs, applied[i], applied[j])
    {
      var a, b := applied[i], applied[j];
      AppendIsToTheEnd(a);
      AppendIsToTheEnd(b);
      if i < n {
        assert a == applied[..n][i] && a in applied[..n];
        if j < n {
          assert b == applied[..n][j];
        } else {
          assert b == kept[j - n] && b in kept && b in appends;
        }
      } else {
        assert a == kept[i - n] && b == kept[j - n];
        assert a in kept && b in kept && a in appends && b in appends;
        StableAtIndexes(appends, kept, i - n, j - n);
        ByKeyIsByPointer(a, b);
        if Before(appends, a, b) {
          AppendsCameSo(cs, a, b);
        }
        if a.patch.pointer == b.patch.pointer {
          ByKeyIsSooner(a, b, Before(cs, a, b));
        }
      }
    }
  }

  lemma StableAtIndexes(came: seq<Candidate>, sorted: seq<Candidate>, i: nat, j: nat)
    requires Stable(came, sorted) && i < j < |sorted|
    ensures !KeyBefore(sorted[j], sorted[i]) && (KeyBefore(sorted[i], sorted[j]) || Before(came, sorted[i], sorted[j]))
  {
    hide KeyBefore, Before;
  }
}
