/** What a round's first application leaves (loop/spec_review.py, `_apply_to`): each value where its patch's pointer says, in
    the document or inside the value of a patch above it. */
module PlacedValues {
  import opened Wrappers
  import opened Json
  import opened JsonPointer
  import opened Patches
  import opened SharedValues
  import opened FirstApplication
  import opened RecordPaths
  import opened Reapplication

  /* ------------------------------------------------------------ one record rewritten */

  /** Below where a record can be met, its change is not noticed. */
  lemma {:induction false} FollowElsewhere(r: Records, e: nat, value: Tree, t: Tree, path: seq<string>, depth: nat)
    requires Sound(r) && Fits(r.names, t, depth) && e in r.values && depth >= |r.names[e]| && t != Ref(e)
    ensures Follow(r.(values := r.values[e := value]), t, path) == Follow(r, t, path)
    decreases |path|, if t.Ref? then 1 else 0
  {
    hide PyInt, Fits, Child;
    if path != [] {
      FitsAtRef(r.names, t, depth);
      if t.Ref? {
        assert Fits(r.names, r.values[t.id], |r.names[t.id]|) && !r.values[t.id].Ref?;
        FollowElsewhere(r, e, value, r.values[t.id], path, depth);
      } else if Child(t, path[0]).Some? {
        ChildFits(r.names, t, path[0], depth);
        FitsAtRef(r.names, Child(t, path[0]).value, depth + 1);
        FollowElsewhere(r, e, value, Child(t, path[0]).value, path[1..], depth + 1);
      }
    }
  }

  /** Nor above it. */
  lemma {:induction false} FollowAbove(r: Records, e: nat, value: Tree, t: Tree, path: seq<string>, depth: nat)
    requires Sound(r) && Fits(r.names, t, depth) && e in r.values && depth + |path| <= |r.names[e]|
    ensures Follow(r.(values := r.values[e := value]), t, path) == Follow(r, t, path)
    ensures Follow(r, t, path).Some? ==> Fits(r.names, Follow(r, t, path).value, depth + |path|)
    decreases |path|, if t.Ref? then 1 else 0
  {
    hide PyInt, Fits, Child;
    if path != [] {
      FitsAtRef(r.names, t, depth);
      if t.Ref? {
        assert Fits(r.names, r.values[t.id], |r.names[t.id]|) && !r.values[t.id].Ref?;
        FollowAbove(r, e, value, r.values[t.id], path, depth);
      } else if Child(t, path[0]).Some? {
        ChildFits(r.names, t, path[0], depth);
        FollowAbove(r, e, value, Child(t, path[0]).value, path[1..], depth + 1);
      }
    }
  }

  /** A walk is changed where it goes into the record, and nowhere else. */
  lemma FollowRewritten(r: Records, e: nat, value: Tree, t: Tree, path: seq<string>)
    requires Sound(r) && Fits(r.names, t, 0) && e in r.values && !value.Ref?
    ensures var q, n := r.(values := r.values[e := value]), |r.names[e]|;
            && (|path| > n && Follow(r, t, path[..n]) == Some(Ref(e)) ==> Follow(q, t, path) == Follow(q, value, path[n..]))
            && (|path| <= n || Follow(r, t, path[..n]) != Some(Ref(e)) ==> Follow(q, t, path) == Follow(r, t, path))
  {
    hide Follow, Fits;
    var q, n := r.(values := r.values[e := value]), |r.names[e]|;
    if |path| <= n {
      FollowAbove(r, e, value, t, path, 0);
    } else {
      FollowAbove(r, e, value, t, path[..n], 0);
      assert path == path[..n] + path[n..];
      FollowConcat(r, t, path[..n], path[n..]);
      FollowConcat(q, t, path[..n], path[n..]);
      if Follow(r, t, path[..n]) == Some(Ref(e)) {
        FollowThrough(q, e, path[n..]);
      } else if Follow(r, t, path[..n]).Some? {
        FollowElsewhere(r, e, value, Follow(r, t, path[..n]).value, path[n..], n);
      }
    }
  }

  /* ------------------------------------------------------------ values at their own places */

  /** Every record an exact walk meets is at its own place. */
  ghost predicate Own(s: State) {
    forall path, k :: ExactPath(path) && Follow(s.records, s.doc, path) == Some(Ref(k)) ==>
                        k in s.records.names && s.records.names[k] == path
  }

  /** Every patch that landed is there. */
  ghost predicate InPlace(s: State, patches: seq<Patch>) {
    forall p :: p in patches && p !in s.failed ==> Follow(s.records, s.doc, PlaceOf(p)) == Some(Ref(p.id))
  }

  lemma BareLeadsNowhere(r: Records, id: nat, path: seq<string>, k: nat)
    requires Bare(r, id) && Follow(r, Ref(id), path) == Some(Ref(k))
    ensures path == [] && k == id
  {
    hide Tag;
    var j :| r.values[id] == Tag(j);
    TagIsNoRef(j);
    if path != [] {
      TagHasNoRef(r, j, path);
      var i :| Follow(r, Tag(j), path) == Some(Tag(i));
      TagIsNoRef(i);
    }
  }

  /** What a replace that lands does to exact walks: below its place they are in its value, and to any other place they
      lead to the records they led to. */
  ghost predicate Lands(s: State, p: Patch, path: seq<string>) {
    var after := Step(s, p);
    && (PlaceOf(p) <= path ==> Follow(after.records, after.doc, path) == Follow(after.records, Ref(p.id), path[|PlaceOf(p)|..]))
    && (!(PlaceOf(p) <= path) ==>
          forall k :: Follow(after.records, after.doc, path) == Some(Ref(k)) <==> Follow(s.records, s.doc, path) == Some(Ref(k)))
  }

  lemma PutLands(r: Records, t: Tree, tokens: seq<string>, v: Tree, path: seq<string>)
    requires ExactPath(tokens) && ExactPath(path) && Put(t, tokens, v, Replace).Some?
    ensures var after := Put(t, tokens, v, Replace).value;
            && (tokens <= path ==> Follow(r, after, path) == Follow(r, v, path[|tokens|..]))
            && (!(tokens <= path) ==> forall k :: Follow(r, after, path) == Some(Ref(k)) <==> Follow(r, t, path) == Some(Ref(k)))
  {
    hide Follow, Put, ExactPath;
    PutFollow(r, t, tokens, v, path);
    if !(tokens <= path) && path <= tokens {
      assert path < tokens;
    }
  }

  lemma PlaceLands(s: State, p: Patch, path: seq<string>)
    requires Ready(s, p) && Places(p) && Own(s) && ExactPath(path) && Step(s, p).failed == s.failed
    ensures Lands(s, p, path)
    ensures forall k :: k in s.records.values && Step(s, p).records.values[k] != s.records.values[k] ==> |s.records.names[k]| < |PlaceOf(p)|
  {
    hide Put, Enter, Leaves, PtrSplit, Fits, Follow, ExactPath, PlaceOf;
    var r, tokens := s.records, PlaceOf(p);
    IsSplit(p);
    StepFails(s, p);
    match Enter(r, s.doc, tokens)
    case None => PutLands(r, s.doc, tokens, Ref(p.id), path);
    case Some(e) =>
      EnterFollow(r, s.doc, tokens, 0);
      InnerLands(s, p, e, path);
  }

  /** A step that sets nothing aside wrote something. */
  lemma StepFails(s: State, p: Patch)
    ensures Step(s, p).failed == s.failed <==> Write(s.doc, s.records, p).Some?
    ensures Write(s.doc, s.records, p) == None ==> Step(s, p) == s.(failed := s.failed + [p])
  {
    hide Write;
    assert |s.failed + [p]| != |s.failed|;
  }

  lemma InnerLands(s: State, p: Patch, e: Entry, path: seq<string>)
    requires Ready(s, p) && Places(p) && Own(s) && ExactPath(path) && Write(s.doc, s.records, p).Some?
    requires Enter(s.records, s.doc, PlaceOf(p)) == Some(e) && e.id in s.records.values
    requires e.rest != [] && |e.rest| <= |PlaceOf(p)| && e.rest == PlaceOf(p)[|PlaceOf(p)| - |e.rest|..]
    requires |s.records.names[e.id]| + |e.rest| == |PlaceOf(p)|
    requires Follow(s.records, s.doc, PlaceOf(p)[..|PlaceOf(p)| - |e.rest|]) == Some(Ref(e.id))
    ensures Lands(s, p, path)
  {
    hide Put, Enter, Leaves, PtrSplit, Fits, Follow, ExactPath, PlaceOf;
    var r, tokens := s.records, PlaceOf(p);
    var n := |tokens| - |e.rest|;
    IsSplit(p);
    var value := r.values[e.id];
    var after := Put(value, e.rest, Ref(p.id), p.op).value;
    var q := r.(values := r.values[e.id := after]);
    assert Step(s, p) == State(s.doc, q, s.failed);
    PutNotAtRef(value, e.rest, Ref(p.id), p.op);
    RestIsExact(tokens, n);
    FollowRewritten(r, e.id, after, s.doc, path);
    SamePrefix(tokens, path, n);
    if |path| > n && Follow(r, s.doc, path[..n]) == Some(Ref(e.id)) {
      RestIsExact(path, n);
      assert path[..n] == tokens[..n];
      SplitPrefix(tokens, path, n);
      PutLands(q, value, e.rest, Ref(p.id), path[n..]);
      FollowElsewhere(r, e.id, after, value, path[n..], n);
      FollowBelow(r, s.doc, path[..n], path);
      FollowThrough(r, e.id, path[n..]);
    }
  }

  lemma SamePrefix(a: seq<string>, b: seq<string>, n: nat)
    requires n <= |a|
    ensures a <= b ==> n <= |b| && b[..n] == a[..n]
  {
  }

  lemma SplitPrefix(a: seq<string>, b: seq<string>, n: nat)
    requires n <= |a| && n <= |b| && a[..n] == b[..n]
    ensures a <= b <==> a[n..] <= b[n..]
    ensures a <= b ==> b[|a|..] == b[n..][|a| - n..]
  {
    assert a == a[..n] + a[n..] && b == b[..n] + b[n..];
  }

  /** One more replace of the round's first application. */
  lemma OneMorePlaced(s: State, front: seq<Patch>, p: Patch)
    requires Ready(s, p) && Places(p) && Own(s) && InPlace(s, front) && Bare(s.records, p.id)
    requires forall c :: c in front ==> Places(c) && !(PlaceOf(p) <= PlaceOf(c))
    ensures Own(Step(s, p)) && InPlace(Step(s, p), front + [p])
  {
    hide Follow, ExactPath, PlaceOf, Step, Lands, Bare, Fits, Tag;
    var after := Step(s, p);
    StepFails(s, p);
    assert Step(s, p).records.names == s.records.names by { StepSound(s, p); }
    if after.failed == s.failed {
      OwnIsAt(s, p);
      StillBareAfter(s, p);
      forall path, k | ExactPath(path) && Follow(after.records, after.doc, path) == Some(Ref(k))
        ensures k in after.records.names && after.records.names[k] == path
      {
        PlaceLands(s, p, path);
        LandsOwn(s, p, path, k);
      }
      forall c | c in front + [p] && c !in after.failed
        ensures Follow(after.records, after.doc, PlaceOf(c)) == Some(Ref(c.id))
      {
        assert Places(c);
        PlaceLands(s, p, PlaceOf(c));
        LandsAt(s, p, c);
      }
    } else {
      assert p in after.failed;
    }
  }

  lemma OwnIsAt(s: State, p: Patch)
    requires Ready(s, p)
    ensures p.id in s.records.names && s.records.names[p.id] == PlaceOf(p) && p.id in s.records.values
  {
  }

  lemma StillBareAfter(s: State, p: Patch)
    requires Ready(s, p) && Places(p) && Own(s) && Bare(s.records, p.id) && Step(s, p).failed == s.failed
    requires Step(s, p).records.names == s.records.names
    ensures Bare(Step(s, p).records, p.id)
  {
    hide Follow, ExactPath, PlaceOf, Step, Fits, Tag, Lands;
    assert ExactPath([]) by { NothingIsExact(); }
    PlaceLands(s, p, []);
    OwnIsAt(s, p);
    StepSound(s, p);
    var j :| s.records.values[p.id] == Tag(j);
    assert Step(s, p).records.values[p.id] == Tag(j);
  }

  lemma NothingIsExact()
    ensures ExactPath([])
  {
  }

  lemma LandsOwn(s: State, p: Patch, path: seq<string>, k: nat)
    requires Lands(s, p, path) && Own(s) && ExactPath(path) && Bare(Step(s, p).records, p.id)
    requires Step(s, p).records.names == s.records.names && p.id in s.records.names && s.records.names[p.id] == PlaceOf(p)
    requires Follow(Step(s, p).records, Step(s, p).doc, path) == Some(Ref(k))
    ensures k in s.records.names && s.records.names[k] == path
  {
    hide Follow, ExactPath, PlaceOf, Step, Bare;
    if PlaceOf(p) <= path {
      BareLeadsNowhere(Step(s, p).records, p.id, path[|PlaceOf(p)|..], k);
    }
  }

  lemma LandsAt(s: State, p: Patch, c: Patch)
    requires Lands(s, p, PlaceOf(c)) && (c == p || (!(PlaceOf(p) <= PlaceOf(c)) && Follow(s.records, s.doc, PlaceOf(c)) == Some(Ref(c.id))))
    ensures Follow(Step(s, p).records, Step(s, p).doc, PlaceOf(c)) == Some(Ref(c.id))
  {
    hide PlaceOf, Step;
  }

  /* ------------------------------------------------------------ after the first application */

  /** A round's records before anything is applied, each holding its own patch's value and no other. */
  ghost predicate Untouched(r: Records, patches: seq<Patch>) {
    Sound(r) && AllBelong(r, patches) && HoldValues(r, patches) && AllBare(r) && DistinctIds(patches)
  }

  /** No replace comes after one at or below its place. */
  ghost predicate PlacesOnce(patches: seq<Patch>, h: nat) {
    h <= |patches| && forall i, j :: 0 <= i < j < h ==> !(PlaceOf(patches[j]) <= PlaceOf(patches[i]))
  }

  lemma PrefixUntouched(r: Records, patches: seq<Patch>, n: nat)
    requires Untouched(r, patches) && n <= |patches|
    ensures Untouched(r, patches[..n])
    ensures n < |patches| ==> Belongs(r, patches[n]) && ValueOf(r, patches[n].id) == patches[n].value
    ensures n < |patches| ==> forall q :: q in patches[..n] ==> q.id != patches[n].id
  {
    hide Sound, Belongs, AllBare, View;
    PrefixBelongs(r, patches, n);
    forall p | p in patches[..n] ensures p in patches {}
    if n < |patches| {
      assert patches[n] in patches;
      forall q | q in patches[..n]
        ensures q.id != patches[n].id
      {
        var i :| 0 <= i < n && patches[i] == q;
      }
    }
  }

  lemma {:induction false} ReplacesPlaced(spec: Json, r: Records, patches: seq<Patch>, n: nat)
    requires Untouched(r, patches) && PlacesOnce(patches, n)
    requires forall i :: 0 <= i < n ==> Places(patches[i])
    ensures var s := Apply(spec, r, patches[..n]); Own(s) && InPlace(s, patches[..n])
  {
    hide Sound, Belongs, Step, Tag, Fits, Apply, Follow, Own, FirstTime, AllBare, Bare, Reads, Places, PlaceOf, Untouched, InPlace, View;
    if n == 0 {
      NothingPlaced(spec, r);
    } else {
      var p, front := patches[n - 1], patches[..n - 1];
      ReplacesPlaced(spec, r, patches, n - 1);
      assert AllBelong(r, patches) && Sound(r) by { UntouchedIs(r, patches); }
      StateReady(spec, r, patches, n - 1);
      PrefixUntouched(r, patches, n - 1);
      UntouchedIs(r, front);
      FirstApplicationIsPlain(spec, r, front);
      StillBare(r, Apply(spec, r, front), front, p);
      forall c | c in front
        ensures Places(c) && !(PlaceOf(p) <= PlaceOf(c))
      {
        var i :| 0 <= i < n - 1 && patches[i] == c;
      }
      OneMorePlaced(Apply(spec, r, front), front, p);
      assert patches[..n] == front + [p];
    }
  }

  lemma UntouchedIs(r: Records, patches: seq<Patch>)
    requires Untouched(r, patches)
    ensures Sound(r) && AllBelong(r, patches) && HoldValues(r, patches) && AllBare(r) && DistinctIds(patches)
  {
  }

  lemma NothingPlaced(spec: Json, r: Records)
    ensures var s := Apply(spec, r, []); Own(s) && InPlace(s, [])
  {
    hide Tag, Follow;
    var s := Apply(spec, r, []);
    assert s == State(Tag(spec), r, []);
    forall path, k | Follow(r, Tag(spec), path) == Some(Ref(k))
      ensures false
    {
      TagHasNoRef(r, spec, path);
      var j :| Follow(r, Tag(spec), path) == Some(Tag(j));
      TagIsNoRef(j);
    }
  }

  /** What is set aside stays set aside. */
  lemma {:induction false} FailedStays(spec: Json, r: Records, patches: seq<Patch>, m: nat, n: nat)
    requires m <= n <= |patches|
    ensures forall p :: p in Apply(spec, r, patches[..m]).failed ==> p in Apply(spec, r, patches[..n]).failed
    decreases n
  {
    hide Write, Tag;
    if m < n {
      FailedStays(spec, r, patches, m, n - 1);
      assert patches[..n][..n - 1] == patches[..n - 1];
    }
  }

  /** At every point after the replaces, those that landed are in their places. */
  lemma StillInPlace(spec: Json, r: Records, patches: seq<Patch>, h: nat, n: nat, c: Patch)
    requires Untouched(r, patches) && Neat(patches, h) && PlacesOnce(patches, h) && h <= n <= |patches|
    requires c in patches[..h] && c !in Apply(spec, r, patches).failed
    ensures var s := Apply(spec, r, patches[..n]); Follow(s.records, s.doc, PlaceOf(c)) == Some(Ref(c.id))
  {
    hide Sound, Belongs, Step, Tag, Fits, Apply, Follow, Own, AllBare, PlaceOf, Untouched, AllGrew, Grew, TreeOf, AppendsTo;
    UntouchedIs(r, patches);
    assert patches[..|patches|] == patches;
    ReplacesPlaced(spec, r, patches, h);
    FailedStays(spec, r, patches, h, |patches|);
    LaterGrew(spec, r, patches, h, h, n);
    TreeIsFixed(spec, r, patches[..h]);
    TreeIsFixed(spec, r, patches[..n]);
    var a, b := Apply(spec, r, patches[..h]), Apply(spec, r, patches[..n]);
    assert Places(c);
    RefStays(a.records, b.records, a.doc, b.doc, PlaceOf(c), c.id);
  }

  /** Patches of a round that its first application did not set aside. */
  ghost predicate Landed(spec: Json, r: Records, patches: seq<Patch>, landed: seq<Patch>) {
    forall p :: p in landed ==> p in patches && p !in Apply(spec, r, patches).failed
  }

  lemma OneKind(p: Patch)
    ensures !Places(p) || !AppendsTo(p)
  {
  }

  lemma KindAt(patches: seq<Patch>, h: nat, i: nat)
    requires Neat(patches, h) && i < |patches|
    ensures Places(patches[i]) <==> i < h
    ensures AppendsTo(patches[i]) <==> h <= i
  {
    hide Places, AppendsTo;
    OneKind(patches[i]);
  }

  lemma PlacedIsFirst(patches: seq<Patch>, h: nat, c: Patch)
    requires Neat(patches, h) && c in patches && Places(c)
    ensures c in patches[..h]
  {
    hide ExactPath, PlaceOf, Front;
    var i :| 0 <= i < |patches| && patches[i] == c;
    KindAt(patches, h, i);
    assert patches[..h][i] == c;
  }

  /** So the first application leaves the round's replaces linked. */
  lemma FirstLinks(spec: Json, r: Records, patches: seq<Patch>, h: nat, landed: seq<Patch>)
    requires Untouched(r, patches) && Neat(patches, h) && PlacesOnce(patches, h) && Landed(spec, r, patches, landed)
    ensures Linked(Apply(spec, r, patches).records, landed)
  {
    hide Apply, Follow, PlaceOf, Untouched, Places, Neat, PlacesOnce;
    var s := Apply(spec, r, patches);
    assert h <= |patches| && patches[..|patches|] == patches by { NeatFits(patches, h); }
    forall c, p | c in landed && p in landed && Places(c) && Places(p) && PlaceOf(c) < PlaceOf(p)
      ensures LinkedPair(s.records, c, p)
    {
      PlacedIsFirst(patches, h, c);
      PlacedIsFirst(patches, h, p);
      StillInPlace(spec, r, patches, h, |patches|, c);
      StillInPlace(spec, r, patches, h, |patches|, p);
      FollowBelow(s.records, s.doc, PlaceOf(c), PlaceOf(p));
    }
  }

  /** An append's record is in the list its path leads to inside the value of a replace above it. */
  predicate ListedIn(r: Records, c: Patch, m: Patch) {
    PlaceOf(c) <= Front(m) &&
    var found := ListOf(r, Ref(c.id), Front(m)[|PlaceOf(c)|..]);
    found.Some? && Ref(m.id) in found.value
  }

  ghost predicate Listed(r: Records, patches: seq<Patch>) {
    forall c, m :: c in patches && m in patches && Places(c) && AppendsTo(m) && PlaceOf(c) <= Front(m) ==> ListedIn(r, c, m)
  }

  /** The append finds a list, in the value model's run up to it. */
  predicate FindsList(spec: Json, patches: seq<Patch>, i: nat)
    requires i < |patches|
  {
    Appends(Run(spec, patches[..i]).doc, patches[i], Front(patches[i]))
  }

  lemma FoundIsHeld(spec: Json, r: Records, patches: seq<Patch>, i: nat)
    requires Untouched(r, patches) && i < |patches| && FindsList(spec, patches, i) && AppendsTo(patches[i])
    ensures var s := Apply(spec, r, patches[..i]); ListOf(s.records, s.doc, Front(patches[i])).Some?
  {
    hide Sound, Belongs, Step, Tag, Fits, Apply, Follow, AllBare, PlaceOf, TreeOf, View, Resolves, ValueAt, Run, FirstTime, Front, ExactPath,
      Tokens, ListOf, ObjectAt, HoldValues, AllBelong, DistinctIds;
    PrefixUntouched(r, patches, i);
    UntouchedIs(r, patches[..i]);
    FrontIs(patches[i]);
    FirstApplicationIsPlain(spec, r, patches[..i]);
    ApplySound(spec, r, patches[..i]);
    var s := Apply(spec, r, patches[..i]);
    assert Seen(s.doc, 0, 0);
    FollowIsSeen(s.records, s.doc, Front(patches[i]), 0, 0);
  }

  lemma MemberAt(patches: seq<Patch>, p: Patch) returns (i: nat)
    requires p in patches
    ensures i < |patches| && patches[i] == p
  {
    i :| 0 <= i < |patches| && patches[i] == p;
  }

  /** ... and each append listed in every placed value on its path. */
  lemma FirstLists(spec: Json, r: Records, patches: seq<Patch>, h: nat, landed: seq<Patch>)
    requires Untouched(r, patches) && Neat(patches, h) && PlacesOnce(patches, h) && Landed(spec, r, patches, landed)
    requires forall i :: h <= i < |patches| ==> FindsList(spec, patches, i)
    ensures Listed(Apply(spec, r, patches).records, landed)
  {
    hide Apply, Follow, PlaceOf, Untouched, Places, PlacesOnce, AppendsTo, Front, FindsList, ListedIn;
    forall c, m | c in landed && m in landed && Places(c) && AppendsTo(m) && PlaceOf(c) <= Front(m)
      ensures ListedIn(Apply(spec, r, patches).records, c, m)
    {
      var i := MemberAt(patches, m);
      KindAt(patches, h, i);
      FirstListsOne(spec, r, patches, h, c, i);
    }
  }

  lemma FirstListsOne(spec: Json, r: Records, patches: seq<Patch>, h: nat, c: Patch, i: nat)
    requires Untouched(r, patches) && Neat(patches, h) && PlacesOnce(patches, h) && h <= i < |patches| && FindsList(spec, patches, i)
    requires c in patches && c !in Apply(spec, r, patches).failed && Places(c) && PlaceOf(c) <= Front(patches[i])
    ensures ListedIn(Apply(spec, r, patches).records, c, patches[i])
  {
    hide Sound, Belongs, Step, Tag, Fits, Apply, Follow, AllBare, PlaceOf, TreeOf, Untouched, ExactPath, AppendsTo, Front, FindsList,
      ListOf, ObjectAt, AllGrew, Grew, PlacesOnce, Inner, AllBelong;
    var m, path := patches[i], Front(patches[i]);
    assert AppendsTo(m);
    assert patches[..|patches|] == patches;
    FrontIs(m);
    UntouchedIs(r, patches);
    PlacedIsFirst(patches, h, c);
    FoundIsHeld(spec, r, patches, i);
    StateReady(spec, r, patches, i);
    AppendStep(Apply(spec, r, patches[..i]), m);
    var s, end := Apply(spec, r, patches[..i + 1]), Apply(spec, r, patches).records;
    StillInPlace(spec, r, patches, h, i + 1, c);
    ListBelow(s.records, s.doc, PlaceOf(c), path);
    LaterGrew(spec, r, patches, h, i + 1, |patches|);
    var rest := path[|PlaceOf(c)|..];
    RestIsExact(path, |PlaceOf(c)|);
    GrewSelf(Ref(c.id));
    ListGrew(s.records, end, Ref(c.id), Ref(c.id), rest);
    assert Ref(m.id) in ListOf(s.records, Ref(c.id), rest).value;
    RefStaysIn(ListOf(s.records, Ref(c.id), rest).value, ListOf(end, Ref(c.id), rest).value, m.id);
  }

  /* ------------------------------------------------------------ the second application */

  /** The document holds a list there. */
  predicate HasList(doc: Json, path: seq<string>) {
    Resolves(doc, path) && ValueAt(doc, path).Arr?
  }

  predicate HasObject(doc: Json, path: seq<string>) {
    Resolves(doc, path) && ValueAt(doc, path).Obj?
  }

  /** The `i`-th patch goes inside a value another patch placed. */
  predicate IsInner(spec: Json, patches: seq<Patch>, i: nat)
    requires i < |patches|
  {
    Inner(TreeOf(spec, patches[..i]), patches[i])
  }

  /** What an inner append meets among the records, a reader of the first application's document meets. */
  lemma InnerIsSeen(spec: Json, r: Records, patches: seq<Patch>, h: nat, i: nat)
    requires Untouched(r, patches) && Neat(patches, h) && h <= i < |patches| && IsInner(spec, patches, i)
    ensures var q, doc := Apply(spec, r, patches).records, Run(spec, patches).doc;
            && (HasList(doc, Front(patches[i])) <==> GoesInside(spec, q, patches, i))
            && (HasObject(doc, Front(patches[i])) <==> MeetsObject(spec, q, patches, i))
  {
    hide Sound, Belongs, Step, Tag, Fits, Apply, Follow, AllBare, PlaceOf, TreeOf, Untouched, ExactPath, AppendsTo, Front,
      ListOf, ObjectAt, AllGrew, Grew, Inner, AllBelong, View, Resolves, ValueAt, Run, FirstTime, HoldValues, DistinctIds;
    var p, path, q := patches[i], Front(patches[i]), Apply(spec, r, patches).records;
    assert patches[..|patches|] == patches;
    KindAt(patches, h, i);
    FrontIs(p);
    UntouchedIs(r, patches);
    FirstApplicationIsPlain(spec, r, patches);
    ApplySound(spec, r, patches);
    TreeIsFixed(spec, r, patches);
    LaterGrew(spec, r, patches, h, i, |patches|);
    InsideStays(q, TreeOf(spec, patches[..i]), TreeOf(spec, patches), p);
    assert Seen(TreeOf(spec, patches), 0, 0);
    FollowIsSeen(q, TreeOf(spec, patches), path, 0, 0);
    ListIsThere(q, TreeOf(spec, patches), path);
  }

  lemma ListIsThere(r: Records, t: Tree, path: seq<string>)
    ensures ListOf(r, t, path).Some? || ObjectAt(r, t, path) ==> Follow(r, t, path).Some?
  {
  }

  /** A second application of a round is the value model's exactly when none of its appends finds its list, in the document
      the first one left, inside a value another patch placed; of appends that all landed, when none is inner. */
  lemma SecondApplicationIff(spec: Json, r: Records, patches: seq<Patch>, h: nat)
    requires Untouched(r, patches) && Neat(patches, h) && PlacesOnce(patches, h) && Run(spec, patches[..h]).failed == []
    requires forall i :: h <= i < |patches| && IsInner(spec, patches, i) ==> !HasObject(Run(spec, patches).doc, Front(patches[i]))
    ensures var first := Apply(spec, r, patches);
            var again := Apply(spec, first.records, patches);
            && (AsValues(again).doc == Run(spec, patches).doc <==>
                forall i :: h <= i < |patches| && IsInner(spec, patches, i) ==> !HasList(Run(spec, patches).doc, Front(patches[i])))
            && ((forall i :: h <= i < |patches| ==> FindsList(spec, patches, i)) ==>
                  (AsValues(again).doc == Run(spec, patches).doc <==> forall i :: h <= i < |patches| ==> !IsInner(spec, patches, i)))
  {
    hide Sound, Belongs, Apply, TreeOf, Untouched, View, Run, FirstTime, Inner, AllBelong, AllBare, HoldValues, DistinctIds,
      PlacesOnce, Neat, Linked, HasList, HasObject, IsInner, GoesInside, MeetsObject, FindsList, Front;
    var q := Apply(spec, r, patches).records;
    assert h <= |patches| by { NeatFits(patches, h); }
    UntouchedIs(r, patches);
    FirstApplicationIsPlain(spec, r, patches);
    ApplySound(spec, r, patches);
    TreeIsFixed(spec, r, patches);
    BelongAlike(r, q, patches);
    ReplacesLanded(spec, r, patches, h);
    FirstLinks(spec, r, patches, h, patches[..h]);
    LinkedReplaces(q, patches, h);
    forall i | h <= i < |patches|
      ensures MeetsObject(spec, q, patches, i) || GoesInside(spec, q, patches, i) ==> IsInner(spec, patches, i)
      ensures IsInner(spec, patches, i) ==>
                (HasList(Run(spec, patches).doc, Front(patches[i])) <==> GoesInside(spec, q, patches, i)) && !MeetsObject(spec, q, patches, i)
    {
      InsideIsInner(spec, q, patches, i);
      if IsInner(spec, patches, i) {
        InnerIsSeen(spec, r, patches, h, i);
      }
    }
    NextIsSameIff(spec, q, patches, h);
    if forall i :: h <= i < |patches| ==> FindsList(spec, patches, i) {
      forall i | h <= i < |patches| && IsInner(spec, patches, i)
        ensures GoesInside(spec, q, patches, i)
      {
        FoundGoesInside(spec, r, patches, h, i);
      }
    }
  }

  lemma InsideIsInner(spec: Json, q: Records, patches: seq<Patch>, i: nat)
    requires i < |patches|
    ensures MeetsObject(spec, q, patches, i) || GoesInside(spec, q, patches, i) ==> IsInner(spec, patches, i)
  {
    hide Inner, ListOf, ObjectAt, TreeOf;
  }

  /** No replace of the round is set aside, so none is when it is applied in full. */
  lemma ReplacesLanded(spec: Json, r: Records, patches: seq<Patch>, h: nat)
    requires Untouched(r, patches) && Neat(patches, h) && Run(spec, patches[..h]).failed == []
    ensures Landed(spec, r, patches, patches[..h])
  {
    hide Sound, Belongs, Apply, Untouched, View, Run, FirstTime, AllBelong, AllBare, HoldValues, Places, AppendsTo;
    PrefixUntouched(r, patches, h);
    UntouchedIs(r, patches[..h]);
    FirstApplicationIsPlain(spec, r, patches[..h]);
    assert patches[..|patches|] == patches;
    forall p | p in patches[..h]
      ensures p in patches && p !in Apply(spec, r, patches).failed
    {
      var i := MemberAt(patches[..h], p);
      KindAt(patches, h, i);
      LaterFailures(spec, r, patches, h, |patches|);
      OneKind(p);
    }
  }

  /** What is set aside after the replaces is an append. */
  lemma {:induction false} LaterFailures(spec: Json, r: Records, patches: seq<Patch>, h: nat, n: nat)
    requires Neat(patches, h) && h <= n <= |patches|
    ensures forall p :: p in Apply(spec, r, patches[..n]).failed ==> p in Apply(spec, r, patches[..h]).failed || AppendsTo(p)
    decreases n
  {
    hide Write, Tag, AppendsTo, Places;
    if h < n {
      LaterFailures(spec, r, patches, h, n - 1);
      KindAt(patches, h, n - 1);
      assert patches[..n][..n - 1] == patches[..n - 1];
    }
  }

  /** Only replaces are linked. */
  lemma LinkedReplaces(r: Records, patches: seq<Patch>, h: nat)
    requires Neat(patches, h) && Linked(r, patches[..h])
    ensures Linked(r, patches)
  {
    hide Places, AppendsTo, LinkedPair, PlaceOf;
    forall c, p | c in patches && p in patches && Places(c) && Places(p) && PlaceOf(c) < PlaceOf(p)
      ensures LinkedPair(r, c, p)
    {
      PlacedIsFirst(patches, h, c);
      PlacedIsFirst(patches, h, p);
    }
  }

  lemma FoundGoesInside(spec: Json, r: Records, patches: seq<Patch>, h: nat, i: nat)
    requires Untouched(r, patches) && Neat(patches, h) && h <= i < |patches| && FindsList(spec, patches, i) && IsInner(spec, patches, i)
    ensures GoesInside(spec, Apply(spec, r, patches).records, patches, i)
  {
    hide Sound, Belongs, Step, Tag, Fits, Apply, Follow, AllBare, PlaceOf, TreeOf, Untouched, ExactPath, AppendsTo, Front, FindsList,
      ListOf, AllGrew, Grew, Inner, AllBelong;
    KindAt(patches, h, i);
    FrontIs(patches[i]);
    UntouchedIs(r, patches);
    assert patches[..|patches|] == patches;
    FoundIsHeld(spec, r, patches, i);
    TreeIsFixed(spec, r, patches[..i]);
    LaterGrew(spec, r, patches, h, i, |patches|);
    GrewSelf(TreeOf(spec, patches[..i]));
    ListGrew(Apply(spec, r, patches[..i]).records, Apply(spec, r, patches).records, TreeOf(spec, patches[..i]),
             TreeOf(spec, patches[..i]), Front(patches[i]));
  }
}
