/** Applying a round's patches once more, to the records an earlier application left (loop/spec_review.py, `_apply_to`, as
    every drop pass calls it again and again): what that changes, when the round is made of replaces at exact places and of
    appends. */
module Reapplication {
  import opened Wrappers
  import opened Json
  import opened Strings
  import opened JsonPointer
  import opened Patches
  import opened SharedValues
  import opened RecordPaths
  import opened SpecSchema

  /* ------------------------------------------------------------ a round's own places */

  /** Replaces first, then appends, as the sort leaves them. */
  ghost predicate Neat(patches: seq<Patch>, h: nat) {
    h <= |patches| && (forall i :: 0 <= i < h ==> Places(patches[i])) && (forall i :: h <= i < |patches| ==> AppendsTo(patches[i]))
  }

  /** A replace below another lies, inside the other's value, where its pointer says. */
  predicate LinkedPair(r: Records, c: Patch, p: Patch) {
    PlaceOf(c) <= PlaceOf(p) && Follow(r, Ref(c.id), PlaceOf(p)[|PlaceOf(c)|..]) == Some(Ref(p.id))
  }

  ghost predicate Linked(r: Records, patches: seq<Patch>) {
    forall c, p :: c in patches && p in patches && Places(c) && Places(p) && PlaceOf(c) < PlaceOf(p) ==> LinkedPair(r, c, p)
  }

  lemma LinkedGrew(r: Records, q: Records, patches: seq<Patch>)
    requires AllGrew(r, q) && Linked(r, patches)
    ensures Linked(q, patches)
  {
    hide Follow, PlaceOf, AllGrew, ExactPath;
    forall c, p | c in patches && p in patches && Places(c) && Places(p) && PlaceOf(c) < PlaceOf(p)
      ensures LinkedPair(q, c, p)
    {
      assert LinkedPair(r, c, p);
      RestIsExact(PlaceOf(p), |PlaceOf(c)|);
      GrewSelf(Ref(c.id));
      RefStays(r, q, Ref(c.id), Ref(c.id), PlaceOf(p)[|PlaceOf(c)|..], p.id);
    }
  }

  /** Within the document's own containers. */
  function At(t: Tree, path: seq<string>): Option<Tree> {
    Follow(Records(map[], map[]), t, path)
  }

  lemma {:induction false} AtIsFollow(r: Records, t: Tree, path: seq<string>)
    requires At(t, path).Some?
    ensures Follow(r, t, path) == At(t, path)
  {
    hide PyInt;
    if path != [] {
      AtIsFollow(r, Child(t, path[0]).value, path[1..]);
    }
  }

  lemma {:induction false} LeavesAt(t: Tree, tokens: seq<string>) returns (n: nat, k: nat)
    requires Leaves(t, tokens)
    ensures n < |tokens| && At(t, tokens[..n]) == Some(Ref(k))
  {
    hide PyInt;
    if t.Ref? {
      n, k := 0, t.id;
    } else {
      var m: nat;
      m, k := LeavesAt(Child(t, tokens[0]).value, tokens[1..]);
      n := m + 1;
      assert tokens[..n][1..] == tokens[1..][..m];
    }
  }

  lemma {:induction false} TagHasNoRef(r: Records, j: Json, path: seq<string>)
    ensures Follow(r, Tag(j), path).Some? ==> exists k :: Follow(r, Tag(j), path) == Some(Tag(k))
  {
    hide PyInt;
    if path == [] {
      assert Follow(r, Tag(j), path) == Some(Tag(j));
    } else if Child(Tag(j), path[0]).Some? {
      match j
      case Arr(items) =>
        var at := Position(|items|, PyInt(path[0]).value).value;
        TagHasNoRef(r, items[at], path[1..]);
      case Obj(fields) =>
        TagHasNoRef(r, fields[path[0]], path[1..]);
      case _ =>
    }
  }

  lemma TagIsNoRef(j: Json)
    ensures !Tag(j).Ref?
  {
  }

  /** Of a tree built by replaces alone: each record in it lies at its own patch's place. */
  lemma {:induction false} RefIsPlaced(spec: Json, patches: seq<Patch>, path: seq<string>, k: nat)
    requires (forall p :: p in patches ==> Places(p)) && ExactPath(path)
    requires At(TreeOf(spec, patches), path) == Some(Ref(k))
    ensures exists c :: c in patches && c.id == k && PlaceOf(c) == path
  {
    hide Tag, Put, Follow, Inner, TreeOf, PlaceOf, PtrSplit, ExactPath;
    if patches == [] {
      assert TreeOf(spec, patches) == Tag(spec) by { TreeOfNone(spec); }
      TagHasNoRef(Records(map[], map[]), spec, path);
      var j :| At(TreeOf(spec, patches), path) == Some(Tag(j));
      TagIsNoRef(j);
    } else {
      var last := |patches| - 1;
      var front, p := patches[..last], patches[last];
      assert p in patches && forall c :: c in front ==> c in patches;
      TreeStep(spec, patches);
      IsSplit(p);
      if At(TreeOf(spec, front), path) == Some(Ref(k)) {
        RefIsPlaced(spec, front, path, k);
      } else {
        PutFollow(Records(map[], map[]), TreeOf(spec, front), PlaceOf(p), Ref(p.id), path);
        assert PlaceOf(p) <= path;
        AtRef(p.id, path[|PlaceOf(p)|..]);
      }
    }
  }

  lemma TreeOfNone(spec: Json)
    ensures TreeOf(spec, []) == Tag(spec)
  {
  }

  lemma AtRef(k: nat, path: seq<string>)
    ensures At(Ref(k), path) == if path == [] then Some(Ref(k)) else None
  {
  }

  /* ------------------------------------------------------------ the replaces of another attempt */

  /** Where linked replaces are applied again, one that goes into a record finds itself there. */
  lemma ReplaceAgain(spec: Json, r: Records, patches: seq<Patch>, n: nat)
    requires Sound(r) && AllBelong(r, patches) && Linked(r, patches) && n < |patches|
    requires forall i :: 0 <= i <= n ==> Places(patches[i])
    requires Apply(spec, r, patches[..n]).records == r
    ensures Apply(spec, r, patches[..n + 1]).records == r
  {
    hide Follow, Inner, TreeOf, PlaceOf, PtrSplit, ExactPath, Step, Belongs, Leaves, Sound, Fits, LinkedPair;
    var p, front, tokens := patches[n], patches[..n], PlaceOf(patches[n]);
    assert patches[..n + 1][..n] == front && patches[..n + 1][n] == p;
    var s := Apply(spec, r, front);
    TreeIsFixed(spec, r, front);
    PrefixBelongs(r, patches, n);
    ApplySound(spec, r, front);
    if Inner(s.doc, p) {
      IsSplit(p);
      var at, k := LeavesAt(s.doc, tokens) by { InnerLeaves(s.doc, p); }
      RestIsExact(tokens, at);
      assert forall c :: c in front ==> Places(c);
      RefIsPlaced(spec, front, tokens[..at], k);
      var c :| c in front && c.id == k && PlaceOf(c) == tokens[..at];
      assert c in patches && p in patches;
      assert LinkedPair(r, c, p);
      LinkedLeads(r, s.doc, c, p);
      ReplaceStays(s, p);
    } else {
      OuterStep(s, p);
    }
  }

  lemma InnerLeaves(doc: Tree, p: Patch)
    requires Inner(doc, p)
    ensures Leaves(doc, PlaceOf(p)) && PlaceOf(p) != []
  {
  }

  lemma LinkedLeads(r: Records, doc: Tree, c: Patch, p: Patch)
    requires LinkedPair(r, c, p) && At(doc, PlaceOf(c)) == Some(Ref(c.id))
    ensures Follow(r, doc, PlaceOf(p)) == Some(Ref(p.id))
  {
    hide Follow, PlaceOf;
    AtIsFollow(r, doc, PlaceOf(c));
    FollowBelow(r, doc, PlaceOf(c), PlaceOf(p));
  }

  lemma PrefixBelongs(r: Records, patches: seq<Patch>, n: nat)
    requires AllBelong(r, patches) && n <= |patches|
    ensures AllBelong(r, patches[..n])
    ensures n < |patches| ==> Belongs(r, patches[n])
  {
    hide Belongs;
  }

  lemma {:induction false} ReplacesStay(spec: Json, r: Records, patches: seq<Patch>, n: nat)
    requires Sound(r) && AllBelong(r, patches) && Linked(r, patches) && n <= |patches|
    requires forall i :: 0 <= i < n ==> Places(patches[i])
    ensures Apply(spec, r, patches[..n]).records == r
  {
    hide Sound, Belongs, Linked, Step, Tag;
    if n > 0 {
      ReplacesStay(spec, r, patches, n - 1);
      ReplaceAgain(spec, r, patches, n - 1);
    }
  }

  /* ------------------------------------------------------------ the appends of another attempt */

  /** The attempt just before the `n`-th patch. */
  lemma StateReady(spec: Json, r: Records, patches: seq<Patch>, n: nat)
    requires Sound(r) && AllBelong(r, patches) && n < |patches|
    ensures var s := Apply(spec, r, patches[..n]);
            && Ready(s, patches[n]) && s.doc == TreeOf(spec, patches[..n]) && s.records.names == r.names
            && Apply(spec, r, patches[..n + 1]) == Step(s, patches[n])
  {
    hide Sound, Belongs, Step, Tag, Fits, TreeOf;
    assert patches[..n + 1][..n] == patches[..n] && patches[..n + 1][n] == patches[n];
    PrefixBelongs(r, patches, n);
    ApplySound(spec, r, patches[..n]);
    TreeIsFixed(spec, r, patches[..n]);
    SameNamesBelong(r, Apply(spec, r, patches[..n]).records, patches[n]);
  }

  /** Through the appends the tree and the records only grow. */
  lemma {:induction false} LaterGrew(spec: Json, r: Records, patches: seq<Patch>, h: nat, m: nat, n: nat)
    requires Sound(r) && AllBelong(r, patches) && Neat(patches, h) && h <= m <= n <= |patches|
    ensures AllGrew(Apply(spec, r, patches[..m]).records, Apply(spec, r, patches[..n]).records)
    ensures Grew(TreeOf(spec, patches[..m]), TreeOf(spec, patches[..n]))
    decreases n
  {
    hide Sound, Belongs, Step, Tag, Fits, TreeOf, Apply, AllGrew, Grew, AppendsTo, Places;
    var a := Apply(spec, r, patches[..m]);
    if m == n {
      AllGrewSelf(a.records);
      GrewSelf(TreeOf(spec, patches[..m]));
    } else {
      LaterGrew(spec, r, patches, h, m, n - 1);
      StateReady(spec, r, patches, n - 1);
      var s := Apply(spec, r, patches[..n - 1]);
      AppendStep(s, patches[n - 1]);
      TreeIsFixed(spec, r, patches[..n]);
      AllGrewTwice(a.records, s.records, Apply(spec, r, patches[..n]).records);
      GrewTwice(TreeOf(spec, patches[..m]), TreeOf(spec, patches[..n - 1]), TreeOf(spec, patches[..n]));
    }
  }

  /** The `m`-th patch goes into a list inside a value another patch placed. */
  predicate GoesInside(spec: Json, r: Records, patches: seq<Patch>, m: nat)
    requires m < |patches|
  {
    Inner(TreeOf(spec, patches[..m]), patches[m]) && ListOf(r, TreeOf(spec, patches[..m]), Front(patches[m])).Some?
  }

  ghost predicate NoneGoesInside(spec: Json, r: Records, patches: seq<Patch>, h: nat) {
    forall m :: h <= m < |patches| ==> !GoesInside(spec, r, patches, m)
  }

  /** No patch that goes inside a placed value finds an object there: appending to one sets its field `-`. */
  ghost predicate NoneMeetsObject(spec: Json, r: Records, patches: seq<Patch>, h: nat) {
    forall m :: h <= m < |patches| ==> !MeetsObject(spec, r, patches, m)
  }

  predicate MeetsObject(spec: Json, r: Records, patches: seq<Patch>, m: nat)
    requires m < |patches|
  {
    Inner(TreeOf(spec, patches[..m]), patches[m]) && ObjectAt(r, TreeOf(spec, patches[..m]), Front(patches[m]))
  }

  /** When no append finds its list inside a placed value, the attempt leaves the records as they are. */
  lemma {:induction false} NothingInside(spec: Json, r: Records, patches: seq<Patch>, h: nat, n: nat)
    requires Sound(r) && AllBelong(r, patches) && Neat(patches, h) && Linked(r, patches) && h <= n <= |patches|
    requires NoneGoesInside(spec, r, patches, h) && NoneMeetsObject(spec, r, patches, h)
    ensures Apply(spec, r, patches[..n]).records == r
    decreases n
  {
    hide Sound, Belongs, Step, Tag, Fits, TreeOf, Apply, Linked, Inner, Places, AppendsTo, ListOf, ObjectAt;
    if n == h {
      ReplacesStay(spec, r, patches, h);
    } else {
      NothingInside(spec, r, patches, h, n - 1);
      StateReady(spec, r, patches, n - 1);
      assert !GoesInside(spec, r, patches, n - 1) && !MeetsObject(spec, r, patches, n - 1);
      AppendStep(Apply(spec, r, patches[..n - 1]), patches[n - 1]);
    }
  }

  /** An append inside a placed value makes its list longer than it was before the attempt. */
  lemma OneInside(spec: Json, r: Records, patches: seq<Patch>, h: nat, m: nat)
    requires Sound(r) && AllBelong(r, patches) && Neat(patches, h) && Linked(r, patches) && h <= m < |patches|
    requires GoesInside(spec, r, patches, m)
    ensures var tree, path, q := TreeOf(spec, patches), Front(patches[m]), Apply(spec, r, patches).records;
            && ExactPath(path) && ListOf(r, tree, path).Some? && ListOf(q, tree, path).Some?
            && |ListOf(q, tree, path).value| > |ListOf(r, tree, path).value|
  {
    hide Sound, Belongs, Step, Tag, Fits, TreeOf, Apply, Linked, Inner, Places, ListOf, AllGrew, Grew, ExactPath, PlaceOf, Front;
    var p, path, whole := patches[m], Front(patches[m]), patches[..|patches|];
    assert whole == patches;
    assert AppendsTo(p);
    FrontIs(p);
    StateReady(spec, r, patches, m);
    var s, next := Apply(spec, r, patches[..m]), Apply(spec, r, patches[..m + 1]);
    ReplacesStay(spec, r, patches, h);
    LaterGrew(spec, r, patches, h, h, m);
    GrewSelf(s.doc);
    ListGrew(r, s.records, s.doc, s.doc, path);
    AppendStep(s, p);
    LaterGrew(spec, r, patches, h, m, |patches|);
    LaterGrew(spec, r, patches, h, m + 1, |patches|);
    TreeIsFixed(spec, r, patches[..m + 1]);
    ListGrew(next.records, Apply(spec, r, whole).records, next.doc, TreeOf(spec, whole), path);
    InsideStays(r, s.doc, TreeOf(spec, whole), p);
    GrewIsLonger(ListOf(r, s.doc, path).value, ListOf(s.records, s.doc, path).value);
    GrewIsLonger(ListOf(next.records, next.doc, path).value, ListOf(Apply(spec, r, whole).records, TreeOf(spec, whole), path).value);
  }

  lemma GrewIsLonger(a: seq<Tree>, b: seq<Tree>)
    requires Grew(List(a), List(b))
    ensures |a| <= |b|
  {
  }

  /** A list inside a record is reached through it however the document's own containers grow. */
  lemma InsideStays(r: Records, doc: Tree, grown: Tree, p: Patch)
    requires Inner(doc, p) && AppendsTo(p) && Grew(doc, grown)
    ensures ListOf(r, grown, Front(p)) == ListOf(r, doc, Front(p))
    ensures ObjectAt(r, grown, Front(p)) <==> ObjectAt(r, doc, Front(p))
  {
    hide Follow, ListOf, ObjectAt, Grew, ExactPath, PlaceOf, Front, Leaves;
    var path := Front(p);
    FrontIs(p);
    var n, k := LeavesAt(doc, PlaceOf(p)) by { InnerLeaves(doc, p); }
    assert path[..n] == PlaceOf(p)[..n];
    AtIsFollow(r, doc, path[..n]);
    AllGrewSelf(r);
    RestIsExact(path, n);
    RefStays(r, r, doc, grown, path[..n], k);
    ListBelow(r, doc, path[..n], path);
    ListBelow(r, grown, path[..n], path);
  }

  /* ------------------------------------------------------------ what a reader sees of it */

  /** What a reader finds at the end of an exact path. */
  ghost predicate SeenAlike(r: Records, t: Tree, path: seq<string>, doc: Json) {
    && (Resolves(doc, path) <==> Follow(r, t, path).Some?)
    && (Resolves(doc, path) ==>
          && (ValueAt(doc, path).Arr? <==> ListOf(r, t, path).Some?)
          && (ValueAt(doc, path).Arr? ==> |ValueAt(doc, path).items| == |ListOf(r, t, path).value|)
          && (ValueAt(doc, path).Obj? <==> ObjectAt(r, t, path)))
  }

  lemma {:induction false} FollowIsSeen(r: Records, t: Tree, path: seq<string>, d: nat, depth: nat)
    requires Sound(r) && Fits(r.names, t, depth) && Seen(t, d, depth) && ExactPath(path)
    ensures SeenAlike(r, t, path, View(r, t, d))
    decreases |path|, if t.Ref? then 1 else 0
  {
    hide PyInt, View, Exact, Canonical, Fits, Follow, Resolves, ValueAt;
    if t.Ref? {
      FitsAtRef(r.names, t, depth);
      RefIsSeen(r, t.id, d);
      FollowIsSeen(r, r.values[t.id], path, |r.names[t.id]|, |r.names[t.id]|);
      SeenThroughRef(r, t.id, path, View(r, t, d));
    } else if path == [] {
      SeenHere(r, t, d);
    } else {
      RestIsExact(path, 1);
      ExactChildIsSeen(r, t, path[0], d);
      if Child(t, path[0]).Some? {
        ChildFits(r.names, t, path[0], depth);
        FitsAtRef(r.names, Child(t, path[0]).value, depth + 1);
        FollowIsSeen(r, Child(t, path[0]).value, path[1..], d, depth + 1);
      }
      SeenThroughChild(r, t, path, d);
    }
  }

  lemma SeenThroughRef(r: Records, k: nat, path: seq<string>, doc: Json)
    requires k in r.values && !r.values[k].Ref? && SeenAlike(r, r.values[k], path, doc)
    ensures SeenAlike(r, Ref(k), path, doc)
  {
    hide Resolves, ValueAt;
  }

  lemma SeenHere(r: Records, t: Tree, d: nat)
    requires !t.Ref?
    ensures SeenAlike(r, t, [], View(r, t, d))
  {
  }

  lemma ExactChildIsSeen(r: Records, t: Tree, token: string, d: nat)
    requires !t.Ref? && Exact(token)
    ensures View(r, t, d).Arr? && Canonical(token) && ParseNat(token) < |View(r, t, d).items| ==>
              Child(t, token).Some? && View(r, t, d).items[ParseNat(token)] == View(r, Child(t, token).value, d)
    ensures View(r, t, d).Obj? && token in View(r, t, d).fields ==>
              Child(t, token).Some? && View(r, t, d).fields[token] == View(r, Child(t, token).value, d)
    ensures Child(t, token).Some? ==>
              if View(r, t, d).Arr? then Canonical(token) && ParseNat(token) < |View(r, t, d).items|
              else View(r, t, d).Obj? && token in View(r, t, d).fields
  {
    hide PyInt, View, Exact;
    ChildIsSeen(r, t, token, d);
    if PyInt(token).Some? {
      match View(r, t, d)
      case Arr(items) => ExactPosition(token, |items|);
      case _ =>
    }
    CanonicalParses(token);
  }

  lemma CanonicalParses(token: string)
    ensures Canonical(token) ==> PyInt(token) == Some(ParseNat(token))
  {
  }

  lemma SeenThroughChild(r: Records, t: Tree, path: seq<string>, d: nat)
    requires path != [] && !t.Ref? && Exact(path[0])
    requires Child(t, path[0]).Some? ==> SeenAlike(r, Child(t, path[0]).value, path[1..], View(r, Child(t, path[0]).value, d))
    ensures SeenAlike(r, t, path, View(r, t, d))
  {
    hide View, Child, Exact, Canonical;
    ExactChildIsSeen(r, t, path[0], d);
  }

  /** One more attempt at a round, from records in which its replaces are linked: it shows what was there before exactly
      when no append finds its list inside a value another patch placed, and then the records stay as they are. */
  lemma NextIsSameIff(spec: Json, r: Records, patches: seq<Patch>, h: nat)
    requires Sound(r) && AllBelong(r, patches) && Neat(patches, h) && Linked(r, patches) && NoneMeetsObject(spec, r, patches, h)
    ensures var next := Apply(spec, r, patches);
            && next.doc == TreeOf(spec, patches)
            && (AsValues(next).doc == View(r, TreeOf(spec, patches), 0) <==> NoneGoesInside(spec, r, patches, h))
            && (next.records == r <==> NoneGoesInside(spec, r, patches, h))
  {
    hide Sound, Belongs, Apply, Linked, GoesInside, MeetsObject, TreeOf, View, ListOf, Fits, ExactPath, Neat;
    assert patches[..|patches|] == patches;
    TreeIsFixed(spec, r, patches);
    if NoneGoesInside(spec, r, patches, h) {
      assert h <= |patches| by { NeatFits(patches, h); }
      NothingInside(spec, r, patches, h, |patches|);
    } else {
      var m :| h <= m < |patches| && GoesInside(spec, r, patches, m);
      OneInside(spec, r, patches, h, m);
      ApplySound(spec, r, patches);
      var q, tree, path := Apply(spec, r, patches).records, TreeOf(spec, patches), Front(patches[m]);
      FollowIsSeen(r, tree, path, 0, 0) by { assert Seen(tree, 0, 0); }
      FollowIsSeen(q, tree, path, 0, 0);
      ListIsArrived(r, tree, path);
      ListIsArrived(q, tree, path);
    }
  }

  lemma NeatFits(patches: seq<Patch>, h: nat)
    requires Neat(patches, h)
    ensures h <= |patches|
  {
  }

  lemma ListIsArrived(r: Records, t: Tree, path: seq<string>)
    requires ListOf(r, t, path).Some?
    ensures Follow(r, t, path).Some?
  {
  }

  /* ------------------------------------------------------------ what an attempt repeats */

  /** Lists may hold records more than once that they held before. */
  ghost predicate Doubled(t: Tree, u: Tree) {
    match t
    case Leaf(_) => u == t
    case Ref(_) => u == t
    case List(items) =>
      u.List? && |items| <= |u.items| && (forall i :: 0 <= i < |items| ==> Doubled(items[i], u.items[i])) &&
      forall i :: |items| <= i < |u.items| ==> u.items[i].Ref? && u.items[i] in items
    case Dict(fields) => u.Dict? && u.fields.Keys == fields.Keys && forall f :: f in fields ==> Doubled(fields[f], u.fields[f])
  }

  ghost predicate AllDoubled(r: Records, q: Records) {
    r.names == q.names && r.values.Keys == q.values.Keys && forall k :: k in r.values ==> Doubled(r.values[k], q.values[k])
  }

  lemma {:induction false} DoubledSelf(t: Tree)
    ensures Doubled(t, t)
  {
    match t
    case Leaf(_) =>
    case Ref(_) =>
    case List(items) => forall i | 0 <= i < |items| ensures Doubled(items[i], items[i]) { DoubledSelf(items[i]); }
    case Dict(fields) => forall f | f in fields ensures Doubled(fields[f], fields[f]) { DoubledSelf(fields[f]); }
  }

  lemma {:induction false} DoubledTwice(t: Tree, u: Tree, w: Tree)
    requires Doubled(t, u) && Doubled(u, w)
    ensures Doubled(t, w)
  {
    match t
    case Leaf(_) =>
    case Ref(_) =>
    case List(items) =>
      forall i | 0 <= i < |items| ensures Doubled(items[i], w.items[i]) { DoubledTwice(items[i], u.items[i], w.items[i]); }
      forall i | |items| <= i < |w.items|
        ensures w.items[i].Ref? && w.items[i] in items
      {
        if i < |u.items| {
          assert Doubled(u.items[i], w.items[i]);
        } else {
          var j :| 0 <= j < |u.items| && u.items[j] == w.items[i];
          if j < |items| {
            RefWasThere(items[j], u.items[j]);
          }
        }
      }
    case Dict(fields) =>
      forall f | f in fields ensures Doubled(fields[f], w.fields[f]) { DoubledTwice(fields[f], u.fields[f], w.fields[f]); }
  }

  lemma RefWasThere(t: Tree, u: Tree)
    requires Doubled(t, u) && u.Ref?
    ensures t == u
  {
  }

  lemma AllDoubledSelf(r: Records)
    ensures AllDoubled(r, r)
  {
    forall k | k in r.values ensures Doubled(r.values[k], r.values[k]) { DoubledSelf(r.values[k]); }
  }

  lemma AllDoubledTwice(r: Records, q: Records, s: Records)
    requires AllDoubled(r, q) && AllDoubled(q, s)
    ensures AllDoubled(r, s)
  {
    forall k | k in r.values ensures Doubled(r.values[k], s.values[k]) { DoubledTwice(r.values[k], q.values[k], s.values[k]); }
  }

  /** To a reader, elements are repeated. */
  lemma {:induction false} DoubledIsSeen(r: Records, q: Records, t: Tree, u: Tree, d: nat)
    requires AllDoubled(r, q) && Doubled(t, u)
    ensures Repeats(View(r, t, d), View(q, u, d))
    decreases Deeper(r, d), t
  {
    match t
    case Leaf(_) =>
    case List(items) =>
      forall i | 0 <= i < |items|
        ensures Repeats(View(r, items[i], d), View(q, u.items[i], d))
      {
        DoubledIsSeen(r, q, items[i], u.items[i], d);
      }
      var seen := View(q, u, d).items;
      forall i | |items| <= i < |seen|
        ensures seen[i] in seen[..|items|]
      {
        var j :| 0 <= j < |items| && items[j] == u.items[i];
        assert Doubled(items[j], u.items[j]);
        assert seen[..|items|][j] == seen[i];
      }
    case Dict(fields) =>
      forall f | f in fields
        ensures Repeats(View(r, fields[f], d), View(q, u.fields[f], d))
      {
        DoubledIsSeen(r, q, fields[f], u.fields[f], d);
      }
    case Ref(k) =>
      if k in r.values && k in Deeper(r, d) {
        assert k !in Deeper(r, |r.names[k]|) && Deeper(r, |r.names[k]|) <= Deeper(r, d);
        DoubledIsSeen(r, q, r.values[k], q.values[k], |r.names[k]|);
      }
  }

  /** An append to a list that holds its record already. */
  lemma {:induction false} PutDoubles(r: Records, t: Tree, path: seq<string>, v: Tree)
    requires ExactPath(path) && !Leaves(t, path + ["-"]) && v.Ref?
    requires Follow(r, t, path).Some? && Follow(r, t, path).value.List? && v in Follow(r, t, path).value.items
    ensures Put(t, path + ["-"], v, Add).Some? && Doubled(t, Put(t, path + ["-"], v, Add).value)
  {
    hide PyInt, Exact, Canonical;
    var tokens := path + ["-"];
    if path == [] {
      assert tokens == ["-"];
      forall i | 0 <= i < |t.items| ensures Doubled(t.items[i], t.items[i]) { DoubledSelf(t.items[i]); }
    } else {
      assert tokens[0] == path[0] && tokens[1..] == path[1..] + ["-"] && |tokens| > 1;
      var child := Child(t, path[0]).value;
      RestIsExact(path, 1);
      PutDoubles(r, child, path[1..], v);
      WithChildDoubled(t, path[0], Put(child, tokens[1..], v, Add).value);
    }
  }

  lemma WithChildDoubled(t: Tree, token: string, child: Tree)
    requires Child(t, token).Some? && Doubled(Child(t, token).value, child)
    ensures Doubled(t, WithChild(t, token, child))
  {
    hide PyInt;
    match t
    case List(items) => forall i | 0 <= i < |items| ensures Doubled(items[i], items[i]) { DoubledSelf(items[i]); }
    case Dict(fields) => forall f | f in fields ensures Doubled(fields[f], fields[f]) { DoubledSelf(fields[f]); }
  }

  lemma AppendDoubles(s: State, p: Patch)
    requires Ready(s, p) && AppendsTo(p) && Inner(s.doc, p)
    requires ListOf(s.records, s.doc, Front(p)).Some? && Ref(p.id) in ListOf(s.records, s.doc, Front(p)).value
    ensures AllDoubled(s.records, Step(s, p).records)
  {
    hide Put, Enter, Leaves, PtrSplit, Fits, Follow, ExactPath, PlaceOf, Front, ListOf, ObjectAt, Doubled;
    var r, tokens, path := s.records, PlaceOf(p), Front(p);
    FrontIs(p);
    IsSplit(p);
    EnterIffLeaves(r, s.doc, tokens);
    EnterFollow(r, s.doc, tokens, 0);
    var e := Enter(r, s.doc, tokens).value;
    var n := |tokens| - |e.rest|;
    assert path[..n] == tokens[..n] && path[n..] + ["-"] == e.rest;
    RestIsExact(path, n);
    ListBelow(r, s.doc, path[..n], path);
    ListThrough(r, e.id, path[n..]);
    PutAppend(r, r.values[e.id], path[n..], Ref(p.id));
    ListHere(r, r.values[e.id], path[n..]);
    PutDoubles(r, r.values[e.id], path[n..], Ref(p.id));
    AllDoubledSelf(r);
  }

  /** Every append that goes inside a placed value goes to a list that holds its record already. */
  ghost predicate AllThere(spec: Json, r: Records, patches: seq<Patch>, h: nat) {
    forall m :: h <= m < |patches| && Inner(TreeOf(spec, patches[..m]), patches[m]) ==> There(spec, r, patches, m)
  }

  predicate There(spec: Json, r: Records, patches: seq<Patch>, m: nat)
    requires m < |patches|
  {
    var found := ListOf(r, TreeOf(spec, patches[..m]), Front(patches[m]));
    found.Some? && Ref(patches[m].id) in found.value
  }

  /** Then one more attempt only repeats elements. */
  lemma {:induction false} AttemptDoubles(spec: Json, r: Records, patches: seq<Patch>, h: nat, n: nat)
    requires Sound(r) && AllBelong(r, patches) && Neat(patches, h) && Linked(r, patches) && AllThere(spec, r, patches, h)
    requires h <= n <= |patches|
    ensures AllDoubled(r, Apply(spec, r, patches[..n]).records)
    decreases n
  {
    hide Sound, Belongs, Step, Tag, Fits, TreeOf, Apply, Linked, Inner, Places, AppendsTo, ListOf, AllDoubled, AllGrew, Grew, Front;
    if n == h {
      ReplacesStay(spec, r, patches, h);
      AllDoubledSelf(r);
    } else {
      var s, p := Apply(spec, r, patches[..n - 1]), patches[n - 1];
      AttemptDoubles(spec, r, patches, h, n - 1);
      StateReady(spec, r, patches, n - 1);
      AppendStep(s, p);
      if Inner(s.doc, p) {
        assert There(spec, r, patches, n - 1);
        ReplacesStay(spec, r, patches, h);
        LaterGrew(spec, r, patches, h, h, n - 1);
        FrontIs(p);
        GrewSelf(s.doc);
        ListGrew(r, s.records, s.doc, s.doc, Front(p));
        RefStaysIn(ListOf(r, s.doc, Front(p)).value, ListOf(s.records, s.doc, Front(p)).value, p.id);
        AppendDoubles(s, p);
        AllDoubledTwice(r, s.records, Step(s, p).records);
      }
    }
  }

  lemma RefStaysIn(a: seq<Tree>, b: seq<Tree>, k: nat)
    requires Grew(List(a), List(b)) && Ref(k) in a
    ensures Ref(k) in b
  {
    var i :| 0 <= i < |a| && a[i] == Ref(k);
    assert Grew(a[i], b[i]);
  }
}
