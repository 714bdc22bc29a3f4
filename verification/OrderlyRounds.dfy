/** Rounds of replaces at distinct places and of appends to lists of the spec (loop/spec_review.py, `_apply_to` under the
    drop passes): what one more attempt at any part of such a round changes. */
module OrderlyRounds {
  import opened Wrappers
  import opened Json
  import Strings
  import opened JsonPointer
  import opened Patches
  import opened SharedValues
  import opened RecordPaths
  import opened SpecSchema
  import opened Reapplication
  import opened PlacedValues
  import FirstApplication
  import ReviewGates

  /* ------------------------------------------------------------ tidy rounds */

  /** Its pointer is written as section 3 of RFC 6901 says, and it replaces one place or appends to a list. */
  predicate Tidy(p: Patch) {
    p.pointer == Render(PlaceOf(p)) && (Places(p) || AppendsTo(p))
  }

  /** ... and no two replaces share a place. */
  ghost predicate TidyRound(patches: seq<Patch>) {
    (forall p :: p in patches ==> Tidy(p)) &&
    forall p, q :: p in patches && q in patches && Places(p) && Places(q) && PlaceOf(p) == PlaceOf(q) ==> p.id == q.id
  }

  /** Sorting such a round puts its replaces first, none after one below it. */
  lemma SortedIsNeat(patches: seq<Patch>) returns (h: nat)
    requires TidyRound(patches) && DistinctIds(patches)
    ensures Neat(SortPatches(patches), h) && PlacesOnce(SortPatches(patches), h)
    ensures DistinctIds(SortPatches(patches))
    ensures forall p :: p in SortPatches(patches) <==> p in patches
  {
    hide SortPatches, Ordered, Places, AppendsTo, PlaceOf, DistinctIds;
    var sorted := SortPatches(patches);
    SortIsOrdered(patches);
    forall p ensures p in sorted <==> p in patches { SameMembers(sorted, patches, p); }
    h := FirstAdd(sorted);
    forall i | 0 <= i < |sorted|
      ensures i < h ==> Places(sorted[i])
      ensures h <= i ==> AppendsTo(sorted[i])
    {
      assert Tidy(sorted[i]);
      TidyKind(sorted[i]);
    }
    PermutedDistinct(patches, sorted);
    forall i, j | 0 <= i < j < h
      ensures !(PlaceOf(sorted[j]) <= PlaceOf(sorted[i]))
    {
      PlacesApart(patches, sorted, i, j);
    }
  }

  lemma TidyKind(p: Patch)
    requires Tidy(p)
    ensures p.op == Replace ==> Places(p)
    ensures p.op == Add ==> AppendsTo(p)
  {
  }

  lemma FirstAdd(sorted: seq<Patch>) returns (h: nat)
    requires Ordered(sorted)
    ensures h <= |sorted|
    ensures forall i :: 0 <= i < |sorted| ==> (sorted[i].op == Replace <==> i < h)
  {
    h := 0;
    while h < |sorted| && sorted[h].op == Replace
      invariant h <= |sorted| && forall i :: 0 <= i < h ==> sorted[i].op == Replace
    {
      h := h + 1;
    }
    forall i | h <= i < |sorted|
      ensures sorted[i].op == Add
    {
      if i > h {
        assert !Before(sorted[i], sorted[h]);
      }
    }
  }

  lemma {:induction false} PermutedDistinct(a: seq<Patch>, b: seq<Patch>)
    requires DistinctIds(a) && multiset(a) == multiset(b)
    ensures DistinctIds(b)
  {
    forall i, j | 0 <= i < j < |b|
      ensures b[i].id != b[j].id
    {
      if b[i].id == b[j].id {
        SameMembers(b, a, b[i]);
        SameMembers(b, a, b[j]);
        OneOfEach(a, b[i]);
        TwoOf(b, i, j);
      }
    }
  }

  /** Of patches with distinct ids each occurs once, and no two share one. */
  lemma {:induction false} OneOfEach(a: seq<Patch>, p: Patch)
    requires DistinctIds(a)
    ensures multiset(a)[p] <= 1
    ensures p in a ==> forall q :: q in a && q.id == p.id ==> q == p
  {
    if a != [] {
      var last := |a| - 1;
      assert a == a[..last] + [a[last]];
      OneOfEach(a[..last], p);
      assert a[last] !in a[..last];
      if p == a[last] {
        assert p !in multiset(a[..last]);
      }
    }
  }

  lemma TwoOf(b: seq<Patch>, i: nat, j: nat)
    requires i < j < |b| && b[i] == b[j]
    ensures multiset(b)[b[i]] >= 2
  {
    assert b == b[..j] + [b[j]] + b[j + 1..];
    assert b[i] in b[..j];
    assert multiset(b[..j])[b[i]] >= 1;
  }

  lemma PlacesApart(patches: seq<Patch>, sorted: seq<Patch>, i: nat, j: nat)
    requires TidyRound(patches) && Ordered(sorted) && DistinctIds(sorted) && i < j < |sorted|
    requires forall p :: p in sorted <==> p in patches
    requires Places(sorted[i]) && Places(sorted[j])
    ensures !(PlaceOf(sorted[j]) <= PlaceOf(sorted[i]))
  {
    hide Places, AppendsTo, PlaceOf, Before, Render;
    var a, b := sorted[i], sorted[j];
    assert a in patches && b in patches && a.id != b.id && !Before(b, a);
    assert PlaceOf(b) <= PlaceOf(a) ==> PlaceOf(b) < PlaceOf(a) || PlaceOf(b) == PlaceOf(a);
    if PlaceOf(b) < PlaceOf(a) {
      AboveComesFirst(b, a);
    }
  }

  lemma AboveComesFirst(a: Patch, b: Patch)
    requires Tidy(a) && Tidy(b) && Places(a) && Places(b) && PlaceOf(a) < PlaceOf(b)
    ensures Before(a, b)
  {
    hide PlaceOf, Render, Before;
    ReviewGates.BelowIsPrefix(PlaceOf(a), PlaceOf(b));
    assert (a.pointer + "/")[..|a.pointer|] == a.pointer;
    assert b.pointer[..|a.pointer|] == b.pointer[..|a.pointer| + 1][..|a.pointer|];
    assert b.pointer[..|a.pointer| + 1] == a.pointer + "/";
    AboveIsBefore(a, b);
  }

  /* ------------------------------------------------------------ what is inside what */

  /** An append to a list inside the place of a replace. */
  predicate Inside(c: Patch, m: Patch) {
    Places(c) && AppendsTo(m) && PlaceOf(c) <= Front(m)
  }

  ghost predicate NoneInside(patches: seq<Patch>) {
    forall c, m :: c in patches && m in patches ==> !Inside(c, m)
  }

  /** The path names no element past the end of a list, as far as the document has it. */
  predicate Within(j: Json, path: seq<string>) {
    path == [] ||
    match j
    case Arr(items) =>
      Strings.Canonical(path[0]) ==>
        Strings.ParseNat(path[0]) < |items| && Within(items[Strings.ParseNat(path[0])], path[1..])
    case Obj(fields) => path[0] in fields ==> Within(fields[path[0]], path[1..])
    case _ => true
  }

  lemma {:induction false} HasIsWithin(j: Json, path: seq<string>)
    requires Resolves(j, path)
    ensures Within(j, path)
  {
    if path != [] {
      match j
      case Arr(items) => HasIsWithin(items[Strings.ParseNat(path[0])], path[1..]);
      case Obj(fields) => HasIsWithin(fields[path[0]], path[1..]);
    }
  }

  /** A tree of replaces over the document: what is not a record is as the document has it. */
  ghost predicate Covers(t: Tree, u: Tree) {
    u.Ref? ||
    match t
    case Leaf(_) => u == t
    case Ref(_) => u == t
    case List(items) => u.List? && |u.items| == |items| && forall i :: 0 <= i < |items| ==> Covers(items[i], u.items[i])
    case Dict(fields) =>
      u.Dict? && (forall f :: f in fields ==> f in u.fields && Covers(fields[f], u.fields[f]))
      && forall f :: f in u.fields ==> f in fields || u.fields[f].Ref?
  }

  lemma {:induction false} CoversSelf(t: Tree)
    ensures Covers(t, t)
  {
    match t
    case Leaf(_) =>
    case Ref(_) =>
    case List(items) => forall i | 0 <= i < |items| ensures Covers(items[i], items[i]) { CoversSelf(items[i]); }
    case Dict(fields) => forall f | f in fields ensures Covers(fields[f], fields[f]) { CoversSelf(fields[f]); }
  }

  lemma {:induction false} CoversPut(t: Tree, u: Tree, tokens: seq<string>, id: nat)
    requires Covers(t, u) && ExactPath(tokens) && Put(u, tokens, Ref(id), Replace).Some?
    ensures Covers(t, Put(u, tokens, Ref(id), Replace).value)
    decreases |tokens|
  {
    hide PyInt, Exact;
    PutNotAtRef(u, tokens, Ref(id), Replace);
    if |tokens| == 1 {
      ExactIsNoEnd(tokens[0]);
    } else {
      RestIsExact(tokens, 1);
      var child := Child(u, tokens[0]).value;
      match t
      case List(items) =>
        var at := Position(|items|, PyInt(tokens[0]).value).value;
        assert Covers(items[at], u.items[at]);
        CoversPut(items[at], child, tokens[1..], id);
      case Dict(fields) =>
        if tokens[0] in fields {
          CoversPut(fields[tokens[0]], child, tokens[1..], id);
        }
      case _ =>
    }
  }

  lemma {:induction false} TreeCovers(spec: Json, patches: seq<Patch>)
    requires forall p :: p in patches ==> Places(p)
    ensures Covers(Tag(spec), TreeOf(spec, patches))
  {
    hide Tag, Put, Inner, TreeOf, PlaceOf, PtrSplit, ExactPath, Covers;
    if patches == [] {
      TreeOfNone(spec);
      CoversSelf(Tag(spec));
    } else {
      var front, p := patches[..|patches| - 1], patches[|patches| - 1];
      assert p in patches && forall c :: c in front ==> c in patches;
      TreeCovers(spec, front);
      TreeStep(spec, patches);
      IsSplit(p);
      if Put(TreeOf(spec, front), PlaceOf(p), Ref(p.id), Replace).Some? {
        CoversPut(Tag(spec), TreeOf(spec, front), PlaceOf(p), p.id);
      }
    }
  }

  /** Of such a path: appends give a walk no record to leave through that it had not before them. */
  lemma {:induction false} WithinWalk(j: Json, t: Tree, u: Tree, path: seq<string>)
    requires Covers(Tag(j), t) && Grew(t, u) && ExactPath(path) && Within(j, path) && Leaves(u, path + ["-"])
    ensures Leaves(t, path + ["-"])
    decreases |path|
  {
    hide PyInt, Exact;
    var tokens := path + ["-"];
    if path != [] && !t.Ref? {
      assert tokens[0] == path[0] && tokens[1..] == path[1..] + ["-"] && |tokens| > 1;
      RestIsExact(path, 1);
      ExactIsNoEnd(path[0]);
      match j
      case Arr(items) =>
        ExactPosition(path[0], |t.items|);
        ExactPosition(path[0], |u.items|);
        var at := Strings.ParseNat(path[0]);
        assert Covers(Tag(items[at]), t.items[at]) && Grew(t.items[at], u.items[at]);
        WithinWalk(items[at], t.items[at], u.items[at], path[1..]);
      case Obj(fields) =>
        assert path[0] in t.fields && Grew(t.fields[path[0]], u.fields[path[0]]);
        if path[0] in fields {
          assert Covers(Tag(fields[path[0]]), t.fields[path[0]]);
          WithinWalk(fields[path[0]], t.fields[path[0]], u.fields[path[0]], path[1..]);
        } else {
          RecordLeaves(t.fields[path[0]], path[1..] + ["-"]);
        }
      case _ =>
    }
  }

  lemma RecordLeaves(t: Tree, tokens: seq<string>)
    requires t.Ref? && tokens != []
    ensures Leaves(t, tokens)
  {
  }

  /** A walk leaves the document's own containers exactly when some part of its path ends in a record. */
  lemma {:induction false} LeavesIff(t: Tree, path: seq<string>)
    ensures Leaves(t, path + ["-"]) <==> exists n :: 0 <= n <= |path| && EndsInRecord(t, path[..n])
  {
    if Leaves(t, path + ["-"]) {
      var n, k := LeavesAt(t, path + ["-"]);
      assert (path + ["-"])[..n] == path[..n];
      assert EndsInRecord(t, path[..n]);
    }
    if n: nat :| n <= |path| && EndsInRecord(t, path[..n]) {
      AtLeaves(t, path, n);
    }
  }

  predicate EndsInRecord(t: Tree, path: seq<string>) {
    At(t, path).Some? && At(t, path).value.Ref?
  }

  lemma {:induction false} AtLeaves(t: Tree, path: seq<string>, n: nat)
    requires n <= |path| && EndsInRecord(t, path[..n])
    ensures Leaves(t, path + ["-"])
    decreases n
  {
    hide PyInt;
    var tokens := path + ["-"];
    if n > 0 && !t.Ref? {
      assert tokens[0] == path[0] && tokens[1..] == path[1..] + ["-"] && |tokens| > 1;
      assert path[..n][0] == path[0] && path[..n][1..] == path[1..][..n - 1];
      AtLeaves(Child(t, path[0]).value, path[1..], n - 1);
    }
  }

  /** A record at the end of a path, or one above it, stays there through replaces. */
  lemma RecordStays(doc: Tree, p: Patch, path: seq<string>)
    requires Places(p) && ExactPath(path) && EndsInRecord(doc, path)
    ensures Leaves(Grown(doc, p), path + ["-"])
  {
    hide Put, Follow, Leaves, PtrSplit, PlaceOf, ExactPath;
    IsSplit(p);
    assert path[..|path|] == path;
    if Grown(doc, p) == doc {
      AtLeaves(doc, path, |path|);
    } else {
      var r, tokens, after := Records(map[], map[]), PlaceOf(p), Grown(doc, p);
      PutFollow(r, doc, tokens, Ref(p.id), path);
      if tokens <= path {
        PutFollow(r, doc, tokens, Ref(p.id), tokens);
        AtRef(p.id, []);
        assert tokens[|tokens|..] == [] && path[..|tokens|] == tokens;
        AtLeaves(after, path, |tokens|);
      } else {
        AtLeaves(after, path, |path|);
      }
    }
  }

  lemma LeavesGrown(doc: Tree, p: Patch, path: seq<string>)
    requires Places(p) && ExactPath(path) && Leaves(doc, path + ["-"])
    ensures Leaves(Grown(doc, p), path + ["-"])
  {
    hide Put, Leaves, PtrSplit, PlaceOf, ExactPath, Grown, EndsInRecord;
    var after := Grown(doc, p);
    LeavesIff(doc, path);
    var n: nat :| n <= |path| && EndsInRecord(doc, path[..n]);
    RestIsExact(path, n);
    RecordStays(doc, p, path[..n]);
    LeavesIff(after, path[..n]);
    var m: nat :| m <= n && EndsInRecord(after, path[..n][..m]);
    assert path[..n][..m] == path[..m];
    LeavesIff(after, path);
  }

  lemma {:induction false} ResolvesAbove(doc: Json, path: seq<string>, n: nat)
    requires Resolves(doc, path) && n <= |path|
    ensures Resolves(doc, path[..n])
  {
    hide Strings.Canonical;
    if n > 0 {
      assert path[..n][1..] == path[1..][..n - 1];
      match doc
      case Arr(items) =>
        assert Strings.IsDigits(path[0]) by { IsCanonical(path[0]); }
        ResolvesAbove(items[Strings.ParseNat(path[0])], path[1..], n - 1);
      case Obj(fields) => ResolvesAbove(fields[path[0]], path[1..], n - 1);
    }
  }

  lemma IsCanonical(token: string)
    requires Strings.Canonical(token)
    ensures Strings.IsDigits(token)
  {
  }

  /** A replace at a place the document has lands, unless its walk leaves the document's own containers. */
  lemma {:induction false} CoveredPut(j: Json, u: Tree, tokens: seq<string>, v: Tree)
    requires Covers(Tag(j), u) && ExactPath(tokens) && tokens != [] && Resolves(j, tokens) && !Leaves(u, tokens)
    ensures Put(u, tokens, v, Replace).Some?
  {
    hide PyInt, Exact;
    ExactIsNoEnd(tokens[0]);
    RestIsExact(tokens, 1);
    CanonicalParses(tokens[0]);
    match j
    case Arr(items) =>
      var at := Strings.ParseNat(tokens[0]);
      assert Covers(Tag(items[at]), u.items[at]);
      if |tokens| > 1 {
        CoveredPut(items[at], u.items[at], tokens[1..], v);
      }
    case Obj(fields) =>
      assert Covers(Tag(fields[tokens[0]]), u.fields[tokens[0]]);
      if |tokens| > 1 {
        CoveredPut(fields[tokens[0]], u.fields[tokens[0]], tokens[1..], v);
      }
  }

  /** From a replace on, a path through its place leaves the document's own containers. */
  lemma {:induction false} PlacedLeaves(spec: Json, patches: seq<Patch>, j: nat, n: nat, path: seq<string>)
    requires j < n <= |patches| && (forall i :: 0 <= i < n ==> Places(patches[i]))
    requires ExactPath(path) && Resolves(spec, path) && PlaceOf(patches[j]) <= path
    ensures Leaves(TreeOf(spec, patches[..n]), path + ["-"])
    decreases n
  {
    hide Tag, Put, Inner, TreeOf, PlaceOf, PtrSplit, ExactPath, Covers, Leaves, Resolves, Grown;
    var p, front := patches[n - 1], patches[..n - 1];
    assert patches[..n][..n - 1] == front && patches[..n][n - 1] == p;
    TreeStep(spec, patches[..n]);
    if j < n - 1 {
      PlacedLeaves(spec, patches, j, n - 1, path);
      LeavesGrown(TreeOf(spec, front), p, path);
    } else if Leaves(TreeOf(spec, front), path + ["-"]) {
      LeavesGrown(TreeOf(spec, front), p, path);
    } else {
      assert forall c :: c in front ==> Places(c);
      TreeCovers(spec, front);
      NewPlaceLeaves(spec, TreeOf(spec, front), p, path);
    }
  }

  lemma NewPlaceLeaves(spec: Json, doc: Tree, p: Patch, path: seq<string>)
    requires Covers(Tag(spec), doc) && Places(p) && ExactPath(path) && Resolves(spec, path) && PlaceOf(p) <= path
    requires !Leaves(doc, path + ["-"])
    ensures Leaves(Grown(doc, p), path + ["-"])
  {
    hide Tag, Put, PlaceOf, PtrSplit, ExactPath, Covers, Leaves, Resolves, Follow;
    var tokens := PlaceOf(p);
    IsSplit(p);
    assert path[..|tokens|] == tokens;
    if Leaves(doc, tokens) {
      var n, k := LeavesAt(doc, tokens);
      assert tokens[..n] == path[..n];
      AtLeaves(doc, path, n);
    } else {
      ResolvesAbove(spec, path, |tokens|);
      CoveredPut(spec, doc, tokens, Ref(p.id));
      PutFollow(Records(map[], map[]), doc, tokens, Ref(p.id), tokens);
      AtRef(p.id, []);
      assert tokens[|tokens|..] == [];
      AtLeaves(Grown(doc, p), path, |tokens|);
    }
  }

  /** An append that is inner goes through the place of a replace of its round, which is where its walk leaves. */
  lemma InnerThrough(spec: Json, patches: seq<Patch>, h: nat, i: nat) returns (c: Patch)
    requires Neat(patches, h) && h <= i < |patches| && Within(spec, Front(patches[i])) && IsInner(spec, patches, i)
    ensures c in patches && Inside(c, patches[i]) && At(TreeOf(spec, patches[..i]), PlaceOf(c)) == Some(Ref(c.id))
  {
    hide Tag, Inner, TreeOf, PlaceOf, ExactPath, Covers, Leaves, Within, Follow, Front, Grew;
    var path, none := Front(patches[i]), Records(map[], map[]);
    var replaced, tree := TreeOf(spec, patches[..h]), TreeOf(spec, patches[..i]);
    KindAt(patches, h, i);
    FrontIs(patches[i]);
    TreeGrew(spec, patches, h, i);
    AllGrewSelf(none);
    assert forall p :: p in patches[..h] ==> Places(p);
    TreeCovers(spec, patches[..h]);
    InnerLeaves(tree, patches[i]);
    WithinWalk(spec, replaced, tree, path);
    LeavesIff(replaced, path);
    var n: nat :| n <= |path| && EndsInRecord(replaced, path[..n]);
    var k := At(replaced, path[..n]).value.id;
    RestIsExact(path, n);
    RefIsPlaced(spec, patches[..h], path[..n], k);
    c :| c in patches[..h] && c.id == k && PlaceOf(c) == path[..n];
    RefStays(none, none, replaced, tree, path[..n], k);
  }

  /** The trees of a round only grow through its appends. */
  lemma {:induction false} TreeGrew(spec: Json, patches: seq<Patch>, m: nat, n: nat)
    requires m <= n <= |patches| && forall i :: m <= i < n ==> AppendsTo(patches[i])
    ensures Grew(TreeOf(spec, patches[..m]), TreeOf(spec, patches[..n]))
    decreases n
  {
    hide Tag, Inner, TreeOf, PlaceOf, ExactPath, Leaves, Grew, Put, Front, PtrSplit;
    if m == n {
      GrewSelf(TreeOf(spec, patches[..m]));
    } else {
      var p, doc := patches[n - 1], TreeOf(spec, patches[..n - 1]);
      TreeGrew(spec, patches, m, n - 1);
      assert patches[..n][..n - 1] == patches[..n - 1] && patches[..n][n - 1] == p;
      TreeStep(spec, patches[..n]);
      FrontIs(p);
      IsSplit(p);
      GrewSelf(doc);
      if !Inner(doc, p) {
        OuterIsNoLeave(doc, p);
        PutAppend(Records(map[], map[]), doc, Front(p), Ref(p.id));
      }
      GrewTwice(TreeOf(spec, patches[..m]), doc, TreeOf(spec, patches[..n]));
    }
  }

  lemma OuterIsNoLeave(doc: Tree, p: Patch)
    requires !Inner(doc, p) && PlaceOf(p) != []
    ensures !Leaves(doc, PlaceOf(p))
  {
  }

  /** Whatever the records hold: an append to a list of the spec is inner exactly when it lies in a replace's place. */
  lemma InnerIffInside(spec: Json, patches: seq<Patch>, h: nat, i: nat)
    requires Neat(patches, h) && h <= i < |patches| && HasList(spec, Front(patches[i]))
    ensures IsInner(spec, patches, i) <==> exists c :: c in patches && Inside(c, patches[i])
  {
    hide Tag, Inner, TreeOf, PlaceOf, ExactPath, Leaves, Resolves, Front, ValueAt, Grew, Follow;
    var m, path := patches[i], Front(patches[i]);
    KindAt(patches, h, i);
    FrontIs(m);
    HasIsWithin(spec, path);
    if IsInner(spec, patches, i) {
      var c := InnerThrough(spec, patches, h, i);
    }
    if c :| c in patches && Inside(c, m) {
      var j := MemberAt(patches, c);
      KindAt(patches, h, j);
      PlacedLeaves(spec, patches, j, h, path);
      LeavesIff(TreeOf(spec, patches[..h]), path);
      var n: nat :| n <= |path| && EndsInRecord(TreeOf(spec, patches[..h]), path[..n]);
      TreeGrew(spec, patches, h, i);
      AllGrewSelf(Records(map[], map[]));
      RestIsExact(path, n);
      RefStays(Records(map[], map[]), Records(map[], map[]), TreeOf(spec, patches[..h]), TreeOf(spec, patches[..i]), path[..n],
               At(TreeOf(spec, patches[..h]), path[..n]).value.id);
      AtLeaves(TreeOf(spec, patches[..i]), path, n);
      LeavesIsInner(TreeOf(spec, patches[..i]), m);
    }
  }

  lemma LeavesIsInner(doc: Tree, p: Patch)
    requires PlaceOf(p) != [] && Leaves(doc, PlaceOf(p))
    ensures Inner(doc, p)
  {
  }

  /* ------------------------------------------------------------ linked rounds */

  /** A tidy round over records in which its replaces lie where their pointers say. */
  ghost predicate Linkable(r: Records, patches: seq<Patch>) {
    Sound(r) && AllBelong(r, patches) && TidyRound(patches) && Linked(r, patches)
  }

  /** No append of a sorted list of patches goes inside a value another placed: a matter of the patches alone. */
  ghost predicate NoneIsInner(spec: Json, sorted: seq<Patch>) {
    forall i :: 0 <= i < |sorted| && AppendsTo(sorted[i]) ==> !IsInner(spec, sorted, i)
  }

  /** Every append that does finds its list among the records. */
  ghost predicate AllFind(spec: Json, r: Records, sorted: seq<Patch>) {
    forall i :: 0 <= i < |sorted| && AppendsTo(sorted[i]) && IsInner(spec, sorted, i) ==> GoesInside(spec, r, sorted, i)
  }

  /** Every append that does is in its list already: it landed. */
  ghost predicate AllLanded(spec: Json, r: Records, sorted: seq<Patch>) {
    forall i :: 0 <= i < |sorted| && AppendsTo(sorted[i]) && IsInner(spec, sorted, i) ==> There(spec, r, sorted, i)
  }

  lemma PartIsLinkable(r: Records, all: seq<Patch>, part: seq<Patch>)
    requires Linkable(r, all) && forall p :: p in part ==> p in all
    ensures Linkable(r, part)
  {
    hide Sound, Belongs, Tidy, Places, LinkedPair, PlaceOf;
  }

  /** One more attempt at any part of a linked round leaves it linked. When the part's appends find their lists, it shows
      what was there before exactly when none of them is inner; when they landed before, it repeats elements of lists, and
      of appends that find their lists each has landed after it. */
  lemma AttemptOfLinked(spec: Json, r: Records, all: seq<Patch>, keep: seq<Patch>)
    requires Linkable(r, all) && DistinctIds(keep) && forall p :: p in keep ==> p in all
    ensures var sorted := SortPatches(keep);
            var next, tree := Apply(spec, r, sorted), TreeOf(spec, sorted);
            && next.doc == tree && Linkable(next.records, all)
            && (AllFind(spec, r, sorted) ==>
                  && (next.records == r <==> NoneIsInner(spec, sorted))
                  && (AsValues(next).doc == View(r, tree, 0) <==> NoneIsInner(spec, sorted))
                  && AllLanded(spec, next.records, sorted))
            && (AllLanded(spec, r, sorted) ==>
                  AllFind(spec, r, sorted) && AllDoubled(r, next.records) && Repeats(View(r, tree, 0), AsValues(next).doc))
  {
    hide TreeOf, Sound, View, AllGrew, Apply, SortPatches, TidyRound, Linked, Belongs, NoneIsInner, AllFind, AllLanded, Places, AppendsTo,
      Fits, AllDoubled, Doubled, Repeats;
    var sorted := SortPatches(keep);
    PartIsLinkable(r, all, keep);
    var h := SortedIsNeat(keep);
    PartIsLinkable(r, keep, sorted);
    assert h <= |sorted| && sorted[..|sorted|] == sorted by { NeatFits(sorted, h); }
    TreeIsFixed(spec, r, sorted);
    ApplySound(spec, r, sorted);
    ReplacesStay(spec, r, sorted, h);
    LaterGrew(spec, r, sorted, h, h, |sorted|);
    LinkedGrew(r, Apply(spec, r, sorted).records, all);
    BelongAlike(r, Apply(spec, r, sorted).records, all);
    if AllFind(spec, r, sorted) {
      FindIsInside(spec, r, sorted, h);
      NextIsSameIff(spec, r, sorted, h);
      FindLands(spec, r, sorted, h);
    }
    if AllLanded(spec, r, sorted) {
      LandedDoubles(spec, r, sorted, h);
    }
  }

  /** An append that finds its list before an attempt is in it after. */
  lemma FindLands(spec: Json, r: Records, patches: seq<Patch>, h: nat)
    requires Sound(r) && AllBelong(r, patches) && Linked(r, patches) && Neat(patches, h) && AllFind(spec, r, patches)
    ensures AllLanded(spec, Apply(spec, r, patches).records, patches)
  {
    hide Sound, Belongs, Apply, Linked, IsInner, Places, AppendsTo, GoesInside, There;
    forall i | 0 <= i < |patches| && AppendsTo(patches[i]) && IsInner(spec, patches, i)
      ensures There(spec, Apply(spec, r, patches).records, patches, i)
    {
      KindAt(patches, h, i);
      OneLands(spec, r, patches, h, i);
    }
  }

  lemma OneLands(spec: Json, r: Records, patches: seq<Patch>, h: nat, i: nat)
    requires Sound(r) && AllBelong(r, patches) && Linked(r, patches) && Neat(patches, h) && h <= i < |patches|
    requires IsInner(spec, patches, i) && GoesInside(spec, r, patches, i)
    ensures There(spec, Apply(spec, r, patches).records, patches, i)
  {
    hide Sound, Belongs, Step, Tag, Fits, TreeOf, Apply, Linked, Inner, ListOf, AllGrew, Grew, ExactPath, PlaceOf, Front, Places, AppendsTo;
    var p, tree, path := patches[i], TreeOf(spec, patches[..i]), Front(patches[i]);
    assert patches[..|patches|] == patches;
    KindAt(patches, h, i);
    FrontIs(p);
    StateReady(spec, r, patches, i);
    var s, next, end := Apply(spec, r, patches[..i]), Apply(spec, r, patches[..i + 1]), Apply(spec, r, patches).records;
    ReplacesStay(spec, r, patches, h);
    LaterGrew(spec, r, patches, h, h, i);
    GrewSelf(tree);
    ListGrew(r, s.records, tree, tree, path);
    AppendStep(s, p);
    LaterGrew(spec, r, patches, h, i + 1, |patches|);
    ListGrew(next.records, end, tree, tree, path);
    assert Ref(p.id) in ListOf(next.records, tree, path).value;
    RefStaysIn(ListOf(next.records, tree, path).value, ListOf(end, tree, path).value, p.id);
  }

  lemma LandedDoubles(spec: Json, r: Records, patches: seq<Patch>, h: nat)
    requires Sound(r) && AllBelong(r, patches) && Linked(r, patches) && Neat(patches, h) && AllLanded(spec, r, patches)
    ensures var next, tree := Apply(spec, r, patches), TreeOf(spec, patches);
            AllFind(spec, r, patches) && AllDoubled(r, next.records) && Repeats(View(r, tree, 0), AsValues(next).doc)
  {
    hide TreeOf, Sound, View, Apply, Linked, Belongs, IsInner, GoesInside, MeetsObject, There, Places, AppendsTo, AllDoubled, Doubled, Repeats;
    assert h <= |patches| && patches[..|patches|] == patches by { NeatFits(patches, h); }
    forall i | 0 <= i < |patches|
      ensures AppendsTo(patches[i]) <==> h <= i
      ensures There(spec, r, patches, i) && IsInner(spec, patches, i) ==> GoesInside(spec, r, patches, i)
    {
      KindAt(patches, h, i);
      ThereIsInside(spec, r, patches, i);
    }
    FindIsInside(spec, r, patches, h);
    assert NoneMeetsObject(spec, r, patches, h);
    forall i | h <= i < |patches|
      ensures !MeetsObject(spec, r, patches, i) && (IsInner(spec, patches, i) ==> There(spec, r, patches, i))
    {
    }
    ThereIsAll(spec, r, patches, h);
    AttemptDoubles(spec, r, patches, h, |patches|);
    TreeIsFixed(spec, r, patches);
    DoubledSelf(TreeOf(spec, patches));
    DoubledIsSeen(r, Apply(spec, r, patches).records, TreeOf(spec, patches), TreeOf(spec, patches), 0);
  }

  lemma ThereIsInside(spec: Json, r: Records, patches: seq<Patch>, i: nat)
    requires i < |patches|
    ensures There(spec, r, patches, i) && IsInner(spec, patches, i) ==> GoesInside(spec, r, patches, i)
  {
    hide Inner, TreeOf, ListOf;
  }

  lemma FindIsInside(spec: Json, r: Records, patches: seq<Patch>, h: nat)
    requires Neat(patches, h) && AllFind(spec, r, patches)
    ensures NoneMeetsObject(spec, r, patches, h)
    ensures NoneGoesInside(spec, r, patches, h) <==> NoneIsInner(spec, patches)
  {
    hide IsInner, GoesInside, MeetsObject, Places, AppendsTo;
    forall i | 0 <= i < |patches|
      ensures AppendsTo(patches[i]) <==> h <= i
      ensures h <= i ==> (GoesInside(spec, r, patches, i) <==> IsInner(spec, patches, i)) && !MeetsObject(spec, r, patches, i)
    {
      KindAt(patches, h, i);
      InsideIsInner(spec, r, patches, i);
      InsideIsNoObject(spec, r, patches, i);
    }
  }

  lemma InsideIsNoObject(spec: Json, r: Records, patches: seq<Patch>, i: nat)
    requires i < |patches|
    ensures !GoesInside(spec, r, patches, i) || !MeetsObject(spec, r, patches, i)
  {
    hide Inner, TreeOf;
    ListIsNoObject(r, TreeOf(spec, patches[..i]), Front(patches[i]));
  }

  /** After its first application what landed of a tidy round is linked. */
  lemma FirstIsLinkable(spec: Json, r: Records, patches: seq<Patch>, landed: seq<Patch>)
    requires Untouched(r, SortPatches(patches)) && DistinctIds(patches) && TidyRound(patches)
    requires forall p :: p in landed ==> p in patches && p !in Run(spec, SortPatches(patches)).failed
    ensures Linkable(Apply(spec, r, SortPatches(patches)).records, landed)
  {
    hide Sound, Belongs, Apply, Untouched, View, Run, FirstApplication.FirstTime, FirstApplication.AllBare, HoldValues, Places, AppendsTo,
      SortPatches, Linked, Tidy, PlaceOf;
    var sorted := SortPatches(patches);
    var h := SortedIsNeat(patches);
    UntouchedIs(r, sorted);
    FirstApplication.FirstApplicationIsPlain(spec, r, sorted);
    ApplySound(spec, r, sorted);
    assert Landed(spec, r, sorted, landed);
    FirstLinks(spec, r, sorted, h, landed);
    forall p | p in landed
      ensures Belongs(Apply(spec, r, sorted).records, p)
    {
      SameNamesBelong(r, Apply(spec, r, sorted).records, p);
    }
  }

  /* ------------------------------------------------------------ orderly rounds */

  /** A tidy round over records in which every value is where its pointer says: replaces linked, appends listed. No append
      names an element past the end of one of the spec's lists. */
  ghost predicate Orderly(spec: Json, r: Records, patches: seq<Patch>) {
    && Sound(r) && AllBelong(r, patches) && TidyRound(patches) && Linked(r, patches) && Listed(r, patches)
    && forall m :: m in patches && AppendsTo(m) ==> Within(spec, Front(m))
  }

  lemma PartIsOrderly(spec: Json, r: Records, all: seq<Patch>, part: seq<Patch>)
    requires Orderly(spec, r, all) && forall p :: p in part ==> p in all
    ensures Orderly(spec, r, part)
    ensures NoneInside(all) ==> NoneInside(part)
  {
    hide Sound, Belongs, Tidy, Places, AppendsTo, LinkedPair, ListedIn, PlaceOf, Front, Within, Inside;
  }

  lemma ListedGrew(r: Records, q: Records, patches: seq<Patch>)
    requires AllGrew(r, q) && Listed(r, patches)
    ensures Listed(q, patches)
  {
    hide Follow, PlaceOf, AllGrew, ExactPath, Front, ListOf, Grew;
    forall c, m | c in patches && m in patches && Places(c) && AppendsTo(m) && PlaceOf(c) <= Front(m)
      ensures ListedIn(q, c, m)
    {
      assert ListedIn(r, c, m);
      FrontIs(m);
      var rest := Front(m)[|PlaceOf(c)|..];
      RestIsExact(Front(m), |PlaceOf(c)|);
      GrewSelf(Ref(c.id));
      ListGrew(r, q, Ref(c.id), Ref(c.id), rest);
      RefStaysIn(ListOf(r, Ref(c.id), rest).value, ListOf(q, Ref(c.id), rest).value, m.id);
    }
  }

  lemma OrderlyGrew(spec: Json, r: Records, q: Records, patches: seq<Patch>)
    requires Orderly(spec, r, patches) && AllGrew(r, q) && Sound(q)
    ensures Orderly(spec, q, patches)
  {
    hide Sound, Tidy, Places, AppendsTo, Linked, Listed, Front, Within, TidyRound, PlaceOf;
    LinkedGrew(r, q, patches);
    ListedGrew(r, q, patches);
  }

  /** Of an orderly round, sorted: an append that is inner finds its list, with its own record in it. */
  lemma InnerIsThere(spec: Json, r: Records, patches: seq<Patch>, h: nat, i: nat)
    requires Orderly(spec, r, patches) && Neat(patches, h) && h <= i < |patches|
    ensures IsInner(spec, patches, i) ==> There(spec, r, patches, i) && GoesInside(spec, r, patches, i)
    ensures !MeetsObject(spec, r, patches, i)
  {
    hide Tag, Inner, TreeOf, PlaceOf, ExactPath, Leaves, Front, Follow, Sound, Belongs, TidyRound, Linked, Within;
    var m := patches[i];
    KindAt(patches, h, i);
    if IsInner(spec, patches, i) {
      var c := InnerThrough(spec, patches, h, i);
      assert ListedIn(r, c, m);
      AtIsFollow(r, TreeOf(spec, patches[..i]), PlaceOf(c));
      ListBelow(r, TreeOf(spec, patches[..i]), PlaceOf(c), Front(m));
      ListIsNoObject(r, TreeOf(spec, patches[..i]), Front(m));
    }
  }

  lemma ListIsNoObject(r: Records, t: Tree, path: seq<string>)
    ensures !ObjectAt(r, t, path) || ListOf(r, t, path) == None
  {
  }

  /** One more attempt at such a round, sorted: only lists grow, and only by what they hold already; nothing changes
      exactly when no append is inner. */
  lemma SortedAttempt(spec: Json, r: Records, patches: seq<Patch>, h: nat)
    requires Orderly(spec, r, patches) && Neat(patches, h)
    ensures var next := Apply(spec, r, patches);
            && AllGrew(r, next.records) && AllDoubled(r, next.records) && Sound(next.records)
            && (next.records == r <==> NoneIsInner(spec, patches))
            && (AsValues(next).doc == View(r, TreeOf(spec, patches), 0) <==> NoneIsInner(spec, patches))
            && Repeats(View(r, TreeOf(spec, patches), 0), AsValues(next).doc)
  {
    hide Tag, TreeOf, Sound, Belongs, TidyRound, Linked, Listed, Within, View, AllGrew, AllDoubled, Doubled, Apply, IsInner, GoesInside,
      MeetsObject, There, Repeats, Inside, Fits, Front, AppendsTo, Places;
    assert h <= |patches| && patches[..|patches|] == patches by { NeatFits(patches, h); }
    forall i | h <= i < |patches|
      ensures IsInner(spec, patches, i) ==> There(spec, r, patches, i)
      ensures GoesInside(spec, r, patches, i) <==> IsInner(spec, patches, i)
      ensures !MeetsObject(spec, r, patches, i)
    {
      InnerIsThere(spec, r, patches, h, i);
      InsideIsInner(spec, r, patches, i);
    }
    assert AllFind(spec, r, patches) by { InnerFind(spec, r, patches, h); }
    FindIsInside(spec, r, patches, h);
    ThereIsAll(spec, r, patches, h);
    NextIsSameIff(spec, r, patches, h);
    AttemptDoubles(spec, r, patches, h, |patches|);
    ReplacesStay(spec, r, patches, h);
    LaterGrew(spec, r, patches, h, h, |patches|);
    ApplySound(spec, r, patches);
    DoubledSelf(TreeOf(spec, patches));
    DoubledIsSeen(r, Apply(spec, r, patches).records, TreeOf(spec, patches), TreeOf(spec, patches), 0);
  }

  lemma ThereIsAll(spec: Json, r: Records, patches: seq<Patch>, h: nat)
    requires forall i :: h <= i < |patches| ==> (IsInner(spec, patches, i) ==> There(spec, r, patches, i)) && !MeetsObject(spec, r, patches, i)
    ensures AllThere(spec, r, patches, h) && NoneMeetsObject(spec, r, patches, h)
  {
    hide Inner, TreeOf, There, MeetsObject;
    forall i | h <= i < |patches| && Inner(TreeOf(spec, patches[..i]), patches[i])
      ensures There(spec, r, patches, i)
    {
      assert IsInner(spec, patches, i);
    }
  }

  lemma InnerFind(spec: Json, r: Records, patches: seq<Patch>, h: nat)
    requires Neat(patches, h)
    requires forall i :: h <= i < |patches| ==> (GoesInside(spec, r, patches, i) <==> IsInner(spec, patches, i))
    ensures AllFind(spec, r, patches)
  {
    hide IsInner, GoesInside, Places, AppendsTo;
    forall i | 0 <= i < |patches| && AppendsTo(patches[i])
      ensures h <= i
    {
      KindAt(patches, h, i);
    }
  }

  /** Patches none of which lies inside another are not inner, whatever the document; of appends to lists of the spec, no
      others are. */
  lemma NoneInsideIsNoneInner(spec: Json, keep: seq<Patch>)
    requires TidyRound(keep) && DistinctIds(keep) && forall m :: m in keep && AppendsTo(m) ==> Within(spec, Front(m))
    ensures NoneInside(keep) ==> NoneIsInner(spec, SortPatches(keep))
    ensures (forall m :: m in keep && AppendsTo(m) ==> HasList(spec, Front(m))) && NoneIsInner(spec, SortPatches(keep)) ==> NoneInside(keep)
  {
    hide SortPatches, IsInner, Places, AppendsTo, HasList, Within, Tidy, Front, Inside, TidyRound;
    var sorted := SortPatches(keep);
    var h := SortedIsNeat(keep);
    if NoneInside(keep) {
      forall i | 0 <= i < |sorted| && AppendsTo(sorted[i])
        ensures !IsInner(spec, sorted, i)
      {
        NoInner(spec, sorted, h, i);
      }
    }
    if (forall m :: m in keep && AppendsTo(m) ==> HasList(spec, Front(m))) && NoneIsInner(spec, sorted) {
      forall c, m | c in keep && m in keep
        ensures !Inside(c, m)
      {
        InsideIsAppend(c, m);
        if AppendsTo(m) {
          var i := MemberAt(sorted, m);
          KindAt(sorted, h, i);
          InnerIffInside(spec, sorted, h, i);
        }
      }
    }
  }

  lemma NoInner(spec: Json, sorted: seq<Patch>, h: nat, i: nat)
    requires Neat(sorted, h) && i < |sorted| && AppendsTo(sorted[i]) && Within(spec, Front(sorted[i]))
    requires forall c :: c in sorted ==> !Inside(c, sorted[i])
    ensures !IsInner(spec, sorted, i)
  {
    hide IsInner, Places, AppendsTo, Within, Front, Inside;
    KindAt(sorted, h, i);
    if IsInner(spec, sorted, i) {
      var c := InnerThrough(spec, sorted, h, i);
    }
  }

  lemma InsideIsAppend(c: Patch, m: Patch)
    ensures Inside(c, m) ==> AppendsTo(m)
  {
  }

  /** One more attempt at any part of an orderly round leaves it orderly. It shows what was there before exactly when no
      append of the part is inner, as when none lies inside a replace of the part; and otherwise repeats elements of
      lists. */
  lemma AttemptOfOrderly(spec: Json, r: Records, all: seq<Patch>, keep: seq<Patch>)
    requires Orderly(spec, r, all) && DistinctIds(keep) && forall p :: p in keep ==> p in all
    ensures var sorted := SortPatches(keep);
            var next, tree := Apply(spec, r, sorted), TreeOf(spec, sorted);
            && next.doc == tree && Orderly(spec, next.records, all) && AllDoubled(r, next.records)
            && (next.records == r <==> NoneIsInner(spec, sorted))
            && (AsValues(next).doc == View(r, tree, 0) <==> NoneIsInner(spec, sorted))
            && (NoneInside(keep) ==> NoneIsInner(spec, sorted))
            && Repeats(View(r, tree, 0), AsValues(next).doc)
  {
    hide Orderly, TreeOf, Sound, View, AllGrew, AllDoubled, Apply, Repeats, Inside, SortPatches, TidyRound, NoneInside, NoneIsInner;
    PartIsOrderly(spec, r, all, keep);
    OrderlyIsTidy(spec, r, keep);
    var h := SortedIsNeat(keep);
    PartIsOrderly(spec, r, keep, SortPatches(keep));
    NoneInsideIsNoneInner(spec, keep);
    SortedAttempt(spec, r, SortPatches(keep), h);
    TreeIsFixed(spec, r, SortPatches(keep));
    OrderlyGrew(spec, r, Apply(spec, r, SortPatches(keep)).records, all);
  }

  lemma OrderlyIsTidy(spec: Json, r: Records, patches: seq<Patch>)
    requires Orderly(spec, r, patches)
    ensures TidyRound(patches) && forall m :: m in patches && AppendsTo(m) ==> Within(spec, Front(m))
  {
  }

  /* ------------------------------------------------------------ where orderly rounds come from */

  /** A tidy round whose appends all land on lists, none of them past the end of one of the spec's. */
  ghost predicate Settles(spec: Json, patches: seq<Patch>) {
    && TidyRound(patches)
    && (forall m :: m in patches && AppendsTo(m) ==> Within(spec, Front(m)))
    && forall i :: 0 <= i < |patches| && AppendsTo(SortPatches(patches)[i]) ==> FindsList(spec, SortPatches(patches), i)
  }

  /** Its first application leaves the patches that landed an orderly round. */
  lemma FirstIsOrderly(spec: Json, r: Records, patches: seq<Patch>, landed: seq<Patch>)
    requires Untouched(r, SortPatches(patches)) && DistinctIds(patches) && Settles(spec, patches)
    requires forall p :: p in landed ==> p in patches && p !in Run(spec, SortPatches(patches)).failed
    ensures Orderly(spec, Apply(spec, r, SortPatches(patches)).records, landed)
  {
    hide Sound, Belongs, Apply, Untouched, View, Run, FirstApplication.FirstTime, FirstApplication.AllBare, HoldValues, Places, AppendsTo,
      SortPatches, FindsList, Linked, Listed, Within, Tidy, Front, PlaceOf;
    var sorted := SortPatches(patches);
    var h := SortedIsNeat(patches);
    FirstIsLinkable(spec, r, patches, landed);
    UntouchedIs(r, sorted);
    FirstApplication.FirstApplicationIsPlain(spec, r, sorted);
    assert Landed(spec, r, sorted, landed);
    forall i | h <= i < |sorted|
      ensures FindsList(spec, sorted, i)
    {
      KindAt(sorted, h, i);
    }
    FirstLists(spec, r, sorted, h, landed);
  }
}
