/** Walking a round's tree through the records it refers to, and what the two kinds of patch a round is made of do to such
    walks: a replace at an exact place, and an append to a list (loop/spec_review.py, `_apply_to` and `ptr_apply`). */
module RecordPaths {
  import opened Wrappers
  import opened Json
  import opened Strings
  import opened JsonPointer
  import opened Patches
  import opened SharedValues
  import FirstApplication

  /* ------------------------------------------------------------ exact paths */

  /** A token that names one element of a list at most, and never the place past its end. */
  predicate Exact(token: string) {
    token != "-" && (PyInt(token).Some? ==> Canonical(token))
  }

  predicate ExactPath(path: seq<string>) {
    forall i :: 0 <= i < |path| ==> Exact(path[i])
  }

  lemma OneIndex(a: string, b: string)
    requires Exact(a) && Exact(b) && PyInt(a).Some? && PyInt(a) == PyInt(b)
    ensures a == b
  {
    assert NatToStr(ParseNat(a)) == a && NatToStr(ParseNat(b)) == b;
  }

  lemma ExactPosition(token: string, len: nat)
    requires Exact(token) && PyInt(token).Some?
    ensures Canonical(token) && PyInt(token).value == ParseNat(token)
    ensures Position(len, PyInt(token).value) == if ParseNat(token) < len then Some(ParseNat(token)) else None
  {
  }

  lemma RestIsExact(path: seq<string>, n: nat)
    requires ExactPath(path) && n <= |path|
    ensures ExactPath(path[..n]) && ExactPath(path[n..])
  {
    hide Exact;
  }

  /* ------------------------------------------------------------ walks */

  /** The walk along a path from this tree, through every record it meets on the way. */
  function Follow(r: Records, t: Tree, path: seq<string>): Option<Tree>
    decreases |path|, if t.Ref? then 1 else 0
  {
    if path == [] then Some(t)
    else if t.Ref? then
      if t.id in r.values && !r.values[t.id].Ref? then Follow(r, r.values[t.id], path) else None
    else match Child(t, path[0])
         case None => None
         case Some(child) => Follow(r, child, path[1..])
  }

  /** The list a reader finds at a tree. */
  function ListAt(r: Records, t: Tree): Option<seq<Tree>> {
    match t
    case List(items) => Some(items)
    case Ref(k) => if k in r.values && r.values[k].List? then Some(r.values[k].items) else None
    case _ => None
  }

  /** The list at the end of a path. */
  function ListOf(r: Records, t: Tree, path: seq<string>): Option<seq<Tree>> {
    match Follow(r, t, path)
    case None => None
    case Some(u) => ListAt(r, u)
  }

  /** An object at the end of a path. */
  predicate ObjectAt(r: Records, t: Tree, path: seq<string>) {
    match Follow(r, t, path)
    case Some(Dict(_)) => true
    case Some(Ref(k)) => k in r.values && r.values[k].Dict?
    case _ => false
  }

  lemma {:induction false} FollowConcat(r: Records, t: Tree, a: seq<string>, b: seq<string>)
    ensures match Follow(r, t, a)
            case None => Follow(r, t, a + b) == None
            case Some(u) => Follow(r, t, a + b) == Follow(r, u, b)
    decreases |a|, if t.Ref? then 1 else 0
  {
    hide PyInt;
    if a == [] {
      assert a + b == b;
    } else if t.Ref? {
      if t.id in r.values && !r.values[t.id].Ref? {
        FollowConcat(r, r.values[t.id], a, b);
      }
    } else {
      assert (a + b)[0] == a[0] && (a + b)[1..] == a[1..] + b;
      if Child(t, a[0]).Some? {
        FollowConcat(r, Child(t, a[0]).value, a[1..], b);
      }
    }
  }

  /** Where the walk to a place below `a` goes, given where the walk to `a` ends. */
  lemma FollowBelow(r: Records, t: Tree, a: seq<string>, path: seq<string>)
    requires a <= path && Follow(r, t, a).Some?
    ensures Follow(r, t, path) == Follow(r, Follow(r, t, a).value, path[|a|..])
  {
    hide Follow;
    assert path == a + path[|a|..];
    FollowConcat(r, t, a, path[|a|..]);
  }

  /** The written record is where the walk arrives when what is left to walk is its own. */
  lemma {:induction false} EnterFollow(r: Records, t: Tree, tokens: seq<string>, depth: nat)
    requires Sound(r) && Fits(r.names, t, depth) && Enter(r, t, tokens).Some?
    ensures var e := Enter(r, t, tokens).value;
            && e.id in r.values && 0 < |e.rest| <= |tokens| && e.rest == tokens[|tokens| - |e.rest|..]
            && |r.names[e.id]| + |e.rest| == depth + |tokens|
            && !Leaves(r.values[e.id], e.rest)
            && (!t.Ref? ==> |e.rest| < |tokens|)
            && Follow(r, t, tokens[..|tokens| - |e.rest|]) == Some(Ref(e.id))
    decreases |tokens|, if t.Ref? then 1 else 0
  {
    hide PyInt, Fits, Enter;
    EnterAligned(r, t, tokens, depth);
    EnterUnfolds(r, t, tokens);
    var e := Enter(r, t, tokens).value;
    EnterIffLeaves(r, r.values[e.id], e.rest);
    var n := |tokens| - |e.rest|;
    if t.Ref? {
      FitsAtRef(r.names, t, depth);
      if Enter(r, r.values[t.id], tokens).Some? {
        EnterFollow(r, r.values[t.id], tokens, |r.names[t.id]|);
      }
    } else {
      ChildFits(r.names, t, tokens[0], depth);
      EnterFollow(r, Child(t, tokens[0]).value, tokens[1..], depth + 1);
      assert tokens[..n][1..] == tokens[1..][..n - 1];
    }
  }

  /* ------------------------------------------------------------ trees and records that only grew */

  /** Lists may have got longer, and what was in one is still where it was. */
  ghost predicate Grew(t: Tree, u: Tree) {
    match t
    case Leaf(_) => u == t
    case Ref(_) => u == t
    case List(items) =>
      u.List? && |items| <= |u.items| && forall i :: 0 <= i < |items| ==> Grew(items[i], u.items[i])
    case Dict(fields) =>
      u.Dict? && (forall f :: f in fields && f != "-" ==> f in u.fields && Grew(fields[f], u.fields[f]))
      && forall f :: f in u.fields ==> f in fields || f == "-"
  }

  ghost predicate AllGrew(r: Records, q: Records) {
    r.names == q.names && r.values.Keys == q.values.Keys && forall k :: k in r.values ==> Grew(r.values[k], q.values[k])
  }

  lemma {:induction false} GrewSelf(t: Tree)
    ensures Grew(t, t)
  {
    match t
    case Leaf(_) =>
    case Ref(_) =>
    case List(items) => forall i | 0 <= i < |items| ensures Grew(items[i], items[i]) { GrewSelf(items[i]); }
    case Dict(fields) => forall f | f in fields ensures Grew(fields[f], fields[f]) { GrewSelf(fields[f]); }
  }

  lemma {:induction false} GrewTwice(t: Tree, u: Tree, w: Tree)
    requires Grew(t, u) && Grew(u, w)
    ensures Grew(t, w)
  {
    match t
    case Leaf(_) =>
    case Ref(_) =>
    case List(items) =>
      forall i | 0 <= i < |items| ensures Grew(items[i], w.items[i]) { GrewTwice(items[i], u.items[i], w.items[i]); }
    case Dict(fields) =>
      forall f | f in fields && f != "-"
        ensures f in w.fields && Grew(fields[f], w.fields[f])
      {
        GrewTwice(fields[f], u.fields[f], w.fields[f]);
      }
  }

  lemma AllGrewSelf(r: Records)
    ensures AllGrew(r, r)
  {
    forall k | k in r.values ensures Grew(r.values[k], r.values[k]) { GrewSelf(r.values[k]); }
  }

  lemma AllGrewTwice(r: Records, q: Records, s: Records)
    requires AllGrew(r, q) && AllGrew(q, s)
    ensures AllGrew(r, s)
  {
    forall k | k in r.values ensures Grew(r.values[k], s.values[k]) { GrewTwice(r.values[k], q.values[k], s.values[k]); }
  }

  lemma ChildGrew(t: Tree, u: Tree, token: string)
    requires Grew(t, u) && Exact(token) && Child(t, token).Some?
    ensures Child(u, token).Some? && Grew(Child(t, token).value, Child(u, token).value)
  {
    hide PyInt, Exact, Canonical;
    match t
    case List(items) =>
      ExactPosition(token, |items|);
      ExactPosition(token, |u.items|);
    case Dict(fields) => assert token != "-" by { ExactIsNoEnd(token); }
  }

  lemma ExactIsNoEnd(token: string)
    requires Exact(token)
    ensures token != "-"
  {
  }

  /** So every exact walk still arrives, at the same place grown. */
  lemma {:induction false} FollowGrew(r: Records, q: Records, t: Tree, u: Tree, path: seq<string>)
    requires AllGrew(r, q) && Grew(t, u) && ExactPath(path) && Follow(r, t, path).Some?
    ensures Follow(q, u, path).Some? && Grew(Follow(r, t, path).value, Follow(q, u, path).value)
    decreases |path|, if t.Ref? then 1 else 0
  {
    hide PyInt, Exact, Canonical;
    if path != [] {
      if t.Ref? {
        assert Grew(r.values[t.id], q.values[t.id]);
        FollowGrew(r, q, r.values[t.id], q.values[t.id], path);
      } else {
        ChildGrew(t, u, path[0]);
        RestIsExact(path, 1);
        FollowGrew(r, q, Child(t, path[0]).value, Child(u, path[0]).value, path[1..]);
      }
    }
  }

  /** A list at the end of an exact path is still one, with what it had in front. */
  lemma ListGrew(r: Records, q: Records, t: Tree, u: Tree, path: seq<string>)
    requires AllGrew(r, q) && Grew(t, u) && ExactPath(path) && ListOf(r, t, path).Some?
    ensures ListOf(q, u, path).Some? && Grew(List(ListOf(r, t, path).value), List(ListOf(q, u, path).value))
  {
    hide Follow, ExactPath;
    FollowGrew(r, q, t, u, path);
  }

  /** A walk that ends in a record still does. */
  lemma RefStays(r: Records, q: Records, t: Tree, u: Tree, path: seq<string>, k: nat)
    requires AllGrew(r, q) && Grew(t, u) && ExactPath(path) && Follow(r, t, path) == Some(Ref(k))
    ensures Follow(q, u, path) == Some(Ref(k))
  {
    hide Follow, ExactPath;
    FollowGrew(r, q, t, u, path);
  }

  /* ------------------------------------------------------------ writing at a place */

  /** One child has changed, and every other exact token still leads where it did. */
  ghost predicate OneChild(t: Tree, after: Tree, token: string, child: Tree) {
    !after.Ref? && Child(after, token) == Some(child) &&
    forall b :: Exact(b) && b != token ==> Child(after, b) == Child(t, b)
  }

  lemma PutLastIsOneChild(t: Tree, last: string, v: Tree)
    requires Exact(last) && PutLast(t, last, v, Replace).Some?
    ensures OneChild(t, PutLast(t, last, v, Replace).value, last, v)
  {
    hide PyInt, Exact, Canonical;
    ExactIsNoEnd(last);
    match t
    case Dict(fields) =>
    case List(items) =>
      ExactPosition(last, |items|);
      SameOtherItems(items, last, v);
  }

  lemma WithChildIsOneChild(t: Tree, token: string, child: Tree)
    requires Exact(token) && Child(t, token).Some?
    ensures OneChild(t, WithChild(t, token, child), token, child)
  {
    hide PyInt, Exact, Canonical;
    match t
    case Dict(fields) =>
    case List(items) =>
      ExactPosition(token, |items|);
      SameOtherItems(items, token, child);
  }

  lemma SameOtherItems(items: seq<Tree>, token: string, v: Tree)
    requires Exact(token) && PyInt(token).Some? && 0 <= PyInt(token).value < |items|
    ensures OneChild(List(items), List(items[PyInt(token).value := v]), token, v)
  {
    hide PyInt, Exact, Canonical;
    forall b | Exact(b) && b != token
      ensures Child(List(items[PyInt(token).value := v]), b) == Child(List(items), b)
    {
      if PyInt(b).Some? {
        ExactPosition(b, |items|);
        if PyInt(b) == PyInt(token) {
          OneIndex(b, token);
        }
      }
    }
  }

  /** After a replace within one object: below its place is what was placed, above it containers, and beside it nothing
      has changed. */
  lemma {:induction false} PutFollow(r: Records, t: Tree, tokens: seq<string>, v: Tree, path: seq<string>)
    requires ExactPath(tokens) && ExactPath(path) && Put(t, tokens, v, Replace).Some?
    ensures var after := Put(t, tokens, v, Replace).value;
            && !t.Ref? && !after.Ref?
            && (tokens <= path ==> Follow(r, after, path) == Follow(r, v, path[|tokens|..]))
            && (path < tokens ==> Follow(r, after, path).Some? && !Follow(r, after, path).value.Ref? &&
                                  Follow(r, t, path).Some? && !Follow(r, t, path).value.Ref?)
            && (Disjoint(tokens, path) ==> Follow(r, after, path) == Follow(r, t, path))
    decreases |tokens|
  {
    hide PyInt, Exact, PutLast, Child, WithChild;
    var after := Put(t, tokens, v, Replace).value;
    PutNotAtRef(t, tokens, v, Replace);
    if |tokens| == 1 {
      PutLastIsOneChild(t, tokens[0], v);
      if path != [] {
        assert tokens <= path <==> path[0] == tokens[0];
      }
    } else {
      RestIsExact(tokens, 1);
      var child := Put(Child(t, tokens[0]).value, tokens[1..], v, Replace).value;
      WithChildIsOneChild(t, tokens[0], child);
      if path != [] {
        RestIsExact(path, 1);
        if path[0] == tokens[0] {
          PutFollow(r, Child(t, tokens[0]).value, tokens[1..], v, path[1..]);
          SamePrefixes(tokens, path);
        }
      }
    }
  }

  lemma SamePrefixes(a: seq<string>, b: seq<string>)
    requires a != [] && b != [] && a[0] == b[0]
    ensures a <= b <==> a[1..] <= b[1..]
    ensures b <= a <==> b[1..] <= a[1..]
    ensures a < b <==> a[1..] < b[1..]
    ensures b < a <==> b[1..] < a[1..]
    ensures a <= b ==> b[|a|..] == b[1..][|a| - 1..]
  {
    assert a == [a[0]] + a[1..] && b == [b[0]] + b[1..];
    if a[1..] <= b[1..] {
      assert forall i :: 0 <= i < |a| ==> a[i] == b[i] by {
        forall i | 0 <= i < |a| ensures a[i] == b[i] { if i > 0 { assert a[1..][i - 1] == b[1..][i - 1]; } }
      }
    }
    if b[1..] <= a[1..] {
      assert forall i :: 0 <= i < |b| ==> a[i] == b[i] by {
        forall i | 0 <= i < |b| ensures a[i] == b[i] { if i > 0 { assert a[1..][i - 1] == b[1..][i - 1]; } }
      }
    }
  }

  lemma PutNotAtRef(t: Tree, tokens: seq<string>, v: Tree, op: Op)
    requires Put(t, tokens, v, op).Some?
    ensures tokens != [] && !t.Ref? && (|tokens| > 1 ==> Child(t, tokens[0]).Some?)
    ensures !Put(t, tokens, v, op).value.Ref?
  {
    hide PyInt;
  }

  /** Replacing what is there by itself. */
  lemma {:induction false} PutSame(r: Records, t: Tree, tokens: seq<string>, v: Tree)
    requires ExactPath(tokens) && tokens != [] && !Leaves(t, tokens) && Follow(r, t, tokens) == Some(v)
    ensures Put(t, tokens, v, Replace) == Some(t)
  {
    hide PyInt, Exact, Canonical;
    if |tokens| == 1 {
      assert Follow(r, t, tokens) == Follow(r, Child(t, tokens[0]).value, []);
      ExactIsNoEnd(tokens[0]);
      match t
      case Dict(fields) => assert fields[tokens[0] := v] == fields;
      case List(items) => assert items[Position(|items|, PyInt(tokens[0]).value).value := v] == items;
    } else {
      RestIsExact(tokens, 1);
      PutSame(r, Child(t, tokens[0]).value, tokens[1..], v);
      FirstApplication.SameChild(t, tokens[0]);
    }
  }

  /** What an append within one object does: it needs a list or an object at the end of its path, and a list there gets
      one longer. */
  lemma {:induction false} PutAppend(r: Records, t: Tree, path: seq<string>, v: Tree)
    requires ExactPath(path) && !Leaves(t, path + ["-"])
    ensures var put, at := Put(t, path + ["-"], v, Add), Follow(r, t, path);
            && (put.Some? ==> Grew(t, put.value))
            && (put.Some? <==> at.Some? && (at.value.List? || at.value.Dict?))
            && (at.Some? ==> !at.value.Ref?)
            && (at.Some? && at.value.List? ==> Follow(r, put.value, path) == Some(List(at.value.items + [v])))
  {
    hide PyInt, Exact, Canonical;
    var tokens := path + ["-"];
    if path == [] {
      assert tokens == ["-"];
      AppendHere(t, v);
    } else {
      assert tokens[0] == path[0] && tokens[1..] == path[1..] + ["-"] && |tokens| > 1;
      if Child(t, path[0]).Some? {
        var child := Child(t, path[0]).value;
        RestIsExact(path, 1);
        PutAppend(r, child, path[1..], v);
        if Put(child, tokens[1..], v, Add).Some? {
          var after := Put(child, tokens[1..], v, Add).value;
          WithChildIsOneChild(t, path[0], after);
          WithChildGrew(t, path[0], after);
        }
      }
    }
  }

  lemma AppendHere(t: Tree, v: Tree)
    requires !t.Ref?
    ensures var put := PutLast(t, "-", v, Add);
            && (put.Some? <==> t.List? || t.Dict?)
            && (put.Some? ==> Grew(t, put.value))
            && (t.List? ==> put == Some(List(t.items + [v])))
  {
    match t
    case List(items) => forall i | 0 <= i < |items| ensures Grew(items[i], items[i]) { GrewSelf(items[i]); }
    case Dict(fields) => forall f | f in fields ensures Grew(fields[f], fields[f]) { GrewSelf(fields[f]); }
    case _ =>
  }

  lemma WithChildGrew(t: Tree, token: string, child: Tree)
    requires Child(t, token).Some? && Grew(Child(t, token).value, child)
    ensures Grew(t, WithChild(t, token, child))
  {
    hide PyInt;
    match t
    case List(items) => forall i | 0 <= i < |items| ensures Grew(items[i], items[i]) { GrewSelf(items[i]); }
    case Dict(fields) => forall f | f in fields ensures Grew(fields[f], fields[f]) { GrewSelf(fields[f]); }
  }

  /* ------------------------------------------------------------ the two kinds of patch */

  /** A replace whose pointer names one place. */
  predicate Places(p: Patch) {
    p.op == Replace && PlaceOf(p) != [] && ExactPath(PlaceOf(p))
  }

  /** The path of the list an append goes to. */
  function Front(p: Patch): seq<string> {
    var path := PlaceOf(p);
    if path == [] then [] else path[..|path| - 1]
  }

  predicate AppendsTo(p: Patch) {
    p.op == Add && ExactPath(Front(p)) && PlaceOf(p) == Front(p) + ["-"]
  }

  lemma IsSplit(p: Patch)
    requires PlaceOf(p) != []
    ensures PtrSplit(p.pointer) == Some(PlaceOf(p))
  {
  }

  /** A replace that goes into a record, where the record already leads to the patch's own value: nothing changes. */
  lemma ReplaceStays(s: State, p: Patch)
    requires Ready(s, p) && Places(p) && Follow(s.records, s.doc, PlaceOf(p)) == Some(Ref(p.id))
    ensures Step(s, p).records == s.records
  {
    hide Put, Enter, Leaves, PtrSplit, Fits, Follow, ExactPath, PlaceOf;
    var r, tokens := s.records, PlaceOf(p);
    IsSplit(p);
    if Enter(r, s.doc, tokens).Some? {
      EnterFollow(r, s.doc, tokens, 0);
      var e := Enter(r, s.doc, tokens).value;
      var n := |tokens| - |e.rest|;
      FollowBelow(r, s.doc, tokens[..n], tokens);
      RestIsExact(tokens, n);
      FollowThrough(r, e.id, e.rest);
      PutSame(r, r.values[e.id], e.rest, Ref(p.id));
    }
  }

  lemma FollowThrough(r: Records, k: nat, path: seq<string>)
    requires k in r.values && !r.values[k].Ref? && path != []
    ensures Follow(r, Ref(k), path) == Follow(r, r.values[k], path)
  {
  }

  lemma ListThrough(r: Records, k: nat, path: seq<string>)
    requires k in r.values && !r.values[k].Ref?
    ensures ListOf(r, Ref(k), path) == ListOf(r, r.values[k], path)
    ensures ObjectAt(r, Ref(k), path) <==> ObjectAt(r, r.values[k], path)
  {
  }

  lemma ListBelow(r: Records, t: Tree, a: seq<string>, path: seq<string>)
    requires a <= path && Follow(r, t, a).Some?
    ensures ListOf(r, t, path) == ListOf(r, Follow(r, t, a).value, path[|a|..])
    ensures ObjectAt(r, t, path) <==> ObjectAt(r, Follow(r, t, a).value, path[|a|..])
  {
    hide Follow;
    FollowBelow(r, t, a, path);
  }

  /** Where a write stays within one object, the walk to it reads no record. */
  lemma {:induction false} OwnWalk(r: Records, q: Records, t: Tree, path: seq<string>)
    requires !Leaves(t, path + ["-"])
    ensures Follow(r, t, path) == Follow(q, t, path)
  {
    hide PyInt;
    var tokens := path + ["-"];
    if path != [] {
      assert tokens[0] == path[0] && tokens[1..] == path[1..] + ["-"] && |tokens| > 1;
      if Child(t, path[0]).Some? {
        OwnWalk(r, q, Child(t, path[0]).value, path[1..]);
      }
    }
  }

  lemma OneGrew(r: Records, k: nat, value: Tree)
    requires k in r.values && Grew(r.values[k], value)
    ensures AllGrew(r, r.(values := r.values[k := value]))
  {
    AllGrewSelf(r);
  }

  /** What one append does: nothing is lost; the list it leads to ends in it; where it leads to nothing it does nothing. */
  lemma AppendStep(s: State, p: Patch)
    requires Ready(s, p) && AppendsTo(p)
    ensures var after := Step(s, p);
            && AllGrew(s.records, after.records) && Grew(s.doc, after.doc)
            && (Inner(s.doc, p) ==> after.doc == s.doc)
            && (!Inner(s.doc, p) ==> after.records == s.records)
            && (ListOf(s.records, s.doc, Front(p)).Some? ==>
                  after.failed == s.failed &&
                  ListOf(after.records, after.doc, Front(p)) == Some(ListOf(s.records, s.doc, Front(p)).value + [Ref(p.id)]))
            && (ListOf(s.records, s.doc, Front(p)) == None && !ObjectAt(s.records, s.doc, Front(p)) ==>
                  after == s.(failed := s.failed + [p]))
  {
    hide Put, Enter, Leaves, PtrSplit, Fits, Follow, ExactPath, PlaceOf, Front, ListOf, ObjectAt, Grew, AllGrew;
    AllGrewSelf(s.records);
    GrewSelf(s.doc);
    FrontIs(p);
    IsSplit(p);
    EnterIffLeaves(s.records, s.doc, PlaceOf(p));
    if Inner(s.doc, p) {
      AppendInner(s, p);
    } else {
      AppendOuter(s, p);
    }
  }

  lemma FrontIs(p: Patch)
    requires AppendsTo(p)
    ensures PlaceOf(p) != [] && PlaceOf(p) == Front(p) + ["-"] && ExactPath(Front(p)) && p.op == Add
  {
  }

  lemma ListHere(r: Records, t: Tree, path: seq<string>)
    ensures Follow(r, t, path) == None ==> ListOf(r, t, path) == None && !ObjectAt(r, t, path)
    ensures Follow(r, t, path).Some? && !Follow(r, t, path).value.Ref? ==>
              ListOf(r, t, path) == (if Follow(r, t, path).value.List? then Some(Follow(r, t, path).value.items) else None) &&
              (ObjectAt(r, t, path) <==> Follow(r, t, path).value.Dict?)
  {
    hide Follow;
  }

  lemma AppendOuter(s: State, p: Patch)
    requires Ready(s, p) && AppendsTo(p) && !Inner(s.doc, p)
    ensures var after := Step(s, p);
            && after.records == s.records && Grew(s.doc, after.doc)
            && (ListOf(s.records, s.doc, Front(p)).Some? ==>
                  after.failed == s.failed &&
                  ListOf(after.records, after.doc, Front(p)) == Some(ListOf(s.records, s.doc, Front(p)).value + [Ref(p.id)]))
            && (ListOf(s.records, s.doc, Front(p)) == None && !ObjectAt(s.records, s.doc, Front(p)) ==>
                  after == s.(failed := s.failed + [p]))
  {
    hide Put, Enter, Leaves, PtrSplit, Fits, Follow, ExactPath, PlaceOf, Front, ListOf, ObjectAt, Grew, AllGrew;
    FrontIs(p);
    IsSplit(p);
    GrewSelf(s.doc);
    var r := s.records;
    EnterIffLeaves(r, s.doc, PlaceOf(p));
    PutAppend(r, s.doc, Front(p), Ref(p.id));
    ListHere(r, s.doc, Front(p));
    ListHere(r, Step(s, p).doc, Front(p));
  }

  lemma AppendInner(s: State, p: Patch)
    requires Ready(s, p) && AppendsTo(p) && Inner(s.doc, p)
    ensures var after := Step(s, p);
            && AllGrew(s.records, after.records) && after.doc == s.doc
            && (ListOf(s.records, s.doc, Front(p)).Some? ==>
                  after.failed == s.failed &&
                  ListOf(after.records, after.doc, Front(p)) == Some(ListOf(s.records, s.doc, Front(p)).value + [Ref(p.id)]))
            && (ListOf(s.records, s.doc, Front(p)) == None && !ObjectAt(s.records, s.doc, Front(p)) ==>
                  after == s.(failed := s.failed + [p]))
  {
    hide Put, Enter, Leaves, PtrSplit, Fits, Follow, ExactPath, PlaceOf, Front, ListOf, ObjectAt, Grew, AllGrew;
    var r, tokens, path := s.records, PlaceOf(p), Front(p);
    FrontIs(p);
    IsSplit(p);
    AllGrewSelf(r);
    EnterIffLeaves(r, s.doc, tokens);
    EnterFollow(r, s.doc, tokens, 0);
    var e := Enter(r, s.doc, tokens).value;
    var n := |tokens| - |e.rest|;
    assert path[..n] == tokens[..n] && path[n..] + ["-"] == e.rest;
    var value, below := r.values[e.id], path[n..];
    RestIsExact(path, n);
    ListBelow(r, s.doc, path[..n], path);
    ListThrough(r, e.id, below);
    PutAppend(r, value, below, Ref(p.id));
    ListHere(r, value, below);
    if Put(value, e.rest, Ref(p.id), Add).Some? {
      var grown := Put(value, e.rest, Ref(p.id), Add).value;
      var q := Step(s, p).records;
      OneGrew(r, e.id, grown);
      RefStays(r, q, s.doc, s.doc, path[..n], e.id) by { GrewSelf(s.doc); }
      ListBelow(q, s.doc, path[..n], path);
      PutNotAtRef(value, e.rest, Ref(p.id), Add);
      ListThrough(q, e.id, below);
      PutAppend(q, value, below, Ref(p.id));
      OwnWalk(r, q, value, below);
      ListHere(q, grown, below);
    }
  }
}
