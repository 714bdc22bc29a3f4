/** Clustering re-asked questions (loop/spec_review.py, `_question_clusters`): a union-find with path halving and
    no ranks, over an array that is rewritten as it is read. `linked` is any relation the similarity scores may
    give; it is asked about pairs i < j only. */
module QuestionClusters {

  type Relation = (nat, nat) -> bool

  /* ------------------------------------------------------------ connected components */

  predicate Adjacent(linked: Relation, n: nat, i: nat, j: nat) {
    i < n && j < n && ((i < j && linked(i, j)) || (j < i && linked(j, i)))
  }

  ghost predicate IsPath(linked: Relation, n: nat, p: seq<nat>) {
    && p != []
    && (forall k :: 0 <= k < |p| ==> p[k] < n)
    && forall k :: 0 <= k < |p| - 1 ==> Adjacent(linked, n, p[k], p[k + 1])
  }

  /** Two questions are connected when a chain of linked questions joins them. */
  ghost predicate Connected(linked: Relation, n: nat, i: nat, j: nat) {
    exists p :: IsPath(linked, n, p) && p[0] == i && p[|p| - 1] == j
  }

  lemma ConnectedSelf(linked: Relation, n: nat, i: nat)
    requires i < n
    ensures Connected(linked, n, i, i)
  {
    assert IsPath(linked, n, [i]);
  }

  lemma ConnectedLink(linked: Relation, n: nat, i: nat, j: nat)
    requires i < j < n && linked(i, j)
    ensures Connected(linked, n, i, j) && Connected(linked, n, j, i)
  {
    assert IsPath(linked, n, [i, j]);
    assert IsPath(linked, n, [j, i]);
  }

  lemma ConnectedTrans(linked: Relation, n: nat, i: nat, j: nat, k: nat)
    requires Connected(linked, n, i, j) && Connected(linked, n, j, k)
    ensures Connected(linked, n, i, k)
  {
    var p :| IsPath(linked, n, p) && p[0] == i && p[|p| - 1] == j;
    var q :| IsPath(linked, n, q) && q[0] == j && q[|q| - 1] == k;
    assert IsPath(linked, n, p + q[1..]) by {
      forall m | 0 <= m < |p + q[1..]| - 1
        ensures Adjacent(linked, n, (p + q[1..])[m], (p + q[1..])[m + 1])
      {
        if m >= |p| - 1 {
          assert (p + q[1..])[m] == q[m - |p| + 1];
        }
      }
    }
  }

  /** Any labelling that agrees on every linked pair agrees on every connected pair. */
  lemma {:induction false} LabelsFollowPath(linked: Relation, n: nat, labels: seq<nat>, p: seq<nat>)
    requires |labels| == n && IsPath(linked, n, p)
    requires forall a, b :: 0 <= a < b < n && linked(a, b) ==> labels[a] == labels[b]
    ensures labels[p[0]] == labels[p[|p| - 1]]
  {
    if |p| > 1 {
      LabelsFollowPath(linked, n, labels, p[1..]);
      assert Adjacent(linked, n, p[0], p[1]);
    }
  }

  /* ------------------------------------------------------------ the forest */

  /** `parent` is an acyclic forest: ranks grow along every edge, and `root` names each node's root. */
  ghost predicate Forest(parent: seq<nat>, root: seq<nat>, rank: seq<nat>) {
    |parent| == |root| == |rank| && forall x: nat :: x < |parent| ==> Hangs(parent, root, rank, x)
  }

  /** Node `x`, its parent and its root agree, and ranks rise on the way up. */
  ghost predicate Hangs(parent: seq<nat>, root: seq<nat>, rank: seq<nat>, x: nat)
    requires |parent| == |root| == |rank| && x < |parent|
  {
    && parent[x] < |parent| && root[x] < |parent|
    && parent[root[x]] == root[x] && root[parent[x]] == root[x]
    && (parent[x] == x <==> root[x] == x)
    && (parent[x] != x ==> rank[x] < rank[parent[x]] && rank[x] < rank[root[x]])
  }

  /** `find`: halves the path it walks, and changes no node's root. */
  method Find(parent: array<nat>, start: nat, ghost root: seq<nat>, ghost rank: seq<nat>) returns (x: nat)
    requires Forest(parent[..], root, rank) && start < parent.Length
    modifies parent
    ensures Forest(parent[..], root, rank)
    ensures x == root[start]
  {
    hide Forest;
    x := start;
    Climb(parent[..], root, rank, x);
    while parent[x] != x
      invariant x < parent.Length && Forest(parent[..], root, rank) && |root| == |rank| == parent.Length
      invariant root[x] == root[start] < |rank| && rank[x] <= rank[root[x]] && (parent[x] == x ==> root[x] == x)
      decreases rank[root[start]] - rank[x]
    {
      ghost var was := parent[..];
      Climb(was, root, rank, x);
      parent[x] := parent[parent[x]];
      assert parent[..] == was[x := was[was[x]]];
      HalvingKeepsForest(was, root, rank, x);
      x := parent[x];
      Climb(parent[..], root, rank, x);
    }
  }

  /** Two steps up stay in the tree, and climb in rank toward the root. */
  lemma Climb(parent: seq<nat>, root: seq<nat>, rank: seq<nat>, x: nat)
    requires Forest(parent, root, rank) && x < |parent|
    ensures |root| == |rank| == |parent|
    ensures parent[x] < |parent| && root[x] < |parent| && parent[parent[x]] < |parent|
    ensures root[parent[x]] == root[x] && root[parent[parent[x]]] == root[x]
    ensures parent[x] == x <==> root[x] == x
    ensures parent[x] != x ==> rank[x] < rank[parent[parent[x]]]
    ensures rank[x] <= rank[root[x]] && rank[parent[parent[x]]] <= rank[root[x]]
  {
    assert Hangs(parent, root, rank, x);
    assert Hangs(parent, root, rank, parent[x]);
    assert Hangs(parent, root, rank, parent[parent[x]]);
  }

  lemma RootFacts(parent: seq<nat>, root: seq<nat>, rank: seq<nat>, x: nat)
    requires Forest(parent, root, rank) && x < |parent|
    ensures |root| == |rank| == |parent|
    ensures root[x] < |parent| && parent[root[x]] == root[x]
  {
    assert Hangs(parent, root, rank, x);
  }

  lemma HalvingKeepsForest(parent: seq<nat>, root: seq<nat>, rank: seq<nat>, x: nat)
    requires Forest(parent, root, rank) && x < |parent| && parent[x] < |parent| && parent[x] != x && parent[parent[x]] < |parent|
    ensures Forest(parent[x := parent[parent[x]]], root, rank)
  {
    var after := parent[x := parent[parent[x]]];
    Climb(parent, root, rank, x);
    RootFacts(parent, root, rank, x);
    forall z | 0 <= z < |parent|
      ensures Hangs(after, root, rank, z)
    {
      assert Hangs(parent, root, rank, z);
    }
  }

  ghost function Redirect(root: seq<nat>, from: nat, to: nat): (r: seq<nat>)
    ensures |r| == |root|
    ensures forall x :: 0 <= x < |root| ==> r[x] == if root[x] == from then to else root[x]
  {
    seq(|root|, x requires 0 <= x < |root| => if root[x] == from then to else root[x])
  }

  ghost function Raise(rank: seq<nat>, over: nat, at: nat): seq<nat>
    requires over < |rank| && at < |rank|
  {
    rank[at := if rank[at] > rank[over] then rank[at] else rank[over] + 1]
  }

  lemma UnionKeepsForest(parent: seq<nat>, root: seq<nat>, rank: seq<nat>, from: nat, to: nat)
    requires Forest(parent, root, rank)
    requires from < |parent| && to < |parent| && from != to && parent[from] == from && parent[to] == to
    ensures Forest(parent[from := to], Redirect(root, from, to), Raise(rank, from, to))
  {
    hide Redirect;
    assert Hangs(parent, root, rank, from) && Hangs(parent, root, rank, to);
    var after, newRoot, newRank := parent[from := to], Redirect(root, from, to), Raise(rank, from, to);
    forall z: nat | z < |parent|
      ensures Hangs(after, newRoot, newRank, z)
    {
      assert Hangs(parent, root, rank, z) && Hangs(parent, root, rank, parent[z]) && Hangs(parent, root, rank, root[z]);
    }
  }

  ghost predicate Sound(linked: Relation, n: nat, root: seq<nat>) {
    |root| == n && forall x, y :: 0 <= x < n && 0 <= y < n && root[x] == root[y] ==> Connected(linked, n, x, y)
  }

  lemma UnionKeepsSound(linked: Relation, n: nat, root: seq<nat>, i: nat, j: nat)
    requires Sound(linked, n, root) && i < j < n && linked(i, j)
    ensures Sound(linked, n, Redirect(root, root[j], root[i]))
  {
    hide Connected;
    var to := Redirect(root, root[j], root[i]);
    ConnectedLink(linked, n, i, j);
    forall x, y | 0 <= x < n && 0 <= y < n && to[x] == to[y]
      ensures Connected(linked, n, x, y)
    {
      if root[x] != root[y] {
        if root[x] == root[j] {
          ConnectedTrans(linked, n, x, j, i);
          ConnectedTrans(linked, n, x, i, y);
        } else {
          ConnectedTrans(linked, n, x, i, j);
          ConnectedTrans(linked, n, x, j, y);
        }
      }
    }
  }

  /** One turn of the inner loop: roots only ever merge, and a linked pair ends under one root. */
  method UnitePair(parent: array<nat>, n: nat, linked: Relation, i: nat, j: nat, ghost root: seq<nat>, ghost rank: seq<nat>)
    returns (ghost newRoot: seq<nat>, ghost newRank: seq<nat>)
    requires parent.Length == n == |root| == |rank| && i < j < n
    requires Forest(parent[..], root, rank) && Sound(linked, n, root)
    modifies parent
    ensures |newRoot| == |newRank| == n
    ensures Forest(parent[..], newRoot, newRank) && Sound(linked, n, newRoot)
    ensures Coarser(root, newRoot) && (linked(i, j) ==> newRoot[i] == newRoot[j])
  {
    hide Connected, Sound, Forest, Redirect, Coarser;
    newRoot, newRank := root, rank;
    CoarserSelf(root);
    RootFacts(parent[..], root, rank, i);
    var ri := Find(parent, i, root, rank);
    var rj := Find(parent, j, root, rank);
    if ri != rj && linked(i, j) {
      var to := Find(parent, i, root, rank);
      var from := Find(parent, j, root, rank);
      newRoot, newRank := Hang(parent, from, to, root, rank);
      UnionKeepsSound(linked, n, root, i, j);
      RedirectCoarser(root, from, to);
    }
  }

  ghost predicate Coarser(fine: seq<nat>, coarse: seq<nat>) {
    |fine| == |coarse| && forall x, y :: 0 <= x < y < |fine| && fine[x] == fine[y] ==> coarse[x] == coarse[y]
  }

  lemma CoarserSelf(root: seq<nat>)
    ensures Coarser(root, root)
  {
  }

  lemma RedirectCoarser(root: seq<nat>, from: nat, to: nat)
    ensures Coarser(root, Redirect(root, from, to))
  {
  }

  /** Hanging one root under another merges exactly their two trees. */
  method Hang(parent: array<nat>, from: nat, to: nat, ghost root: seq<nat>, ghost rank: seq<nat>)
    returns (ghost newRoot: seq<nat>, ghost newRank: seq<nat>)
    requires |root| == |rank| == parent.Length && Forest(parent[..], root, rank)
    requires from != to && from in root && to in root
    modifies parent
    ensures newRoot == Redirect(root, from, to) && |newRank| == |rank| && Forest(parent[..], newRoot, newRank)
  {
    hide Forest;
    ghost var x :| 0 <= x < |root| && root[x] == from;
    ghost var y :| 0 <= y < |root| && root[y] == to;
    RootFacts(parent[..], root, rank, x);
    RootFacts(parent[..], root, rank, y);
    UnionKeepsForest(parent[..], root, rank, from, to);
    newRoot, newRank := Redirect(root, from, to), Raise(rank, from, to);
    ghost var was := parent[..];
    parent[from] := to;
    assert parent[..] == was[from := to];
  }

  /** The union loops: afterwards two questions share a root exactly when they are connected. */
  method Unite(n: nat, linked: Relation) returns (parent: array<nat>, ghost root: seq<nat>, ghost rank: seq<nat>)
    ensures fresh(parent) && parent.Length == n == |root|
    ensures Forest(parent[..], root, rank)
    ensures forall x, y :: 0 <= x < n && 0 <= y < n ==> (root[x] == root[y] <==> Connected(linked, n, x, y))
  {
    hide Connected, Forest, Sound;
    parent := new nat[n](i => i);
    root, rank := seq(n, i => i), seq(n, i => 0);
    assert parent[..] == root;
    Singletons(linked, n, root, rank);
    for i := 0 to n
      invariant |root| == |rank| == n && Forest(parent[..], root, rank) && Sound(linked, n, root)
      invariant forall a, b :: 0 <= a < i && a < b < n && linked(a, b) ==> root[a] == root[b]
    {
      for j := i + 1 to n
        invariant |root| == |rank| == n && Forest(parent[..], root, rank) && Sound(linked, n, root)
        invariant forall a, b :: 0 <= a < i && a < b < n && linked(a, b) ==> root[a] == root[b]
        invariant forall b :: i < b < j && linked(i, b) ==> root[i] == root[b]
      {
        root, rank := UnitePair(parent, n, linked, i, j, root, rank);
      }
    }
    RootsAreComponents(linked, n, root);
  }

  lemma Singletons(linked: Relation, n: nat, root: seq<nat>, rank: seq<nat>)
    requires |root| == |rank| == n && forall x :: 0 <= x < n ==> root[x] == x
    ensures Forest(root, root, rank) && Sound(linked, n, root)
  {
    forall x: nat | x < n { ConnectedSelf(linked, n, x); }
    assert forall x: nat :: x < n ==> Hangs(root, root, rank, x);
  }

  lemma RootsAreComponents(linked: Relation, n: nat, root: seq<nat>)
    requires Sound(linked, n, root)
    requires forall a, b :: 0 <= a < b < n && linked(a, b) ==> root[a] == root[b]
    ensures forall x, y :: 0 <= x < n && 0 <= y < n ==> (root[x] == root[y] <==> Connected(linked, n, x, y))
  {
    hide Connected;
    forall x: nat, y: nat | x < n && y < n && Connected(linked, n, x, y)
      ensures root[x] == root[y]
    {
      ConnectedSharesRoot(linked, n, root, x, y);
    }
  }

  lemma ConnectedSharesRoot(linked: Relation, n: nat, root: seq<nat>, x: nat, y: nat)
    requires |root| == n && Connected(linked, n, x, y)
    requires forall a, b :: 0 <= a < b < n && linked(a, b) ==> root[a] == root[b]
    ensures x < n && y < n && root[x] == root[y]
  {
    var p :| IsPath(linked, n, p) && p[0] == x && p[|p| - 1] == y;
    LabelsFollowPath(linked, n, root, p);
  }

  /* ------------------------------------------------------------ groups and heads */

  ghost predicate Ascending(s: seq<nat>) {
    forall i, j :: 0 <= i < j < |s| ==> s[i] < s[j]
  }

  /** The indices below `bound` under root `r`, in order. */
  ghost predicate IsGroup(root: seq<nat>, bound: nat, r: nat, members: seq<nat>)
    requires bound <= |root|
  {
    Ascending(members) && members != [] && forall x: nat :: x in members <==> x < bound && root[x] == r
  }

  /** The grouping loop: every index under its root, in order. */
  method Gather(parent: array<nat>, ghost root: seq<nat>, ghost rank: seq<nat>) returns (groups: map<nat, seq<nat>>)
    requires |root| == parent.Length && Forest(parent[..], root, rank)
    modifies parent
    ensures forall r :: r in groups ==> IsGroup(root, |root|, r, groups[r])
    ensures forall x :: 0 <= x < |root| ==> root[x] in groups
  {
    hide Forest, IsGroup;
    groups := map[];
    for i := 0 to parent.Length
      invariant Forest(parent[..], root, rank)
      invariant Grouped(root, i, groups)
    {
      var r := Find(parent, i, root, rank);
      var members := if r in groups then groups[r] else [];
      OneMoreGrouped(root, i, groups);
      groups := groups[r := members + [i]];
    }
  }

  ghost predicate Grouped(root: seq<nat>, bound: nat, groups: map<nat, seq<nat>>)
    requires bound <= |root|
  {
    && (forall r :: r in groups ==> IsGroup(root, bound, r, groups[r]))
    && (forall x :: 0 <= x < bound ==> root[x] in groups)
  }

  lemma OneMoreGrouped(root: seq<nat>, i: nat, groups: map<nat, seq<nat>>)
    requires i < |root| && Grouped(root, i, groups)
    ensures Grouped(root, i + 1, groups[root[i] := (if root[i] in groups then groups[root[i]] else []) + [i]])
  {
    hide IsGroup;
    if root[i] !in groups {
      GroupStarts(root, i, groups);
    }
    var after := groups[root[i] := (if root[i] in groups then groups[root[i]] else []) + [i]];
    forall r | r in after
      ensures IsGroup(root, i + 1, r, after[r])
    {
      if r in groups {
        GroupGrows(root, i, r, groups[r]);
      }
    }
  }

  lemma GroupGrows(root: seq<nat>, i: nat, r: nat, members: seq<nat>)
    requires i < |root| && IsGroup(root, i, r, members)
    ensures IsGroup(root, i + 1, r, if root[i] == r then members + [i] else members)
  {
    assert forall k :: 0 <= k < |members| ==> members[k] in members;
  }

  lemma GroupStarts(root: seq<nat>, i: nat, groups: map<nat, seq<nat>>)
    requires i < |root| && root[i] !in groups && forall x :: 0 <= x < i ==> root[x] in groups
    ensures IsGroup(root, i + 1, root[i], [i])
    ensures [] + [i] == [i]
  {
  }

  /** Longest first, the earlier one on a tie: `max` under the key (len(gist), -i). */
  predicate Better(size: nat -> nat, i: nat, j: nat) {
    size(i) > size(j) || (size(i) == size(j) && i <= j)
  }

  ghost predicate IsHead(size: nat -> nat, members: seq<nat>, h: nat) {
    h in members && forall i :: i in members ==> size(i) <= size(h) && (size(i) == size(h) ==> h <= i)
  }

  method Head(size: nat -> nat, members: seq<nat>) returns (h: nat)
    requires members != []
    ensures IsHead(size, members, h)
  {
    h := members[0];
    for k := 1 to |members|
      invariant h in members && forall i :: 0 <= i < k ==> Better(size, h, members[i])
    {
      if !Better(size, h, members[k]) {
        h := members[k];
      }
    }
  }

  ghost predicate Placed(clusters: map<nat, seq<nat>>, i: nat) {
    exists h :: h in clusters && i in clusters[h]
  }

  ghost predicate Covers(clusters: map<nat, seq<nat>>, members: seq<nat>) {
    exists h :: h in clusters && clusters[h] == members
  }

  /** A whole connected component, and nothing else. */
  ghost predicate IsComponent(n: nat, linked: Relation, members: seq<nat>) {
    && (forall k :: 0 <= k < |members| ==> members[k] < n)
    && (forall i, j :: i in members && j in members ==> Connected(linked, n, i, j))
    && (forall i, j :: i in members && Connected(linked, n, i, j) ==> j in members)
  }

  /** What the clustering promises: the clusters partition the questions into connected components, and each is
      filed under its most informative member. */
  ghost predicate AreComponents(n: nat, linked: Relation, size: nat -> nat, clusters: map<nat, seq<nat>>) {
    && (forall h :: h in clusters ==>
          Ascending(clusters[h]) && IsHead(size, clusters[h], h) && IsComponent(n, linked, clusters[h]))
    && (forall i: nat :: i < n ==> Placed(clusters, i))
  }

  /** `_question_clusters`, head -> members. */
  method Clusters(n: nat, linked: Relation, size: nat -> nat) returns (clusters: map<nat, seq<nat>>)
    ensures AreComponents(n, linked, size, clusters)
  {
    hide Connected, IsHead, Forest, IsGroup;
    var parent, root, rank := Unite(n, linked);
    var groups := Gather(parent, root, rank);
    clusters := map[];
    var rest := groups.Keys;
    while rest != {}
      invariant rest <= groups.Keys
      invariant forall h :: h in clusters ==> Filed(groups, root, size, h, clusters[h]) && root[h] !in rest
      invariant forall r :: r in groups.Keys - rest ==> Covers(clusters, groups[r])
      decreases |rest|
    {
      var r :| r in rest;
      GroupNotEmpty(root, r, groups[r]);
      var h := Head(size, groups[r]);
      HeadIsMember(size, root, r, groups[r], h);
      ghost var was := clusters;
      clusters := clusters[h := groups[r]];
      rest := rest - {r};
      forall r' | r' in groups.Keys - rest
        ensures Covers(clusters, groups[r'])
      {
        if r' == r {
          assert clusters[h] == groups[r];
        } else {
          var h' :| h' in was && was[h'] == groups[r'];
          assert h' != h;
          assert h' in clusters && clusters[h'] == groups[r'];
        }
      }
    }
    FiledAreComponents(n, linked, size, root, groups, clusters);
  }

  ghost predicate Filed(groups: map<nat, seq<nat>>, root: seq<nat>, size: nat -> nat, h: nat, members: seq<nat>) {
    h < |root| && root[h] in groups && members == groups[root[h]] && IsHead(size, members, h)
  }

  lemma FiledAreComponents(n: nat, linked: Relation, size: nat -> nat, root: seq<nat>,
                           groups: map<nat, seq<nat>>, clusters: map<nat, seq<nat>>)
    requires |root| == n
    requires forall x, y :: 0 <= x < n && 0 <= y < n ==> (root[x] == root[y] <==> Connected(linked, n, x, y))
    requires forall r :: r in groups ==> IsGroup(root, n, r, groups[r])
    requires forall x :: 0 <= x < n ==> root[x] in groups
    requires forall h :: h in clusters ==> Filed(groups, root, size, h, clusters[h])
    requires forall r :: r in groups ==> Covers(clusters, groups[r])
    ensures AreComponents(n, linked, size, clusters)
  {
    hide Connected, IsHead;
    forall i: nat | i < n
      ensures Placed(clusters, i)
    {
      assert Covers(clusters, groups[root[i]]) && IsGroup(root, n, root[i], groups[root[i]]);
      var h :| h in clusters && clusters[h] == groups[root[i]];
      assert i in clusters[h];
    }
    forall h | h in clusters
      ensures IsComponent(n, linked, clusters[h]) && Ascending(clusters[h])
    {
      assert Filed(groups, root, size, h, clusters[h]);
      GroupIsComponent(n, linked, root, root[h], clusters[h]);
    }
  }

  lemma ConnectedBelow(linked: Relation, n: nat, i: nat, j: nat)
    requires Connected(linked, n, i, j)
    ensures i < n && j < n
  {
  }

  lemma GroupIsComponent(n: nat, linked: Relation, root: seq<nat>, r: nat, members: seq<nat>)
    requires |root| == n && IsGroup(root, n, r, members)
    requires forall x, y :: 0 <= x < n && 0 <= y < n ==> (root[x] == root[y] <==> Connected(linked, n, x, y))
    ensures IsComponent(n, linked, members)
  {
    hide Connected;
    forall k | 0 <= k < |members|
      ensures members[k] < n
    {
      assert members[k] in members;
    }
    forall i: nat, j: nat | i in members && Connected(linked, n, i, j)
      ensures j in members
    {
      ConnectedBelow(linked, n, i, j);
    }
  }

  lemma GroupNotEmpty(root: seq<nat>, r: nat, members: seq<nat>)
    requires IsGroup(root, |root|, r, members)
    ensures members != []
  {
  }

  lemma HeadIsMember(size: nat -> nat, root: seq<nat>, r: nat, members: seq<nat>, h: nat)
    requires IsGroup(root, |root|, r, members) && IsHead(size, members, h)
    ensures h < |root| && root[h] == r
  {
  }
}
