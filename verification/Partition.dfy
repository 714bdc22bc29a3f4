/** Splitting a spec into review units (loop/spec_review.py, `partition` and `_merge_units`). Which state, parameters
    and tests an algorithm mentions, and which state it writes, are parameters: they come out of name matching. */
module Partition {
  import opened Wrappers
  import opened QuestionClusters

  /** A pointer into the spec: /algorithms/i, /state/i, /parameters/i, /unit_tests/i or a top-level key. */
  datatype Element = Algorithm(i: nat) | State(i: nat) | Parameter(i: nat) | Test(i: nat) | Global(key: string)

  datatype Unit = Unit(id: string, elements: seq<Element>, appendScope: set<string>)

  datatype Spec = Spec(
    algorithms: nat, states: nat, parameters: nat,
    globals: seq<string>,
    names: seq<string>,
    mentionsState: seq<seq<nat>>,
    mentionsParameter: seq<seq<nat>>,
    exercisedBy: seq<seq<nat>>,
    writes: seq<set<nat>>)
  {
    ghost predicate Valid() {
      |names| == |mentionsState| == |mentionsParameter| == |exercisedBy| == |writes| == algorithms
    }
  }

  /* ------------------------------------------------------------ merging two units */

  ghost function Covers(u: Unit): set<Element> {
    set e | e in u.elements
  }

  /** What stands first in the one came first in the other. */
  ghost predicate AsTheyCame(all: seq<Element>, elements: seq<Element>) {
    forall i, j :: 0 <= i < j < |elements| ==> CameBefore(all, elements[i], elements[j])
  }

  ghost predicate CameBefore(all: seq<Element>, e: Element, f: Element) {
    exists m :: 0 <= m < |all| && all[m] == e && f !in all[..m + 1]
  }

  lemma OneMoreCame(all: seq<Element>, elements: seq<Element>, e: Element)
    requires AsTheyCame(all, elements) && forall f :: f in elements <==> f in all
    ensures AsTheyCame(all + [e], elements)
    ensures e !in all ==> AsTheyCame(all + [e], elements + [e])
  {
    var more := all + [e];
    forall f, g | CameBefore(all, f, g)
      ensures CameBefore(more, f, g)
    {
      var m :| 0 <= m < |all| && all[m] == f && g !in all[..m + 1];
      assert more[m] == f && more[..m + 1] == all[..m + 1];
    }
    if e !in all {
      forall f | f in all
        ensures CameBefore(more, f, e)
      {
        var m :| 0 <= m < |all| && all[m] == f;
        assert more[m] == f && more[..m + 1] == all[..m + 1];
      }
    }
  }

  /** `_merge_units`: each pointer once, in the order they come. */
  method MergeUnits(a: Unit, b: Unit) returns (merged: Unit)
    ensures Covers(merged) == Covers(a) + Covers(b)
    ensures forall i, j :: 0 <= i < j < |merged.elements| ==> merged.elements[i] != merged.elements[j]
    ensures AsTheyCame(a.elements + b.elements, merged.elements)
    ensures merged.appendScope == a.appendScope + b.appendScope && merged.id == a.id + "+" + b.id
  {
    var all := a.elements + b.elements;
    var seen: set<Element>, elements: seq<Element> := {}, [];
    for i := 0 to |all|
      invariant forall e :: e in seen <==> e in elements
      invariant forall e :: e in elements <==> e in all[..i]
      invariant forall i, j :: 0 <= i < j < |elements| ==> elements[i] != elements[j]
      invariant AsTheyCame(all[..i], elements)
    {
      assert all[..i + 1] == all[..i] + [all[i]];
      OneMoreCame(all[..i], elements, all[i]);
      if all[i] !in seen {
        seen := seen + {all[i]};
        elements := elements + [all[i]];
      }
    }
    assert all[..|all|] == all;
    merged := Unit(a.id + "+" + b.id, elements, a.appendScope + b.appendScope);
  }

  /* ------------------------------------------------------------ one unit per algorithm */

  datatype Kind = States | Parameters | Tests

  function Pointer(kind: Kind, i: nat): Element {
    match kind
    case States => State(i)
    case Parameters => Parameter(i)
    case Tests => Test(i)
  }

  function Indexed(kind: Kind, indices: seq<nat>): (out: seq<Element>)
    ensures |out| == |indices| && forall k :: 0 <= k < |out| ==> out[k] == Pointer(kind, indices[k])
  {
    if indices == [] then [] else [Pointer(kind, indices[0])] + Indexed(kind, indices[1..])
  }

  function UnitOf(spec: Spec, a: nat): (u: Unit)
    requires a < spec.algorithms
    requires |spec.names| == |spec.mentionsState| == |spec.mentionsParameter| == |spec.exercisedBy| == spec.algorithms
  {
    Unit("algo:" + spec.names[a],
         [Algorithm(a)] + Indexed(States, spec.mentionsState[a])
         + Indexed(Parameters, spec.mentionsParameter[a]) + Indexed(Tests, spec.exercisedBy[a]),
         {"/parameters/-"})
  }

  lemma IndexedCovers(kind: Kind, indices: seq<nat>, e: Element)
    ensures e in Indexed(kind, indices) <==> exists k :: 0 <= k < |indices| && Pointer(kind, indices[k]) == e
  {
    var out := Indexed(kind, indices);
    if k :| 0 <= k < |indices| && Pointer(kind, indices[k]) == e {
      assert out[k] == e;
    }
  }

  lemma UnitOfCoversOne(spec: Spec, a: nat, e: Element)
    requires spec.Valid() && a < spec.algorithms
    ensures e in Covers(UnitOf(spec, a)) <==>
            (e == Algorithm(a) || (e.State? && e.i in spec.mentionsState[a])
             || (e.Parameter? && e.i in spec.mentionsParameter[a]) || (e.Test? && e.i in spec.exercisedBy[a]))
  {
    hide Indexed;
    IndexedCovers(States, spec.mentionsState[a], e);
    IndexedCovers(Parameters, spec.mentionsParameter[a], e);
    IndexedCovers(Tests, spec.exercisedBy[a], e);
  }

  lemma UnitMayMint(spec: Spec, a: nat)
    requires spec.Valid() && a < spec.algorithms
    ensures UnitOf(spec, a).appendScope == {"/parameters/-"} && UnitOf(spec, a).id == "algo:" + spec.names[a]
  {
  }

  lemma UnitOfCovers(spec: Spec, a: nat)
    requires spec.Valid() && a < spec.algorithms
    ensures forall b: nat :: Algorithm(b) in Covers(UnitOf(spec, a)) <==> b == a
    ensures forall i: nat :: State(i) in Covers(UnitOf(spec, a)) <==> i in spec.mentionsState[a]
    ensures forall i: nat :: Parameter(i) in Covers(UnitOf(spec, a)) <==> i in spec.mentionsParameter[a]
  {
    hide Indexed, UnitOf, Covers;
    forall b: nat ensures Algorithm(b) in Covers(UnitOf(spec, a)) <==> b == a { UnitOfCoversOne(spec, a, Algorithm(b)); }
    forall i: nat ensures State(i) in Covers(UnitOf(spec, a)) <==> i in spec.mentionsState[a] { UnitOfCoversOne(spec, a, State(i)); }
    forall i: nat ensures Parameter(i) in Covers(UnitOf(spec, a)) <==> i in spec.mentionsParameter[a] { UnitOfCoversOne(spec, a, Parameter(i)); }
  }

  /* ------------------------------------------------------------ shared writers */

  /** Two algorithms store into a common state entry among the first `bound`. */
  function Shares(writes: seq<set<nat>>, bound: nat): Relation {
    (i: nat, j: nat) => i < |writes| && j < |writes| && exists s :: 0 <= s < bound && s in writes[i] && s in writes[j]
  }

  lemma SharesGrows(writes: seq<set<nat>>, bound: nat, a: nat, b: nat)
    requires Connected(Shares(writes, bound), |writes|, a, b)
    ensures Connected(Shares(writes, bound + 1), |writes|, a, b)
  {
    var small, big := Shares(writes, bound), Shares(writes, bound + 1);
    var p :| IsPath(small, |writes|, p) && p[0] == a && p[|p| - 1] == b;
    assert forall i, j :: small(i, j) ==> big(i, j);
    assert IsPath(big, |writes|, p);
  }

  lemma SharersConnected(writes: seq<set<nat>>, bound: nat, s: nat, a: nat, b: nat)
    requires a < |writes| && b < |writes| && s < bound && s in writes[a] && s in writes[b]
    ensures Connected(Shares(writes, bound), |writes|, a, b)
  {
    if a == b {
      ConnectedSelf(Shares(writes, bound), |writes|, a);
    } else if a < b {
      ConnectedLink(Shares(writes, bound), |writes|, a, b);
    } else {
      ConnectedLink(Shares(writes, bound), |writes|, b, a);
    }
  }

  /** `home` labels the algorithms by component. */
  ghost predicate LabelsComponents(writes: seq<set<nat>>, bound: nat, home: seq<nat>) {
    |home| == |writes| &&
    forall a, b :: 0 <= a < |home| && 0 <= b < |home| ==>
      (home[a] == home[b] <==> Connected(Shares(writes, bound), |writes|, a, b))
  }

  lemma NothingShared(writes: seq<set<nat>>, home: seq<nat>)
    requires |home| == |writes| && forall a :: 0 <= a < |home| ==> home[a] == a
    ensures LabelsComponents(writes, 0, home)
  {
    forall a: nat, b: nat | a < |home| && b < |home|
      ensures home[a] == home[b] <==> Connected(Shares(writes, 0), |writes|, a, b)
    {
      if a == b {
        ConnectedSelf(Shares(writes, 0), |writes|, a);
      }
      if Connected(Shares(writes, 0), |writes|, a, b) {
        var p :| IsPath(Shares(writes, 0), |writes|, p) && p[0] == a && p[|p| - 1] == b;
        LabelsFollowPath(Shares(writes, 0), |writes|, home, p);
      }
    }
  }

  /** Folding every component that writes state `s` into one is the component structure with `s` counted in. */
  lemma FoldKeepsLabels(writes: seq<set<nat>>, s: nat, home: seq<nat>, group: set<nat>, first: nat, after: seq<nat>)
    requires LabelsComponents(writes, s, home) && |after| == |home|
    requires forall h :: h in group <==> exists a :: 0 <= a < |home| && s in writes[a] && home[a] == h
    requires group != {} ==> first in group
    requires forall a :: 0 <= a < |home| ==> after[a] == if home[a] in group then first else home[a]
    ensures LabelsComponents(writes, s + 1, after)
  {
    hide Connected;
    var n, big := |writes|, Shares(writes, s + 1);
    forall a: nat, b: nat | a < n && b < n && after[a] == after[b]
      ensures Connected(big, n, a, b)
    {
      if home[a] == home[b] {
        SharesGrows(writes, s, a, b);
      } else {
        assert home[a] in group && home[b] in group;
        var a' :| 0 <= a' < n && s in writes[a'] && home[a'] == home[a];
        var b' :| 0 <= b' < n && s in writes[b'] && home[b'] == home[b];
        SharesGrows(writes, s, a, a');
        SharersConnected(writes, s + 1, s, a', b');
        SharesGrows(writes, s, b', b);
        ConnectedTrans(big, n, a, a', b');
        ConnectedTrans(big, n, a, b', b);
      }
    }
    forall a: nat, b: nat | a < b < n && big(a, b)
      ensures after[a] == after[b]
    {
      var t :| 0 <= t < s + 1 && t in writes[a] && t in writes[b];
      if t < s {
        SharersConnected(writes, s, t, a, b);
      } else {
        assert home[a] in group && home[b] in group;
      }
    }
    forall a: nat, b: nat | a < n && b < n && Connected(big, n, a, b)
      ensures after[a] == after[b]
    {
      ConnectedSharesRoot(big, n, after, a, b);
    }
  }

  /* ------------------------------------------------------------ the merge loop */

  /** Slot `h` holds one unit covering what its algorithms' units cover, or nothing when no algorithm lives there. */
  ghost predicate Houses(spec: Spec, home: seq<nat>, h: nat, slot: Option<Unit>)
    requires spec.Valid() && |home| == spec.algorithms
  {
    && (slot.Some? <==> h in home)
    && (slot.Some? ==> slot.value.appendScope == {"/parameters/-"})
    && (slot.Some? ==> forall e :: e in Covers(slot.value) <==>
          exists a :: 0 <= a < |home| && home[a] == h && e in Covers(UnitOf(spec, a)))
  }

  ghost predicate Housed(spec: Spec, slots: seq<Option<Unit>>, home: seq<nat>)
    requires spec.Valid()
  {
    && |slots| == |home| == spec.algorithms
    && (forall a :: 0 <= a < |home| ==> home[a] < |slots|)
    && forall h :: 0 <= h < |slots| ==> Houses(spec, home, h, slots[h])
  }

  function Rehome(home: seq<nat>, other: nat, first: nat): (after: seq<nat>)
    ensures |after| == |home|
    ensures forall a :: 0 <= a < |home| ==> after[a] == if home[a] == other then first else home[a]
  {
    seq(|home|, a requires 0 <= a < |home| => if home[a] == other then first else home[a])
  }

  lemma MergeKeepsHoused(spec: Spec, slots: seq<Option<Unit>>, home: seq<nat>, first: nat, other: nat, merged: Unit)
    requires spec.Valid() && Housed(spec, slots, home)
    requires first in home && other in home && first != other
    requires slots[first].Some? && slots[other].Some?
    requires Covers(merged) == Covers(slots[first].value) + Covers(slots[other].value)
    requires merged.appendScope == slots[first].value.appendScope + slots[other].value.appendScope
    ensures Housed(spec, slots[first := Some(merged)][other := None], Rehome(home, other, first))
  {
    hide Covers, UnitOf;
    var after, slots' := Rehome(home, other, first), slots[first := Some(merged)][other := None];
    forall h | 0 <= h < |slots'|
      ensures Houses(spec, after, h, slots'[h])
    {
      assert Houses(spec, home, h, slots[h]) && Houses(spec, home, first, slots[first]) && Houses(spec, home, other, slots[other]);
      if h == first {
        var a :| 0 <= a < |home| && home[a] == first;
        assert after[a] == first;
      } else if h != other && h in home {
        var a :| 0 <= a < |home| && home[a] == h;
        assert after[a] == h;
      }
    }
  }

  /** All the units that hold a writer of state `s`, folded into the first of them. */
  method FoldWriters(spec: Spec, s: nat, slots0: seq<Option<Unit>>, home0: seq<nat>)
    returns (slots: seq<Option<Unit>>, home: seq<nat>)
    requires spec.Valid() && Housed(spec, slots0, home0) && LabelsComponents(spec.writes, s, home0)
    ensures Housed(spec, slots, home) && LabelsComponents(spec.writes, s + 1, home)
  {
    hide LabelsComponents, Houses, UnitOf;
    slots, home := slots0, home0;
    var group := set a | 0 <= a < |home0| && s in spec.writes[a] :: home0[a];
    var first := None;
    for h := 0 to |slots0|
      invariant Housed(spec, slots, home)
      invariant first == None ==> forall g :: g in group ==> g >= h
      invariant first.Some? ==> first.value in group && first.value < h
      invariant forall a :: 0 <= a < |home| ==>
                  home[a] == if first.Some? && home0[a] in group && home0[a] < h then first.value else home0[a]
    {
      if h in group {
        if first == None {
          first := Some(h);
        } else {
          StillHoused(spec, slots, home, home0, group, first.value);
          StillHoused(spec, slots, home, home0, group, h);
          var merged := MergeUnits(slots[first.value].value, slots[h].value);
          MergeKeepsHoused(spec, slots, home, first.value, h, merged);
          slots := slots[first.value := Some(merged)][h := None];
          home := Rehome(home, h, first.value);
        }
      }
    }
    FoldKeepsLabels(spec.writes, s, home0, group, if first.Some? then first.value else 0, home);
  }

  lemma StillHoused(spec: Spec, slots: seq<Option<Unit>>, home: seq<nat>, home0: seq<nat>, group: set<nat>, h: nat)
    requires spec.Valid() && Housed(spec, slots, home) && |home0| == |home|
    requires h in group && forall g :: g in group ==> g in home0
    requires forall a :: 0 <= a < |home| && home0[a] == h ==> home[a] == h
    ensures h in home && h < |slots| && slots[h].Some?
  {
    var a :| 0 <= a < |home0| && home0[a] == h;
    assert home[a] == h;
    assert Houses(spec, home, h, slots[h]);
  }

  /* ------------------------------------------------------------ counting the units that cover something */

  /** How many units cover every element of `es`. */
  ghost function Count(units: seq<Unit>, es: set<Element>): nat {
    if units == [] then 0
    else Count(units[..|units| - 1], es) + (if es <= Covers(units[|units| - 1]) then 1 else 0)
  }

  function Compact(slots: seq<Option<Unit>>): seq<Unit> {
    if slots == [] then []
    else Compact(slots[..|slots| - 1]) + (match slots[|slots| - 1] case None => [] case Some(u) => [u])
  }

  ghost predicate SlotCovers(slots: seq<Option<Unit>>, h: nat, es: set<Element>) {
    h < |slots| && slots[h].Some? && es <= Covers(slots[h].value)
  }

  lemma {:induction false} CountAppend(units: seq<Unit>, u: Unit, es: set<Element>)
    ensures Count(units + [u], es) == Count(units, es) + (if es <= Covers(u) then 1 else 0)
  {
    assert (units + [u])[..|units|] == units;
  }

  lemma {:induction false} CountCompact(slots: seq<Option<Unit>>, es: set<Element>, n: nat)
    requires n <= |slots|
    ensures (forall h :: 0 <= h < n ==> !SlotCovers(slots, h, es)) ==> Count(Compact(slots[..n]), es) == 0
    ensures forall h :: 0 <= h < n && SlotCovers(slots, h, es) ==> Count(Compact(slots[..n]), es) >= 1
    ensures forall h :: 0 <= h < n && SlotCovers(slots, h, es) && (forall g :: 0 <= g < n && g != h ==> !SlotCovers(slots, g, es))
              ==> Count(Compact(slots[..n]), es) == 1
  {
    hide Covers;
    if n > 0 {
      CountCompact(slots, es, n - 1);
      assert slots[..n][..n - 1] == slots[..n - 1];
      var front := Compact(slots[..n - 1]);
      if slots[n - 1].Some? {
        assert Compact(slots[..n]) == front + [slots[n - 1].value];
        CountAppend(front, slots[n - 1].value, es);
      } else {
        assert Compact(slots[..n]) == front + [] == front;
      }
      assert SlotCovers(slots, n - 1, es) <==> slots[n - 1].Some? && es <= Covers(slots[n - 1].value);
    }
  }

  lemma {:induction false} CountConcat(xs: seq<Unit>, ys: seq<Unit>, es: set<Element>)
    ensures Count(xs + ys, es) == Count(xs, es) + Count(ys, es)
  {
    if ys == [] {
      assert xs + ys == xs;
    } else {
      var last := |ys| - 1;
      CountConcat(xs, ys[..last], es);
      assert (xs + ys)[..|xs| + last] == xs + ys[..last];
    }
  }

  /* ------------------------------------------------------------ the cap */

  function Insert(u: Unit, sorted: seq<Unit>): (out: seq<Unit>)
    ensures |out| == |sorted| + 1
  {
    if sorted == [] || |sorted[|sorted| - 1].elements| <= |u.elements| then sorted + [u]
    else Insert(u, sorted[..|sorted| - 1]) + [sorted[|sorted| - 1]]
  }

  /** `units.sort(key=lambda u: len(u.elements))`: stable. */
  function SortBySize(units: seq<Unit>): (out: seq<Unit>)
    ensures |out| == |units|
  {
    if units == [] then [] else Insert(units[|units| - 1], SortBySize(units[..|units| - 1]))
  }

  ghost predicate Ascending(units: seq<Unit>) {
    forall i, j :: 0 <= i < j < |units| ==> |units[i].elements| <= |units[j].elements|
  }

  function OfSize(units: seq<Unit>, n: nat): seq<Unit> {
    if units == [] then []
    else OfSize(units[..|units| - 1], n) + (if |units[|units| - 1].elements| == n then [units[|units| - 1]] else [])
  }

  /** The same units by size, those of one size in the order they were. */
  ghost predicate IsSortOf(units: seq<Unit>, sorted: seq<Unit>) {
    && Ascending(sorted)
    && multiset(sorted) == multiset(units)
    && forall n: nat :: OfSize(sorted, n) == OfSize(units, n)
  }

  lemma OfSizeOneMore(units: seq<Unit>, u: Unit, n: nat)
    ensures OfSize(units + [u], n) == OfSize(units, n) + (if |u.elements| == n then [u] else [])
  {
    assert (units + [u])[..|units|] == units;
  }

  lemma {:induction false} InsertIsSort(u: Unit, sorted: seq<Unit>)
    requires Ascending(sorted)
    ensures IsSortOf(sorted + [u], Insert(u, sorted))
  {
    hide OfSize, IsSortOf, Ascending;
    if sorted == [] || |sorted[|sorted| - 1].elements| <= |u.elements| {
      InsertAtEnd(u, sorted);
    } else {
      var last := |sorted| - 1;
      FrontAscends(sorted);
      InsertIsSort(u, sorted[..last]);
      InsertBelow(u, sorted[..last], sorted[last], Insert(u, sorted[..last]));
      assert sorted == sorted[..last] + [sorted[last]];
    }
  }

  lemma FrontAscends(sorted: seq<Unit>)
    requires Ascending(sorted) && sorted != []
    ensures Ascending(sorted[..|sorted| - 1]) && forall u :: u in sorted ==> |u.elements| <= |sorted[|sorted| - 1].elements|
  {
  }

  lemma InsertAtEnd(u: Unit, sorted: seq<Unit>)
    requires Ascending(sorted) && (sorted == [] || |sorted[|sorted| - 1].elements| <= |u.elements|)
    ensures Insert(u, sorted) == sorted + [u] && IsSortOf(sorted + [u], sorted + [u])
  {
    hide OfSize;
  }

  lemma InsertBelow(u: Unit, front: seq<Unit>, end: Unit, out: seq<Unit>)
    requires IsSortOf(front + [u], out) && |u.elements| < |end.elements| && forall v :: v in front ==> |v.elements| <= |end.elements|
    ensures IsSortOf(front + [end] + [u], out + [end])
  {
    hide OfSize;
    forall i | 0 <= i < |out|
      ensures |out[i].elements| <= |end.elements|
    {
      assert out[i] in multiset(out);
      assert out[i] in front + [u];
    }
    forall n: nat
      ensures OfSize(out + [end], n) == OfSize(front + [end] + [u], n)
    {
      OfSizeOneMore(out, end, n);
      OfSizeOneMore(front, u, n);
      OfSizeOneMore(front, end, n);
      OfSizeOneMore(front + [end], u, n);
    }
  }

  lemma {:induction false} SortBySizeIs(units: seq<Unit>)
    ensures IsSortOf(units, SortBySize(units))
  {
    if units != [] {
      hide OfSize;
      var last := |units| - 1;
      var front := SortBySize(units[..last]);
      SortBySizeIs(units[..last]);
      InsertIsSort(units[last], front);
      assert units == units[..last] + [units[last]];
      forall n: nat
        ensures OfSize(front + [units[last]], n) == OfSize(units, n)
      {
        OfSizeOneMore(front, units[last], n);
        OfSizeOneMore(units[..last], units[last], n);
      }
    }
  }

  lemma {:induction false} InsertCounts(u: Unit, sorted: seq<Unit>, es: set<Element>)
    ensures Count(Insert(u, sorted), es) == Count(sorted + [u], es)
  {
    if sorted == [] || |sorted[|sorted| - 1].elements| <= |u.elements| {
    } else {
      var last := |sorted| - 1;
      InsertCounts(u, sorted[..last], es);
      CountAppend(Insert(u, sorted[..last]), sorted[last], es);
      CountAppend(sorted[..last], u, es);
      CountAppend(sorted, u, es);
    }
  }

  lemma {:induction false} SortCounts(units: seq<Unit>, es: set<Element>)
    ensures Count(SortBySize(units), es) == Count(units, es)
  {
    if units != [] {
      var last := |units| - 1;
      SortCounts(units[..last], es);
      InsertCounts(units[last], SortBySize(units[..last]), es);
      CountAppend(SortBySize(units[..last]), units[last], es);
    }
  }

  /** Everything a unit covered is still covered by one unit, and what one unit alone covered, one alone covers. */
  ghost predicate Coarsens(before: seq<Unit>, after: seq<Unit>) {
    && (forall es :: Count(before, es) >= 1 ==> Count(after, es) >= 1)
    && forall e :: Count(before, {e}) == 1 ==> Count(after, {e}) == 1
  }

  lemma MergeTwoCoarsens(units: seq<Unit>, merged: Unit)
    requires |units| >= 2 && Covers(merged) == Covers(units[0]) + Covers(units[1])
    ensures Coarsens(units, units[2..] + [merged])
  {
    hide Covers;
    var a, b, rest := units[0], units[1], units[2..];
    forall es
      ensures Count(units, es) == (if es <= Covers(a) then 1 else 0) + (if es <= Covers(b) then 1 else 0) + Count(rest, es)
      ensures Count(rest + [merged], es) == Count(rest, es) + (if es <= Covers(merged) then 1 else 0)
    {
      assert units == [a] + [b] + rest;
      CountConcat([a] + [b], rest, es);
      CountAppend([a], b, es);
      assert [a] == [] + [a];
      CountAppend([], a, es);
      CountAppend(rest, merged, es);
    }
  }

  lemma CoarsensTrans(a: seq<Unit>, b: seq<Unit>, c: seq<Unit>)
    requires Coarsens(a, b) && Coarsens(b, c)
    ensures Coarsens(a, c)
  {
  }

  lemma SortCoarsens(units: seq<Unit>)
    ensures Coarsens(units, SortBySize(units))
  {
    forall es { SortCounts(units, es); }
  }

  /** The two smallest units become one, which goes last. */
  ghost predicate MergesSmallest(before: seq<Unit>, after: seq<Unit>) {
    exists sorted, merged :: IsSortOf(before, sorted) && |sorted| >= 2 && after == sorted[2..] + [merged] && IsMerge(sorted[0], sorted[1], merged)
  }

  ghost predicate IsMerge(a: Unit, b: Unit, merged: Unit) {
    && Covers(merged) == Covers(a) + Covers(b) && merged.appendScope == a.appendScope + b.appendScope
    && merged.id == a.id + "+" + b.id
    && AsTheyCame(a.elements + b.elements, merged.elements)
    && forall i, j :: 0 <= i < j < |merged.elements| ==> merged.elements[i] != merged.elements[j]
  }

  /** Merge after merge, each of too many units. */
  ghost predicate Merges(units0: seq<Unit>, cap: int, steps: seq<seq<Unit>>) {
    && steps != [] && steps[0] == units0
    && forall k :: 0 <= k < |steps| - 1 ==> |steps[k]| > cap && MergesSmallest(steps[k], steps[k + 1])
  }

  lemma OneMoreMerge(units0: seq<Unit>, cap: int, steps: seq<seq<Unit>>, after: seq<Unit>)
    requires Merges(units0, cap, steps) && |steps[|steps| - 1]| > cap && MergesSmallest(steps[|steps| - 1], after)
    ensures Merges(units0, cap, steps + [after])
  {
    hide MergesSmallest;
    var more := steps + [after];
    forall k | 0 <= k < |more| - 1
      ensures |more[k]| > cap && MergesSmallest(more[k], more[k + 1])
    {
      assert k < |steps| - 1 ==> more[k + 1] == steps[k + 1];
    }
  }

  /** Every unit lies in one that may append at least what it may. */
  ghost predicate Within(before: seq<Unit>, after: seq<Unit>) {
    forall u :: u in before ==> Holds(after, Covers(u), u.appendScope)
  }

  /** One unit covers these elements and may append at these places. */
  ghost predicate Holds(units: seq<Unit>, es: set<Element>, scope: set<string>) {
    exists v :: v in units && es <= Covers(v) && scope <= v.appendScope
  }

  lemma WithinHolds(before: seq<Unit>, after: seq<Unit>, es: set<Element>, scope: set<string>)
    requires Within(before, after) && Holds(before, es, scope)
    ensures Holds(after, es, scope)
  {
    hide Covers;
    var u :| u in before && es <= Covers(u) && scope <= u.appendScope;
    var v :| v in after && Covers(u) <= Covers(v) && u.appendScope <= v.appendScope;
  }

  lemma MergeIsWithin(before: seq<Unit>, sorted: seq<Unit>, merged: Unit)
    requires IsSortOf(before, sorted) && |sorted| >= 2 && IsMerge(sorted[0], sorted[1], merged)
    ensures Within(before, sorted[2..] + [merged])
  {
    hide Covers, OfSize;
    var after := sorted[2..] + [merged];
    forall u | u in before
      ensures Holds(after, Covers(u), u.appendScope)
    {
      assert u in multiset(sorted);
      var k :| 0 <= k < |sorted| && sorted[k] == u;
      if k < 2 {
        assert after[|after| - 1] == merged && merged in after;
      } else {
        assert after[k - 2] == u;
      }
    }
  }

  lemma WithinTrans(a: seq<Unit>, b: seq<Unit>, c: seq<Unit>)
    requires Within(a, b) && Within(b, c)
    ensures Within(a, c)
  {
    forall u | u in a
      ensures Holds(c, Covers(u), u.appendScope)
    {
      WithinHolds(b, c, Covers(u), u.appendScope);
    }
  }

  lemma WithinSelf(units: seq<Unit>)
    ensures Within(units, units)
  {
  }

  /** The cap merge: the two smallest units become one until the count fits. Popping from too short a list is an
      IndexError, which happens exactly for a cap below one. */
  method MergeToCap(units0: seq<Unit>, cap: int) returns (out: Option<seq<Unit>>, ghost steps: seq<seq<Unit>>)
    ensures out == None <==> cap < 1 && |units0| > cap
    ensures out.Some? ==> |out.value| <= cap && Coarsens(units0, out.value) && Within(units0, out.value)
    ensures |units0| <= cap ==> out == Some(units0)
    ensures Merges(units0, cap, steps) && (out.Some? ==> out.value == steps[|steps| - 1])
  {
    hide Coarsens, Count, Within, IsSortOf, IsMerge, MergesSmallest, Merges;
    var units := units0;
    CoarsensSelf(units);
    WithinSelf(units);
    steps := [units0];
    NoMerge(units0, cap);
    while |units| > cap
      invariant Coarsens(units0, units) && Within(units0, units)
      invariant |units0| <= cap ==> units == units0
      invariant |units0| >= 1 ==> |units| >= 1
      invariant Merges(units0, cap, steps) && steps != [] && steps[|steps| - 1] == units
      decreases |units|
    {
      SortCoarsens(units);
      SortBySizeIs(units);
      var sorted := SortBySize(units);
      if |sorted| < 2 {
        return None, steps;
      }
      var merged := MergeUnits(sorted[0], sorted[1]);
      MergedIs(sorted[0], sorted[1], merged);
      MergeTwoCoarsens(sorted, merged);
      CoarsensTrans(units0, units, sorted);
      MergeIsWithin(units, sorted, merged);
      MergeIsSmallest(units, sorted, merged);
      WithinTrans(units0, units, sorted[2..] + [merged]);
      units := sorted[2..] + [merged];
      CoarsensTrans(units0, sorted, units);
      OneMoreMerge(units0, cap, steps, units);
      steps := steps + [units];
    }
    out := Some(units);
  }

  lemma NoMerge(units0: seq<Unit>, cap: int)
    ensures Merges(units0, cap, [units0])
  {
  }

  lemma MergedIs(a: Unit, b: Unit, merged: Unit)
    requires Covers(merged) == Covers(a) + Covers(b) && merged.appendScope == a.appendScope + b.appendScope && merged.id == a.id + "+" + b.id
    requires AsTheyCame(a.elements + b.elements, merged.elements)
    requires forall i, j :: 0 <= i < j < |merged.elements| ==> merged.elements[i] != merged.elements[j]
    ensures IsMerge(a, b, merged)
  {
    hide Covers;
  }

  lemma MergeIsSmallest(before: seq<Unit>, sorted: seq<Unit>, merged: Unit)
    requires IsSortOf(before, sorted) && |sorted| >= 2 && IsMerge(sorted[0], sorted[1], merged)
    ensures MergesSmallest(before, sorted[2..] + [merged])
  {
    hide IsSortOf, IsMerge;
  }

  lemma CoarsensSelf(units: seq<Unit>)
    ensures Coarsens(units, units)
  {
  }

  /* ------------------------------------------------------------ the partition */

  /** What the review must not lose: every algorithm, state entry, parameter and top-level section. */
  ghost predicate Reviewed(spec: Spec, e: Element) {
    match e
    case Algorithm(i) => i < spec.algorithms
    case State(i) => i < spec.states
    case Parameter(i) => i < spec.parameters
    case Global(key) => key in spec.globals
    case Test(i) => false
  }

  /** Storing into a common state entry, as a relation on algorithms. */
  ghost predicate SharedWriters(spec: Spec, a: nat, b: nat)
    requires spec.Valid()
  {
    Connected(Shares(spec.writes, spec.states), |spec.writes|, a, b)
  }

  /** The slots after the merge loop, one per component of shared writes. */
  method MergeWriters(spec: Spec) returns (slots: seq<Option<Unit>>, home: seq<nat>)
    requires spec.Valid()
    ensures Housed(spec, slots, home)
    ensures LabelsComponents(spec.writes, spec.states, home)
  {
    hide LabelsComponents, UnitOf;
    home := seq(spec.algorithms, i => i);
    slots := seq(spec.algorithms, i requires 0 <= i < spec.algorithms => Some(UnitOf(spec, i)));
    NothingShared(spec.writes, home);
    assert Housed(spec, slots, home) by {
      forall h | 0 <= h < |slots|
        ensures Houses(spec, home, h, slots[h])
      {
        assert home[h] == h;
        UnitMayMint(spec, h);
      }
    }
    for s := 0 to spec.states
      invariant Housed(spec, slots, home) && LabelsComponents(spec.writes, s, home)
    {
      slots, home := FoldWriters(spec, s, slots, home);
    }
  }

  lemma SlotHolds(spec: Spec, slots: seq<Option<Unit>>, home: seq<nat>, a: nat, e: Element)
    requires spec.Valid() && Housed(spec, slots, home) && a < spec.algorithms && e in Covers(UnitOf(spec, a))
    ensures SlotCovers(slots, home[a], {e})
  {
    hide UnitOf, Covers;
    assert Houses(spec, home, home[a], slots[home[a]]);
  }

  lemma SlotOfAlgorithm(spec: Spec, slots: seq<Option<Unit>>, home: seq<nat>, a: nat, h: nat)
    requires spec.Valid() && Housed(spec, slots, home) && a < spec.algorithms && h < |slots|
    ensures SlotCovers(slots, h, {Algorithm(a)}) <==> home[a] == h
  {
    hide UnitOf, Covers;
    assert Houses(spec, home, h, slots[h]);
    UnitOfCovers(spec, a);
    if home[a] == h {
      SlotHolds(spec, slots, home, a, Algorithm(a));
    }
    if SlotCovers(slots, h, {Algorithm(a)}) {
      assert Algorithm(a) in Covers(slots[h].value);
      var b :| 0 <= b < |home| && home[b] == h && Algorithm(a) in Covers(UnitOf(spec, b));
      UnitOfCovers(spec, b);
    }
  }

  /** Before the globals and orphans are added: each algorithm is in one unit, and two share a unit exactly when
      shared writes connect them. */
  lemma CompactedComponents(spec: Spec, slots: seq<Option<Unit>>, home: seq<nat>, a: nat, b: nat)
    requires spec.Valid() && Housed(spec, slots, home) && LabelsComponents(spec.writes, spec.states, home)
    requires a < spec.algorithms && b < spec.algorithms
    ensures Count(Compact(slots), {Algorithm(a)}) == 1
    ensures Count(Compact(slots), {Algorithm(a), Algorithm(b)}) >= 1 <==> SharedWriters(spec, a, b)
  {
    hide UnitOf, Covers, Houses, Connected;
    assert slots[..|slots|] == slots;
    forall h | 0 <= h < |slots|
      ensures SlotCovers(slots, h, {Algorithm(a)}) <==> home[a] == h
      ensures SlotCovers(slots, h, {Algorithm(a), Algorithm(b)}) <==> home[a] == h && home[b] == h
    {
      SlotOfAlgorithm(spec, slots, home, a, h);
      SlotOfAlgorithm(spec, slots, home, b, h);
    }
    assert SlotCovers(slots, home[a], {Algorithm(a)});
    assert forall g :: 0 <= g < |slots| && g != home[a] ==> !SlotCovers(slots, g, {Algorithm(a)});
    CountCompact(slots, {Algorithm(a)}, |slots|);
    if home[a] == home[b] {
      assert SlotCovers(slots, home[a], {Algorithm(a), Algorithm(b)});
    }
    CountCompact(slots, {Algorithm(a), Algorithm(b)}, |slots|);
  }

  predicate Mentioned(mentions: seq<seq<nat>>, i: nat) {
    exists a :: 0 <= a < |mentions| && i in mentions[a]
  }

  function Missing(kind: Kind, mentions: seq<seq<nat>>, n: nat): (out: seq<Element>)
    ensures forall i: nat :: Pointer(kind, i) in out <==> i < n && forall a :: 0 <= a < |mentions| ==> i !in mentions[a]
    ensures forall e :: e in out ==> exists i: nat :: e == Pointer(kind, i)
  {
    if n == 0 then []
    else Missing(kind, mentions, n - 1) + (if Mentioned(mentions, n - 1) then [] else [Pointer(kind, n - 1)])
  }

  function Sections(globals: seq<string>): (out: seq<Element>)
    ensures forall e :: e in out <==> e.Global? && e.key in globals
  {
    if globals == [] then [] else [Global(globals[0])] + Sections(globals[1..])
  }

  ghost predicate NoAlgorithm(u: Unit) {
    forall a :: Algorithm(a) !in Covers(u)
  }

  function Globals(spec: Spec): Unit {
    Unit("global", Sections(spec.globals), {"/algorithms/-"})
  }

  function Orphan(spec: Spec): Unit {
    Unit("orphan", Missing(States, spec.mentionsState, spec.states)
                   + Missing(Parameters, spec.mentionsParameter, spec.parameters), {})
  }

  /** The cross-cutting unit and the orphan unit, each only when it has something to hold. */
  function Tail(spec: Spec): seq<Unit> {
    (if Globals(spec).elements != [] then [Globals(spec)] else []) +
    (if Orphan(spec).elements != [] then [Orphan(spec)] else [])
  }

  lemma CountTail(spec: Spec, es: set<Element>)
    requires es != {}
    ensures Count(Tail(spec), es) == (if es <= Covers(Globals(spec)) then 1 else 0) + (if es <= Covers(Orphan(spec)) then 1 else 0)
  {
    hide Globals, Orphan, Count, Covers;
    assert Count([], es) == 0 by { CountNone(es); }
    var globals, orphan := Globals(spec), Orphan(spec);
    var head := if globals.elements != [] then [globals] else [];
    assert [] + [globals] == [globals] && head + [] == head;
    CountAppend([], globals, es);
    CountAppend(head, orphan, es);
    var e :| e in es;
    EmptyCoversNone(globals, e);
    EmptyCoversNone(orphan, e);
  }

  lemma CountNone(es: set<Element>)
    ensures Count([], es) == 0
  {
  }

  lemma EmptyCoversNone(u: Unit, e: Element)
    ensures u.elements == [] ==> e !in Covers(u)
  {
  }

  lemma TailHasNoAlgorithm(spec: Spec)
    ensures NoAlgorithm(Globals(spec)) && NoAlgorithm(Orphan(spec))
    ensures Globals(spec).id == "global" && Orphan(spec).id == "orphan"
  {
  }

  lemma AddTail(spec: Spec, units: seq<Unit>, es: set<Element>, a: nat)
    requires Algorithm(a) in es
    ensures Count(units + Tail(spec), es) == Count(units, es)
  {
    hide Globals, Orphan, Tail, Count;
    CountConcat(units, Tail(spec), es);
    CountTail(spec, es);
    TailHasNoAlgorithm(spec);
  }

  /** The algorithm whose own unit covers an element, if one does; otherwise it is a section or an orphan. */
  lemma OwnerOf(spec: Spec, e: Element) returns (owner: Option<nat>)
    requires spec.Valid() && Reviewed(spec, e)
    ensures owner.Some? ==> owner.value < spec.algorithms && e in Covers(UnitOf(spec, owner.value))
    ensures owner == None ==> e in Globals(spec).elements || e in Orphan(spec).elements
  {
    hide UnitOf, Covers;
    owner := None;
    match e
    case Algorithm(i) =>
      UnitOfCovers(spec, i);
      owner := Some(i);
    case State(i) =>
      assert Pointer(States, i) == e;
      if Mentioned(spec.mentionsState, i) {
        var a :| 0 <= a < spec.algorithms && i in spec.mentionsState[a];
        UnitOfCovers(spec, a);
        owner := Some(a);
      }
    case Parameter(i) =>
      assert Pointer(Parameters, i) == e;
      if Mentioned(spec.mentionsParameter, i) {
        var a :| 0 <= a < spec.algorithms && i in spec.mentionsParameter[a];
        UnitOfCovers(spec, a);
        owner := Some(a);
      }
    case Global(key) =>
  }

  lemma EverythingReviewed(spec: Spec, slots: seq<Option<Unit>>, home: seq<nat>, e: Element)
    requires spec.Valid() && Housed(spec, slots, home) && Reviewed(spec, e)
    ensures Count(Compact(slots) + Tail(spec), {e}) >= 1
  {
    hide UnitOf, Houses, Compact, Count, Globals, Orphan, Tail;
    CountConcat(Compact(slots), Tail(spec), {e});
    CountTail(spec, {e});
    var owner := OwnerOf(spec, e);
    if owner.Some? {
      SlotHolds(spec, slots, home, owner.value, e);
      assert slots[..|slots|] == slots;
      CountCompact(slots, {e}, |slots|);
    }
  }

  ghost predicate IsLeader(spec: Spec, a: nat)
    requires spec.Valid()
  {
    forall b: nat :: b < a ==> !SharedWriters(spec, b, a)
  }

  /** The first algorithm of each component of shared writers. */
  ghost function Leaders(spec: Spec): set<nat>
    requires spec.Valid()
  {
    set a: nat | a < spec.algorithms && IsLeader(spec, a)
  }

  /** How many units there are before the cap: one per component, and the tail's. */
  ghost function UnitCount(spec: Spec): nat
    requires spec.Valid()
  {
    |Leaders(spec)| + |Tail(spec)|
  }

  ghost function Taken(slots: seq<Option<Unit>>, n: nat): set<nat> {
    set h: nat | h < n && h < |slots| && slots[h].Some?
  }

  lemma {:induction false} CompactSize(slots: seq<Option<Unit>>, n: nat)
    requires n <= |slots|
    ensures |Compact(slots[..n])| == |Taken(slots, n)|
  {
    if n > 0 {
      CompactSize(slots, n - 1);
      assert slots[..n][..n - 1] == slots[..n - 1];
      assert Taken(slots, n) == Taken(slots, n - 1) + (if slots[n - 1].Some? then {n - 1} else {});
    }
  }

  lemma {:induction false} ImageSize(home: seq<nat>, chosen: set<nat>)
    requires forall a :: a in chosen ==> a < |home|
    requires forall a, b :: a in chosen && b in chosen && home[a] == home[b] ==> a == b
    ensures |set a | a in chosen :: home[a]| == |chosen|
  {
    if chosen != {} {
      var x :| x in chosen;
      ImageSize(home, chosen - {x});
      assert (set a | a in chosen :: home[a]) == (set a | a in chosen - {x} :: home[a]) + {home[x]};
    }
  }

  lemma {:induction false} LeaderOf(spec: Spec, home: seq<nat>, a: nat) returns (leader: nat)
    requires spec.Valid() && LabelsComponents(spec.writes, spec.states, home) && a < spec.algorithms == |home|
    ensures leader in Leaders(spec) && home[leader] == home[a]
  {
    hide Connected;
    if b: nat :| b < a && SharedWriters(spec, b, a) {
      leader := LeaderOf(spec, home, b);
    } else {
      leader := a;
    }
  }

  /** One taken slot for each component. */
  lemma OneSlotEach(spec: Spec, slots: seq<Option<Unit>>, home: seq<nat>)
    requires spec.Valid() && Housed(spec, slots, home) && LabelsComponents(spec.writes, spec.states, home)
    ensures |Compact(slots)| == |Leaders(spec)|
  {
    hide Connected, UnitOf, Covers;
    assert slots[..|slots|] == slots;
    CompactSize(slots, |slots|);
    var leaders := Leaders(spec);
    forall a, b | a in leaders && b in leaders && home[a] == home[b]
      ensures a == b
    {
      assert SharedWriters(spec, a, b) && SharedWriters(spec, b, a);
    }
    ImageSize(home, leaders);
    forall h: nat
      ensures h in Taken(slots, |slots|) <==> h in set a | a in leaders :: home[a]
    {
      if h < |slots| {
        assert Houses(spec, home, h, slots[h]);
        if h in home {
          var a: nat :| a < |home| && home[a] == h;
          var leader := LeaderOf(spec, home, a);
        }
      }
    }
    assert Taken(slots, |slots|) == set a | a in leaders :: home[a];
  }

  /** The units before the cap: components of shared writers, the cross-cutting sections, and what nothing mentions. */
  method Group(spec: Spec) returns (units: seq<Unit>)
    requires spec.Valid()
    ensures forall a: nat :: a < spec.algorithms ==> Count(units, {Algorithm(a)}) == 1
    ensures forall a: nat, b: nat :: a < spec.algorithms && b < spec.algorithms ==>
              (Count(units, {Algorithm(a), Algorithm(b)}) >= 1 <==> SharedWriters(spec, a, b))
    ensures forall e :: Reviewed(spec, e) ==> Count(units, {e}) >= 1
    ensures |units| == UnitCount(spec)
    ensures forall a: nat :: a < spec.algorithms ==> Holds(units, WithMentions(spec, a), {"/parameters/-"})
    ensures spec.globals != [] ==> Holds(units, AllSections(spec), {"/algorithms/-"})
  {
    hide UnitOf, Houses, Connected, Holds, LabelsComponents, Count, Compact, Covers, Globals, Orphan, Tail, Reviewed,
         SharedWriters, Leaders, WithMentions, AllSections;
    var slots, home := MergeWriters(spec);
    OneSlotEach(spec, slots, home);
    units := Compact(slots) + Tail(spec);
    forall a: nat, b: nat | a < spec.algorithms && b < spec.algorithms
      ensures Count(units, {Algorithm(a)}) == 1
      ensures Count(units, {Algorithm(a), Algorithm(b)}) >= 1 <==> SharedWriters(spec, a, b)
    {
      CompactedComponents(spec, slots, home, a, b);
      AddTail(spec, Compact(slots), {Algorithm(a)}, a);
      AddTail(spec, Compact(slots), {Algorithm(a), Algorithm(b)}, a);
    }
    forall e | Reviewed(spec, e)
      ensures Count(units, {e}) >= 1
    {
      EverythingReviewed(spec, slots, home, e);
    }
    forall a: nat | a < spec.algorithms
      ensures Holds(units, WithMentions(spec, a), {"/parameters/-"})
    {
      AlgorithmMayMint(spec, slots, home, a);
    }
    SectionsMayAppend(spec, Compact(slots));
  }

  /** An algorithm, the state and the parameters it mentions, and the tests that exercise any of them. */
  ghost function WithMentions(spec: Spec, a: nat): set<Element>
    requires spec.Valid() && a < spec.algorithms
  {
    {Algorithm(a)} + (set i | i in spec.mentionsState[a] :: State(i))
    + (set i | i in spec.mentionsParameter[a] :: Parameter(i)) + (set i | i in spec.exercisedBy[a] :: Test(i))
  }

  /** The top-level sections the spec has. */
  ghost function AllSections(spec: Spec): set<Element> {
    set key | key in spec.globals :: Global(key)
  }

  lemma {:induction false} Compacted(slots: seq<Option<Unit>>, h: nat)
    requires h < |slots| && slots[h].Some?
    ensures slots[h].value in Compact(slots)
  {
    if h < |slots| - 1 {
      Compacted(slots[..|slots| - 1], h);
    }
  }

  lemma AlgorithmMayMint(spec: Spec, slots: seq<Option<Unit>>, home: seq<nat>, a: nat)
    requires spec.Valid() && Housed(spec, slots, home) && a < spec.algorithms
    ensures Holds(Compact(slots) + Tail(spec), WithMentions(spec, a), {"/parameters/-"})
  {
    hide Compact, Tail, UnitOf, Covers;
    forall e | e in WithMentions(spec, a)
      ensures e in Covers(UnitOf(spec, a))
    {
      UnitOfCoversOne(spec, a, e);
    }
    assert Houses(spec, home, home[a], slots[home[a]]);
    Compacted(slots, home[a]);
    assert slots[home[a]].value in Compact(slots) + Tail(spec);
  }

  lemma SectionsMayAppend(spec: Spec, units: seq<Unit>)
    ensures spec.globals != [] ==> Holds(units + Tail(spec), AllSections(spec), {"/algorithms/-"})
  {
    hide Orphan, Missing;
    if spec.globals != [] {
      assert Global(spec.globals[0]) in Sections(spec.globals);
      assert Tail(spec)[0] == Globals(spec);
      assert Globals(spec) in units + Tail(spec);
      assert AllSections(spec) <= Covers(Globals(spec));
    }
  }

  /** `partition`. It fails exactly for a cap below one that is too small for the units there are; otherwise the
      cap holds, each algorithm is in one unit, algorithms that share writes through any chain are reviewed
      together, and everything in the spec is owned by some unit. When no unit had to be merged for the cap, two
      algorithms share a unit only because shared writes connect them. */
  method Partition(spec: Spec, cap: int) returns (out: Option<seq<Unit>>, grouped: nat, ghost steps: seq<seq<Unit>>)
    requires spec.Valid()
    ensures grouped == UnitCount(spec)
    ensures out == None <==> cap < 1 && grouped > cap
    ensures steps != [] && |steps[0]| == grouped && Merges(steps[0], cap, steps) && (out.Some? ==> out.value == steps[|steps| - 1])
    ensures out.Some? ==> forall a: nat :: a < spec.algorithms ==> Holds(out.value, WithMentions(spec, a), {"/parameters/-"})
    ensures out.Some? && spec.globals != [] ==> Holds(out.value, AllSections(spec), {"/algorithms/-"})
    ensures out.Some? ==> |out.value| <= cap
    ensures out.Some? ==> forall a: nat :: a < spec.algorithms ==> Count(out.value, {Algorithm(a)}) == 1
    ensures out.Some? ==> forall e :: Reviewed(spec, e) ==> Count(out.value, {e}) >= 1
    ensures out.Some? ==> forall a: nat, b: nat :: a < spec.algorithms && b < spec.algorithms && SharedWriters(spec, a, b) ==>
              Count(out.value, {Algorithm(a), Algorithm(b)}) >= 1
    ensures out.Some? && grouped <= cap ==> forall a: nat, b: nat :: a < spec.algorithms && b < spec.algorithms ==>
              (Count(out.value, {Algorithm(a), Algorithm(b)}) >= 1 <==> SharedWriters(spec, a, b))
  {
    hide Count, SharedWriters, Reviewed, UnitCount, Holds, Within, MergesSmallest, AllSections, WithMentions;
    var units := Group(spec);
    grouped := |units|;
    out, steps := MergeToCap(units, cap);
    if out.Some? {
      forall es, scope | Holds(units, es, scope)
        ensures Holds(out.value, es, scope)
      {
        WithinHolds(units, out.value, es, scope);
      }
    }
  }
}
