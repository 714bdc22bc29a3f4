/** Naming the patches to blame when a round's document fails a gate (loop/spec_review.py, the three `_drop_*_patches`
    and the end of `apply_patches`). Every attempt applies the records themselves again, so what an earlier attempt
    wrote into them is still there: the records are threaded through all attempts. */
module DropPasses {
  import opened Wrappers
  import opened Json
  import opened JsonPointer
  import opened Patches
  import opened SharedValues
  import FirstApplication
  import opened ReviewGates
  import opened Reapplication
  import opened SpecSchema
  import opened RecordPaths
  import opened PlacedValues
  import opened OrderlyRounds

  /** `[x for x in keep if x is not r]`. */
  function Without(patches: seq<Patch>, id: nat): (out: seq<Patch>)
    ensures forall p :: p in out <==> p in patches && p.id != id
    ensures |out| <= |patches|
    ensures (exists p :: p in patches && p.id == id) ==> |out| < |patches|
  {
    if patches == [] then []
    else
      var last := |patches| - 1;
      assert patches == patches[..last] + [patches[last]];
      Without(patches[..last], id) + (if patches[last].id == id then [] else [patches[last]])
  }

  /** Every patch of the round is kept or dropped, and none is both. */
  ghost predicate Splits(all: seq<Patch>, keep: seq<Patch>, dropped: seq<Patch>) {
    && DistinctIds(keep) && |all| == |keep| + |dropped|
    && (forall p :: p in all <==> p in keep || p in dropped)
    && (forall p, q :: p in keep && q in dropped ==> p.id != q.id)
  }

  lemma SplitsSelf(all: seq<Patch>)
    requires DistinctIds(all)
    ensures Splits(all, all, [])
  {
  }

  lemma {:induction false} WithoutAbsent(patches: seq<Patch>, id: nat)
    requires forall p :: p in patches ==> p.id != id
    ensures Without(patches, id) == patches
  {
    if patches != [] {
      var last := |patches| - 1;
      assert patches == patches[..last] + [patches[last]];
      WithoutAbsent(patches[..last], id);
    }
  }

  lemma {:induction false} WithoutOneLess(patches: seq<Patch>, p: Patch)
    requires DistinctIds(patches) && p in patches
    ensures DistinctIds(Without(patches, p.id)) && |Without(patches, p.id)| == |patches| - 1
  {
    var last := |patches| - 1;
    var front := patches[..last];
    assert patches == front + [patches[last]];
    AllButLast(patches);
    if patches[last].id == p.id {
      WithoutAbsent(front, p.id);
    } else {
      WithoutOneLess(front, p);
      var less := Without(front, p.id);
      forall i | 0 <= i < |less|
        ensures less[i].id != patches[last].id
      {
        assert less[i] in less;
      }
    }
  }

  lemma AllButLast(patches: seq<Patch>)
    requires DistinctIds(patches) && patches != []
    ensures DistinctIds(patches[..|patches| - 1])
    ensures forall q :: q in patches[..|patches| - 1] ==> q.id != patches[|patches| - 1].id
  {
    var last := |patches| - 1;
    forall q | q in patches[..last]
      ensures q.id != patches[last].id
    {
      var k :| 0 <= k < last && patches[k] == q;
    }
  }

  lemma DropOne(all: seq<Patch>, keep: seq<Patch>, dropped: seq<Patch>, p: Patch)
    requires DistinctIds(all) && Splits(all, keep, dropped) && p in keep
    ensures Splits(all, Without(keep, p.id), dropped + [p]) && |Without(keep, p.id)| < |keep|
  {
    hide Without;
    WithoutOneLess(keep, p);
    forall q | q in keep && q.id == p.id
      ensures q == p
    {
      var i :| 0 <= i < |keep| && keep[i] == q;
      var j :| 0 <= j < |keep| && keep[j] == p;
    }
  }

  /* ------------------------------------------------------------ one more attempt */

  /** `_apply_to(spec, keep)`, from the records as they are by now. */
  function After(spec: Json, r: Records, keep: seq<Patch>): State {
    Apply(spec, r, SortPatches(keep))
  }

  function TreeAfter(spec: Json, keep: seq<Patch>): Tree {
    TreeOf(spec, SortPatches(keep))
  }

  ghost predicate Held(r: Records, applied: seq<Patch>) {
    Sound(r) && AllBelong(r, applied)
  }

  /** The records hold their patches' own values, and no patch's pointer leads through another's place. */
  ghost predicate Steady(r: Records, applied: seq<Patch>) {
    Held(r, applied) && HoldValues(r, applied) && NoneLeads(r.names)
  }

  lemma PartIsHeld(r: Records, all: seq<Patch>, part: seq<Patch>)
    requires forall p :: p in part ==> p in all
    ensures Held(r, all) ==> Held(r, part)
    ensures Steady(r, all) ==> Steady(r, part)
  {
  }

  /** An attempt builds the same tree whatever the records hold, and leaves them where they belong. */
  lemma AttemptIsHeld(spec: Json, r: Records, keep: seq<Patch>)
    requires Held(r, keep)
    ensures var s := After(spec, r, keep);
            s.doc == TreeAfter(spec, keep) && Held(s.records, keep) && s.records.names == r.names
  {
    hide Sound, Belongs, SortPatches, Apply, TreeOf;
    forall p | p in SortPatches(keep)
      ensures p in keep
    {
      SameMembers(SortPatches(keep), keep, p);
    }
    ApplySound(spec, r, SortPatches(keep));
    TreeIsFixed(spec, r, SortPatches(keep));
    forall p | p in keep
      ensures Belongs(After(spec, r, keep).records, p)
    {
      SameNamesBelong(r, After(spec, r, keep).records, p);
    }
  }

  /** Of a steady round every attempt is the value model's, and leaves the records as they were. */
  lemma AttemptIsPlain(spec: Json, r: Records, keep: seq<Patch>)
    requires Steady(r, keep)
    ensures After(spec, r, keep).records == r
    ensures AsValues(After(spec, r, keep)) == ApplyTo(spec, keep)
  {
    hide Sound, Belongs, SortPatches, Apply, NoneLeads, ValueOf, Run;
    forall p | p in SortPatches(keep)
      ensures p in keep
    {
      SameMembers(SortPatches(keep), keep, p);
    }
    ApartIsPlain(spec, r, SortPatches(keep));
  }

  /** None of these patches goes inside a value another of them placed. It is a matter of the patches alone, and so can be
      told before they are applied again. */
  ghost predicate NoneWithin(spec: Json, keep: seq<Patch>) {
    NoneIsInner(spec, SortPatches(keep))
  }

  /** The next attempt at the same patches shows the document the last one did exactly when every record in it reads as
      it did then. In a linked round whose appends find their lists, that is so exactly when none goes inside a placed value.
      In an orderly round they do find them; none is inside when no append lies inside a replace, and of appends to lists of
      the spec only then; and the next attempt only repeats elements of lists. */
  lemma NextAttemptIff(spec: Json, tested: Records, keep: seq<Patch>)
    requires Held(tested, keep)
    ensures var next, tree := After(spec, tested, keep), TreeAfter(spec, keep);
            && next.records.values.Keys == tested.values.Keys == tested.names.Keys && next.records.names == tested.names
            && (AsValues(next).doc == View(tested, tree, 0) <==>
                forall k :: Contains(tree, k) && k in tested.names ==> ValueOf(next.records, k) == ValueOf(tested, k))
            && (Linkable(tested, keep) && DistinctIds(keep) && AllFind(spec, tested, SortPatches(keep)) ==>
                  (AsValues(next).doc == View(tested, tree, 0) <==> NoneWithin(spec, keep)))
            && (Orderly(spec, tested, keep) && DistinctIds(keep) ==>
                  && (AsValues(next).doc == View(tested, tree, 0) <==> NoneWithin(spec, keep))
                  && (NoneInside(keep) ==> NoneWithin(spec, keep))
                  && ((forall m :: m in keep && AppendsTo(m) ==> HasList(spec, Front(m))) ==> (NoneWithin(spec, keep) <==> NoneInside(keep)))
                  && Repeats(View(tested, tree, 0), AsValues(next).doc))
  {
    hide Belongs, SortPatches, Apply, TreeOf, ValueOf, View, Contains, Fits, Orderly, NoneInside, NoneIsInner, Repeats, Linkable, AllFind, AllLanded, AllDoubled;
    forall p | p in SortPatches(keep)
      ensures p in keep
    {
      SameMembers(SortPatches(keep), keep, p);
    }
    ApplySound(spec, tested, SortPatches(keep));
    TreeIsFixed(spec, tested, SortPatches(keep));
    SameViewIff(After(spec, tested, keep).records, tested, TreeAfter(spec, keep), 0, 0);
    if Linkable(tested, keep) && DistinctIds(keep) {
      AttemptOfLinked(spec, tested, keep, keep);
    }
    if Orderly(spec, tested, keep) && DistinctIds(keep) {
      AttemptOfOrderly(spec, tested, keep, keep);
      OrderlyIsTidy(spec, tested, keep);
      NoneInsideIsNoneInner(spec, keep);
    }
  }

  /* ------------------------------------------------------------ patches that break the schema */

  /** The records when the first `n` patches have each been left out once. */
  function Tried(spec: Json, r: Records, keep: seq<Patch>, n: nat): Records
    requires n <= |keep|
  {
    if n == 0 then r else After(spec, Tried(spec, r, keep, n - 1), Without(keep, keep[n - 1].id)).records
  }

  /** The errors found when the `i`-th patch was left out. */
  function Trial(spec: Json, r: Records, keep: seq<Patch>, errors: Json -> nat, i: nat): nat
    requires i < |keep|
  {
    errors(AsValues(After(spec, Tried(spec, r, keep, i), Without(keep, keep[i].id))).doc)
  }

  /** The scan over the first `n` patches: the first whose absence left the fewest errors, if any absence helped. */
  function Best(spec: Json, r: Records, keep: seq<Patch>, errors: Json -> nat, errs: nat, n: nat): (best: Option<nat>)
    requires n <= |keep|
    ensures best.Some? ==> best.value < n
  {
    if n == 0 then None
    else
      var best := Best(spec, r, keep, errors, errs, n - 1);
      var left := Trial(spec, r, keep, errors, n - 1);
      if left < errs && (best == None || left < Trial(spec, r, keep, errors, best.value)) then Some(n - 1) else best
  }

  /** What that finds: no absence helped, or this one left the fewest errors, and it is the first that did. */
  ghost predicate BestSoFar(spec: Json, r: Records, keep: seq<Patch>, errors: Json -> nat, errs: nat, n: nat, best: Option<nat>) {
    && n <= |keep|
    && (best == None ==> forall i :: 0 <= i < n ==> Trial(spec, r, keep, errors, i) >= errs)
    && (best.Some? ==>
          && best.value < n && Trial(spec, r, keep, errors, best.value) < errs
          && (forall i :: 0 <= i < n ==> Trial(spec, r, keep, errors, best.value) <= Trial(spec, r, keep, errors, i))
          && (forall i :: 0 <= i < best.value ==> Trial(spec, r, keep, errors, best.value) < Trial(spec, r, keep, errors, i)))
  }

  /** The patch whose absence leaves the fewest errors, each absence tried on the records the last one left. */
  method FindBest(spec: Json, r: Records, keep: seq<Patch>, errors: Json -> nat, errs: nat)
    returns (best: Option<nat>, after: Records)
    ensures BestSoFar(spec, r, keep, errors, errs, |keep|, best)
    ensures best == Best(spec, r, keep, errors, errs, |keep|)
    ensures after == Tried(spec, r, keep, |keep|)
  {
    hide Without, BestSoFar, Best, SharedValues.Apply, SortPatches;
    best, after := None, r;
    var least := errs;
    NothingTried(spec, r, keep, errors, errs);
    for i := 0 to |keep|
      invariant after == Tried(spec, r, keep, i)
      invariant BestSoFar(spec, r, keep, errors, errs, i, best)
      invariant best == Best(spec, r, keep, errors, errs, i)
      invariant best.Some? ==> best.value < i && least == Trial(spec, r, keep, errors, best.value)
    {
      OneMoreTried(spec, r, keep, errors, errs, i, best);
      var doc, records, failed := ApplyRecords(spec, after, Without(keep, keep[i].id));
      var n := errors(View(records, doc, 0));
      assert n == Trial(spec, r, keep, errors, i);
      after := records;
      if n < errs && (best == None || n < least) {
        best, least := Some(i), n;
      }
    }
  }

  lemma NothingTried(spec: Json, r: Records, keep: seq<Patch>, errors: Json -> nat, errs: nat)
    ensures BestSoFar(spec, r, keep, errors, errs, 0, None)
    ensures Best(spec, r, keep, errors, errs, 0) == None
  {
  }

  lemma OneMoreTried(spec: Json, r: Records, keep: seq<Patch>, errors: Json -> nat, errs: nat, i: nat, best: Option<nat>)
    requires i < |keep| && BestSoFar(spec, r, keep, errors, errs, i, best)
    ensures var n := Trial(spec, r, keep, errors, i);
            var next := if n < errs && (best == None || n < Trial(spec, r, keep, errors, best.value)) then Some(i) else best;
            BestSoFar(spec, r, keep, errors, errs, i + 1, next) &&
            (best == Best(spec, r, keep, errors, errs, i) ==> next == Best(spec, r, keep, errors, errs, i + 1))
  {
    hide Trial;
  }

  /** Rounds of which every attempt at any part leaves the records as they are: steady ones, and orderly ones in which no
      append lies inside a replace. */
  ghost predicate Calm(spec: Json, r: Records, applied: seq<Patch>) {
    Steady(r, applied) || (Orderly(spec, r, applied) && NoneInside(applied))
  }

  /** What every attempt of a pass keeps: the records lie where they should, an orderly round stays one and only repeats
      elements, and in a calm round they are untouched. */
  ghost predicate Kept(spec: Json, r: Records, applied: seq<Patch>, q: Records) {
    && Held(q, applied) && q.names == r.names && (Calm(spec, r, applied) ==> q == r)
    && (Orderly(spec, r, applied) ==> Orderly(spec, q, applied) && AllDoubled(r, q))
  }

  lemma AttemptKeeps(spec: Json, r: Records, applied: seq<Patch>, q: Records, keep: seq<Patch>)
    requires Kept(spec, r, applied, q) && DistinctIds(keep) && forall p :: p in keep ==> p in applied
    ensures var s := After(spec, q, keep);
            && s.doc == TreeAfter(spec, keep) && Kept(spec, r, applied, s.records)
            && (Steady(r, applied) ==> AsValues(s) == ApplyTo(spec, keep))
            && (Orderly(spec, r, applied) ==>
                  && (AsValues(s).doc == View(q, s.doc, 0) <==> NoneWithin(spec, keep))
                  && Repeats(View(q, s.doc, 0), AsValues(s).doc))
  {
    hide After, Sound, Belongs, TreeAfter, HoldValues, NoneLeads, ApplyTo, Orderly, NoneInside, NoneWithin, Repeats, View, AllDoubled;
    PartIsHeld(q, applied, keep);
    AttemptIsHeld(spec, q, keep);
    SameNamesHeld(q, After(spec, q, keep).records, applied);
    if Steady(r, applied) {
      AttemptIsPlain(spec, q, keep);
    }
    if Orderly(spec, r, applied) {
      OrderlyAttempt(spec, q, applied, keep);
      AllDoubledTwice(r, q, After(spec, q, keep).records);
    }
  }

  lemma OrderlyAttempt(spec: Json, q: Records, applied: seq<Patch>, keep: seq<Patch>)
    requires Orderly(spec, q, applied) && DistinctIds(keep) && forall p :: p in keep ==> p in applied
    ensures var s := After(spec, q, keep);
            && Orderly(spec, s.records, applied) && AllDoubled(q, s.records) && (NoneInside(applied) ==> s.records == q)
            && (AsValues(s).doc == View(q, TreeAfter(spec, keep), 0) <==> NoneWithin(spec, keep))
            && Repeats(View(q, TreeAfter(spec, keep), 0), AsValues(s).doc)
  {
    hide Apply, TreeOf, SortPatches, Orderly, NoneInside, NoneIsInner, Repeats, View, AllDoubled;
    AttemptOfOrderly(spec, q, applied, keep);
    PartIsOrderly(spec, q, applied, keep);
  }

  lemma SameNamesHeld(r: Records, q: Records, applied: seq<Patch>)
    requires Held(r, applied) && q.names == r.names && Sound(q)
    ensures Held(q, applied)
  {
    hide Sound;
  }

  lemma {:induction false} TriesKeep(spec: Json, r: Records, applied: seq<Patch>, q: Records, keep: seq<Patch>, n: nat)
    requires Kept(spec, r, applied, q) && DistinctIds(keep) && (forall p :: p in keep ==> p in applied) && n <= |keep|
    ensures Kept(spec, r, applied, Tried(spec, q, keep, n))
  {
    hide After, Kept, Without;
    if n > 0 {
      TriesKeep(spec, r, applied, q, keep, n - 1);
      WithoutOneLess(keep, keep[n - 1]);
      AttemptKeeps(spec, r, applied, Tried(spec, q, keep, n - 1), Without(keep, keep[n - 1].id));
    }
  }

  /** What the records show of the tree of these patches. */
  function Shown(spec: Json, r: Records, keep: seq<Patch>): Json {
    View(r, TreeAfter(spec, keep), 0)
  }

  lemma KeptIsCalm(spec: Json, r: Records, applied: seq<Patch>, q: Records)
    requires Kept(spec, r, applied, q)
    ensures Calm(spec, r, applied) ==> q == r
    ensures Steady(r, applied) ==> Calm(spec, r, applied) && q == r
    ensures Orderly(spec, r, applied) && NoneInside(applied) ==> Calm(spec, r, applied)
  {
    hide Held, Steady, Orderly, NoneInside;
  }

  /** In a calm round leaving a patch out shows the others' tree on the records as they are. */
  lemma TrialIsCalm(spec: Json, r: Records, applied: seq<Patch>, q: Records, keep: seq<Patch>, errors: Json -> nat, i: nat)
    requires Kept(spec, r, applied, q) && DistinctIds(keep) && (forall p :: p in keep ==> p in applied) && i < |keep|
    requires Calm(spec, r, applied)
    ensures Trial(spec, q, keep, errors, i) == errors(Shown(spec, r, Without(keep, keep[i].id)))
  {
    hide After, Kept, Without, Calm, Tried, TreeAfter, View;
    TriesKeep(spec, r, applied, q, keep, i);
    WithoutOneLess(keep, keep[i]);
    var before := Tried(spec, q, keep, i);
    AttemptKeeps(spec, r, applied, before, Without(keep, keep[i].id));
    KeptIsCalm(spec, r, applied, before);
    KeptIsCalm(spec, r, applied, After(spec, before, Without(keep, keep[i].id)).records);
  }

  /** How a schema drop ends: the records at its last test, those it leaves, and what it kept and dropped. */
  datatype Dropping = Dropping(tested: Records, after: Records, keep: seq<Patch>, dropped: seq<Patch>)

  /** The turns of the drop, with `keep` just tried and `q` the records that left. */
  function Turns(spec: Json, applied: seq<Patch>, q: Records, keep: seq<Patch>, dropped: seq<Patch>, errors: Json -> nat): Dropping
    decreases |keep|
  {
    var errs := errors(Shown(spec, q, keep));
    if errs == 0 || keep == [] then Dropping(q, After(spec, q, keep).records, keep, dropped)
    else
      var tried := Tried(spec, q, keep, |keep|);
      match Best(spec, q, keep, errors, errs, |keep|)
      case None => Dropping(tried, tried, applied, [])
      case Some(i) =>
        assert keep[i] in keep;
        var left := Without(keep, keep[i].id);
        Turns(spec, applied, After(spec, tried, left).records, left, dropped + [keep[i]], errors)
  }

  /** The whole drop, as a function of the records it starts from. */
  function SchemaDrop(spec: Json, r: Records, applied: seq<Patch>, errors: Json -> nat): Dropping {
    var first := After(spec, r, applied).records;
    if errors(Shown(spec, first, applied)) == 0 then Dropping(first, first, applied, [])
    else Turns(spec, applied, first, applied, [], errors)
  }

  lemma KeptIsPart(all: seq<Patch>, keep: seq<Patch>, dropped: seq<Patch>)
    requires Splits(all, keep, dropped)
    ensures forall p :: p in keep ==> p in all
  {
  }

  lemma StartsKept(spec: Json, r: Records, applied: seq<Patch>)
    requires Held(r, applied)
    ensures Kept(spec, r, applied, r)
  {
    hide Held, Steady, Orderly, NoneInside, Doubled;
    AllDoubledSelf(r);
  }

  /** `_drop_schema_breaking_patches`. In every round: the patches it keeps passed the schema when it last tried them, or
      it dropped nothing, or it dropped them all; the document it returns is one more attempt at the same patches, from
      the records that test left. Of a round that its first attempt leaves linked, and whose kept appends found their lists
      when tested, that is the tested document exactly when none of them goes inside a value another kept patch placed; the
      same or not, when they landed in them the document passes a schema that ignores repeats, as the spec's own does, where
      the tested one did. Of a round it leaves orderly they landed. In a calm round it is the tested document, and each drop lowered its
      errors; in a steady round it is the value model's. */
  method DropSchemaBreaking(spec: Json, r: Records, applied: seq<Patch>, errors: Json -> nat)
    returns (doc: Tree, after: Records, keep: seq<Patch>, dropped: seq<Patch>, ghost tested: Records)
    requires DistinctIds(applied) && Held(r, applied)
    ensures Splits(applied, keep, dropped) && (dropped == [] ==> keep == applied)
    ensures Kept(spec, r, applied, after) && Kept(spec, r, applied, tested) && doc == TreeAfter(spec, keep)
    ensures Dropping(tested, after, keep, dropped) == SchemaDrop(spec, r, applied, errors)
    ensures errors(View(tested, doc, 0)) == 0 || dropped == [] || keep == []
    ensures dropped != [] ==> after == After(spec, tested, keep).records
    ensures Linkable(After(spec, r, applied).records, applied) && dropped != [] && AllFind(spec, tested, SortPatches(keep)) ==>
              (View(after, doc, 0) == View(tested, doc, 0) <==> NoneWithin(spec, keep))
    ensures Linkable(After(spec, r, applied).records, applied) && dropped != [] && AllLanded(spec, tested, SortPatches(keep)) ==>
              (IgnoresRepeats(errors) ==> errors(View(after, doc, 0)) == 0 || (keep == [] && errors(spec) > 0))
    ensures Orderly(spec, After(spec, r, applied).records, applied) && dropped != [] ==>
              (View(after, doc, 0) == View(tested, doc, 0) <==> NoneWithin(spec, keep))
    ensures Orderly(spec, After(spec, r, applied).records, applied) && IgnoresRepeats(errors) ==>
              errors(View(after, doc, 0)) == 0 || dropped == [] || (keep == [] && errors(spec) > 0)
    ensures Calm(spec, r, applied) ==>
              && after == tested == r
              && (errors(View(after, doc, 0)) == 0 || dropped == [] || (keep == [] && errors(spec) > 0))
              && errors(View(after, doc, 0)) + |dropped| <= errors(Shown(spec, r, applied))
    ensures Steady(r, applied) ==>
              && View(after, doc, 0) == ApplyTo(spec, keep).doc
              && (errors(View(after, doc, 0)) == 0 || dropped == [] || (keep == [] && errors(spec) > 0))
              && (errors(spec) == 0 ==> errors(View(after, doc, 0)) == 0 || dropped == [])
              && errors(View(after, doc, 0)) + |dropped| <= errors(ApplyTo(spec, applied).doc)
  {
    hide BestSoFar, Best, Without, Splits, ApplyTo, Held, Steady, Kept, Calm, Orderly, Linkable, AllFind, AllLanded, NoneInside, NoneWithin, SharedValues.Apply, SortPatches,
      TreeOf, View, Tried, Turns, Repeats, IgnoresRepeats;
    SplitsSelf(applied);
    StartsKept(spec, r, applied);
    AttemptKeeps(spec, r, applied, r, applied);
    DropOfOrderly(spec, r, applied, errors);
    var failed;
    doc, after, failed := ApplyRecords(spec, r, applied);
    keep, dropped, tested := applied, [], after;
    SteadyIsShown(spec, r, applied, after, applied);
    KeptIsCalm(spec, r, applied, after);
    var patched, errs := doc, errors(View(after, doc, 0));
    if errs == 0 {
      return;
    }
    while errs > 0 && keep != []
      invariant Splits(applied, keep, dropped) && (dropped == [] ==> keep == applied) && DistinctIds(keep)
      invariant Kept(spec, r, applied, after) && tested == after
      invariant errs == errors(Shown(spec, after, keep))
      invariant doc == TreeAfter(spec, keep)
      invariant dropped == [] ==> doc == patched
      invariant SchemaDrop(spec, r, applied, errors) == Turns(spec, applied, after, keep, dropped, errors)
      invariant Calm(spec, r, applied) ==> after == r && errs + |dropped| <= errors(Shown(spec, r, applied))
      decreases |keep|
    {
      KeptIsPart(applied, keep, dropped);
      ghost var before := after;
      TriesKeep(spec, r, applied, after, keep, |keep|);
      TurnUnfolds(spec, applied, after, keep, dropped, errors);
      var best, tried := FindBest(spec, after, keep, errors, errs);
      after := tried;
      KeptIsCalm(spec, r, applied, after);
      if best == None {
        doc, keep, dropped, tested := patched, applied, [], after;
        SplitsSelf(applied);
        SteadyIsShown(spec, r, applied, after, applied);
        return;
      }
      BestHelps(spec, before, keep, errors, errs, best.value);
      var culprit := keep[best.value];
      if Calm(spec, r, applied) {
        TrialIsCalm(spec, r, applied, before, keep, errors, best.value);
      }
      DropOne(applied, keep, dropped, culprit);
      WithoutOneLess(keep, culprit);
      keep, dropped := Without(keep, culprit.id), dropped + [culprit];
      KeptIsPart(applied, keep, dropped);
      AttemptKeeps(spec, r, applied, after, keep);
      doc, after, failed := ApplyRecords(spec, after, keep);
      KeptIsCalm(spec, r, applied, after);
      tested := after;
      errs := errors(View(after, doc, 0));
    }
    KeptIsPart(applied, keep, dropped);
    AttemptKeeps(spec, r, applied, after, keep);
    LastTurn(spec, applied, after, keep, dropped, errors);
    doc, after, failed := ApplyRecords(spec, after, keep);
    KeptIsCalm(spec, r, applied, after);
    SteadyIsShown(spec, r, applied, after, keep);
    NothingShown(spec, after);
  }

  lemma RepeatsPass(errors: Json -> nat, a: Json, b: Json)
    ensures IgnoresRepeats(errors) && Repeats(a, b) && errors(a) == 0 ==> errors(b) == 0
  {
    hide Repeats;
  }

  /** One turn of the drop. */
  lemma TurnUnfolds(spec: Json, applied: seq<Patch>, q: Records, keep: seq<Patch>, dropped: seq<Patch>, errors: Json -> nat)
    requires errors(Shown(spec, q, keep)) > 0 && keep != []
    ensures var best, tried := Best(spec, q, keep, errors, errors(Shown(spec, q, keep)), |keep|), Tried(spec, q, keep, |keep|);
            Turns(spec, applied, q, keep, dropped, errors) ==
            if best == None then Dropping(tried, tried, applied, [])
            else
              var left := Without(keep, keep[best.value].id);
              Turns(spec, applied, After(spec, tried, left).records, left, dropped + [keep[best.value]], errors)
  {
    hide Without, Best, Tried, After, Shown;
  }

  lemma LastTurn(spec: Json, applied: seq<Patch>, q: Records, keep: seq<Patch>, dropped: seq<Patch>, errors: Json -> nat)
    requires errors(Shown(spec, q, keep)) == 0 || keep == []
    ensures Turns(spec, applied, q, keep, dropped, errors) == Dropping(q, After(spec, q, keep).records, keep, dropped)
  {
    hide Without, Best, Tried, After, Shown;
  }

  /** What a drop promises of an orderly round. */
  ghost predicate Promised(spec: Json, d: Dropping, errors: Json -> nat) {
    d.dropped != [] ==>
      && (Shown(spec, d.after, d.keep) == Shown(spec, d.tested, d.keep) <==> NoneWithin(spec, d.keep))
      && (IgnoresRepeats(errors) ==> errors(Shown(spec, d.after, d.keep)) == 0 || (d.keep == [] && errors(spec) > 0))
  }

  lemma {:induction false} TurnsOfOrderly(spec: Json, applied: seq<Patch>, q: Records, keep: seq<Patch>, dropped: seq<Patch>, errors: Json -> nat)
    requires Orderly(spec, q, applied) && DistinctIds(keep) && forall p :: p in keep ==> p in applied
    ensures Promised(spec, Turns(spec, applied, q, keep, dropped, errors), errors)
    decreases |keep|
  {
    hide After, Without, Best, Tried, Kept, Orderly, NoneWithin, IgnoresRepeats, Turns, View, TreeAfter, Repeats, AllDoubled, NoneInside;
    if errors(Shown(spec, q, keep)) == 0 || keep == [] {
      LastTurn(spec, applied, q, keep, dropped, errors);
      OrderlyAttempt(spec, q, applied, keep);
      AttemptIsTree(spec, q, keep);
      NothingShown(spec, After(spec, q, keep).records);
      RepeatsPass(errors, Shown(spec, q, keep), Shown(spec, After(spec, q, keep).records, keep));
    } else {
      TurnUnfolds(spec, applied, q, keep, dropped, errors);
      var best, tried := Best(spec, q, keep, errors, errors(Shown(spec, q, keep)), |keep|), Tried(spec, q, keep, |keep|);
      if best.Some? {
        var culprit := keep[best.value];
        TriesOrderly(spec, applied, q, keep, |keep|);
        WithoutOneLess(keep, culprit);
        OrderlyAttempt(spec, tried, applied, Without(keep, culprit.id));
        TurnsOfOrderly(spec, applied, After(spec, tried, Without(keep, culprit.id)).records, Without(keep, culprit.id),
                       dropped + [culprit], errors);
      }
    }
  }

  lemma AttemptIsTree(spec: Json, q: Records, keep: seq<Patch>)
    ensures AsValues(After(spec, q, keep)).doc == Shown(spec, After(spec, q, keep).records, keep)
  {
    hide Apply, TreeOf, SortPatches, View;
    TreeIsFixed(spec, q, SortPatches(keep));
  }

  /** What it promises of a linked one whose kept appends found their lists, or landed in them, when last tested. */
  ghost predicate PromisedOfLinked(spec: Json, d: Dropping, errors: Json -> nat) {
    d.dropped != [] ==>
      && (AllFind(spec, d.tested, SortPatches(d.keep)) ==>
            (Shown(spec, d.after, d.keep) == Shown(spec, d.tested, d.keep) <==> NoneWithin(spec, d.keep)))
      && (AllLanded(spec, d.tested, SortPatches(d.keep)) && IgnoresRepeats(errors) ==>
            errors(Shown(spec, d.after, d.keep)) == 0 || (d.keep == [] && errors(spec) > 0))
  }

  lemma {:induction false} TurnsOfLinked(spec: Json, applied: seq<Patch>, q: Records, keep: seq<Patch>, dropped: seq<Patch>, errors: Json -> nat)
    requires Linkable(q, applied) && DistinctIds(keep) && forall p :: p in keep ==> p in applied
    ensures PromisedOfLinked(spec, Turns(spec, applied, q, keep, dropped, errors), errors)
    decreases |keep|
  {
    hide Without, Best, Tried, Linkable, NoneIsInner, AllFind, AllLanded, AllDoubled, Repeats, IgnoresRepeats, Turns, View, TreeAfter,
      SortPatches, Apply, TreeOf;
    if errors(Shown(spec, q, keep)) == 0 || keep == [] {
      LastTurn(spec, applied, q, keep, dropped, errors);
      AttemptOfLinked(spec, q, applied, keep);
      AttemptIsTree(spec, q, keep);
      ShownIsTree(spec, q, keep);
      NothingShown(spec, After(spec, q, keep).records);
      RepeatsPass(errors, Shown(spec, q, keep), Shown(spec, After(spec, q, keep).records, keep));
    } else {
      TurnUnfolds(spec, applied, q, keep, dropped, errors);
      var best, tried := Best(spec, q, keep, errors, errors(Shown(spec, q, keep)), |keep|), Tried(spec, q, keep, |keep|);
      if best.Some? {
        var culprit := keep[best.value];
        TriesLinked(spec, applied, q, keep, |keep|);
        WithoutOneLess(keep, culprit);
        AttemptOfLinked(spec, tried, applied, Without(keep, culprit.id));
        TurnsOfLinked(spec, applied, After(spec, tried, Without(keep, culprit.id)).records, Without(keep, culprit.id),
                      dropped + [culprit], errors);
      }
    }
  }

  lemma ShownIsTree(spec: Json, q: Records, keep: seq<Patch>)
    ensures Shown(spec, q, keep) == View(q, TreeOf(spec, SortPatches(keep)), 0)
  {
  }

  lemma {:induction false} TriesLinked(spec: Json, applied: seq<Patch>, q: Records, keep: seq<Patch>, n: nat)
    requires Linkable(q, applied) && DistinctIds(keep) && (forall p :: p in keep ==> p in applied) && n <= |keep|
    ensures Linkable(Tried(spec, q, keep, n), applied)
  {
    hide Without, Linkable, NoneIsInner, AllFind, AllLanded, AllDoubled, Repeats, View, SortPatches, Apply, TreeOf;
    if n > 0 {
      TriesLinked(spec, applied, q, keep, n - 1);
      WithoutOneLess(keep, keep[n - 1]);
      AttemptOfLinked(spec, Tried(spec, q, keep, n - 1), applied, Without(keep, keep[n - 1].id));
    }
  }

  lemma TriesOrderly(spec: Json, applied: seq<Patch>, q: Records, keep: seq<Patch>, n: nat)
    requires Orderly(spec, q, applied) && DistinctIds(keep) && (forall p :: p in keep ==> p in applied) && n <= |keep|
    ensures Orderly(spec, Tried(spec, q, keep, n), applied)
  {
    hide Tried, TidyRound, Linked, Listed, Calm, Within, AppendsTo, AllDoubled, Sound, Belongs;
    StartsKept(spec, q, applied);
    TriesKeep(spec, q, applied, q, keep, n);
  }

  lemma DropOfOrderly(spec: Json, r: Records, applied: seq<Patch>, errors: Json -> nat)
    requires DistinctIds(applied)
    ensures Orderly(spec, After(spec, r, applied).records, applied) ==> Promised(spec, SchemaDrop(spec, r, applied, errors), errors)
    ensures Linkable(After(spec, r, applied).records, applied) ==> PromisedOfLinked(spec, SchemaDrop(spec, r, applied, errors), errors)
  {
    hide After, Orderly, Turns, Shown, NoneWithin, IgnoresRepeats, Linkable, AllFind, AllLanded;
    if Linkable(After(spec, r, applied).records, applied) {
      TurnsOfLinked(spec, applied, After(spec, r, applied).records, applied, [], errors);
    }
    if Orderly(spec, After(spec, r, applied).records, applied) {
      TurnsOfOrderly(spec, applied, After(spec, r, applied).records, applied, [], errors);
    }
  }

  /** What the records show of a steady round is the value model's document. */
  lemma SteadyIsShown(spec: Json, r: Records, applied: seq<Patch>, q: Records, keep: seq<Patch>)
    requires Kept(spec, r, applied, q) && DistinctIds(keep) && forall p :: p in keep ==> p in applied
    ensures Steady(r, applied) ==> Shown(spec, q, keep) == ApplyTo(spec, keep).doc && Shown(spec, r, keep) == ApplyTo(spec, keep).doc
  {
    hide Held, Steady, Kept, TreeAfter, View, ApplyTo, After, Orderly, NoneInside, Repeats;
    if Steady(r, applied) {
      AttemptKeeps(spec, r, applied, q, keep);
      KeptIsCalm(spec, r, applied, q);
      KeptIsCalm(spec, r, applied, After(spec, q, keep).records);
    }
  }

  lemma NothingShown(spec: Json, q: Records)
    ensures Shown(spec, q, []) == spec
  {
    hide View, Tag;
    ViewTag(q, spec, 0);
  }

  lemma BestHelps(spec: Json, r: Records, keep: seq<Patch>, errors: Json -> nat, errs: nat, best: nat)
    requires BestSoFar(spec, r, keep, errors, errs, |keep|, Some(best))
    ensures best < |keep| && Trial(spec, r, keep, errors, best) < errs
  {
  }

  /* ------------------------------------------------------------ patches that lose detail */

  function Pointers(patches: seq<Patch>): set<string> {
    set p | p in patches :: p.pointer
  }

  /** What the round loses that none of its own patches names. */
  function LostBy(spec: Json, doc: Json, keep: seq<Patch>): set<Loss> {
    Uncovered(spec, doc, Pointers(keep))
  }

  predicate Blamed(f: Loss, r: Patch) {
    f.pointer == r.pointer || r.pointer + "/" <= f.pointer
  }

  /** On pointers written alike, a patch answers for a loss at its own place or below it. */
  lemma BlamedIsAtOrBelow(p: seq<string>, q: seq<string>, code: string, r: Patch)
    requires r.pointer == Render(p)
    ensures Blamed(Loss(Render(q), code), r) <==> p <= q
  {
    BelowIsPrefix(p, q);
    if Render(p) == Render(q) {
      RenderInjective(p, q);
    }
    if p <= q && |p| == |q| {
      assert p == q;
    }
    assert p < q <==> p <= q && |p| < |q|;
  }

  /** One of these losses is for the `i`-th patch to answer, and for none before it. */
  ghost predicate Answers(left: set<Loss>, keep: seq<Patch>, i: nat)
    requires i < |keep|
  {
    exists f :: f in left && Blamed(f, keep[i]) && forall k :: 0 <= k < i ==> !Blamed(f, keep[k])
  }

  ghost predicate NoneAnswers(left: set<Loss>, keep: seq<Patch>) {
    forall f, r :: f in left && r in keep ==> !Blamed(f, r)
  }

  ghost predicate ToBlame(left: set<Loss>, keep: seq<Patch>, r: Patch) {
    exists i :: 0 <= i < |keep| && keep[i] == r && Answers(left, keep, i)
  }

  method FindBlame(left: set<Loss>, keep: seq<Patch>) returns (culprit: Option<Patch>)
    ensures culprit == None <==> NoneAnswers(left, keep)
    ensures culprit.Some? ==> culprit.value in keep && ToBlame(left, keep, culprit.value)
  {
    hide Blamed;
    var rest := left;
    while rest != {}
      invariant rest <= left
      invariant forall f, r :: f in left - rest && r in keep ==> !Blamed(f, r)
      decreases |rest|
    {
      var f :| f in rest;
      for i := 0 to |keep|
        invariant forall k :: 0 <= k < i ==> !Blamed(f, keep[k])
      {
        if Blamed(f, keep[i]) {
          assert Answers(left, keep, i);
          return Some(keep[i]);
        }
      }
      rest := rest - {f};
    }
    culprit := None;
  }

  /** The records, and the patches left, when these have been taken out one after another. */
  function TakenOut(spec: Json, r: Records, applied: seq<Patch>, blamed: seq<Patch>): (Records, seq<Patch>) {
    if blamed == [] then (After(spec, r, applied).records, applied)
    else
      var (q, keep) := TakenOut(spec, r, applied, blamed[..|blamed| - 1]);
      var left := Without(keep, blamed[|blamed| - 1].id);
      (After(spec, q, left).records, left)
  }

  /** What is lost, and named by none of them, with these taken out. */
  function LostWithout(spec: Json, r: Records, applied: seq<Patch>, blamed: seq<Patch>): set<Loss> {
    var (q, keep) := TakenOut(spec, r, applied, blamed);
    LostBy(spec, Shown(spec, q, keep), keep)
  }

  ghost predicate EachAnswers(spec: Json, r: Records, applied: seq<Patch>, blamed: seq<Patch>) {
    forall n :: 0 <= n < |blamed| ==>
      ToBlame(LostWithout(spec, r, applied, blamed[..n]), TakenOut(spec, r, applied, blamed[..n]).1, blamed[n])
  }

  lemma OneMoreAnswers(spec: Json, r: Records, applied: seq<Patch>, blamed: seq<Patch>, p: Patch)
    requires EachAnswers(spec, r, applied, blamed)
    requires ToBlame(LostWithout(spec, r, applied, blamed), TakenOut(spec, r, applied, blamed).1, p)
    ensures EachAnswers(spec, r, applied, blamed + [p])
  {
    hide ToBlame, LostWithout, TakenOut;
    var all := blamed + [p];
    forall n | 0 <= n < |all|
      ensures ToBlame(LostWithout(spec, r, applied, all[..n]), TakenOut(spec, r, applied, all[..n]).1, all[n])
    {
      assert all[..n] == blamed[..n];
      assert blamed[..|blamed|] == blamed;
    }
  }

  lemma OneMoreTaken(spec: Json, r: Records, applied: seq<Patch>, blamed: seq<Patch>, p: Patch)
    ensures var (q, keep) := TakenOut(spec, r, applied, blamed);
            TakenOut(spec, r, applied, blamed + [p]) == (After(spec, q, Without(keep, p.id)).records, Without(keep, p.id))
  {
    hide After, Without;
    assert (blamed + [p])[..|blamed|] == blamed;
  }

  /** How the drop ends: those to blame are taken out in turn, until nothing is lost, or nobody is to blame for what is and
      all of them go back in. */
  ghost predicate Launders(spec: Json, r: Records, applied: seq<Patch>, blamed: seq<Patch>, after: Records, keep: seq<Patch>,
                           dropped: seq<Patch>) {
    var (q, left) := TakenOut(spec, r, applied, blamed);
    EachAnswers(spec, r, applied, blamed) &&
    if LostWithout(spec, r, applied, blamed) == {} then after == q && keep == left && dropped == blamed
    else NoneAnswers(LostWithout(spec, r, applied, blamed), left)
         && after == After(spec, q, applied).records && keep == applied && dropped == []
  }

  /** `_drop_laundering_patches`: in every round, the document it returns has no uncovered loss left, or it dropped
      nothing. It tests the very document it returns. */
  method DropLaundering(spec: Json, r: Records, applied: seq<Patch>)
    returns (doc: Tree, after: Records, keep: seq<Patch>, dropped: seq<Patch>, ghost blamed: seq<Patch>)
    requires DistinctIds(applied) && Held(r, applied)
    ensures Splits(applied, keep, dropped) && (dropped == [] ==> keep == applied)
    ensures Kept(spec, r, applied, after) && doc == TreeAfter(spec, keep)
    ensures Launders(spec, r, applied, blamed, after, keep, dropped)
    ensures LostBy(spec, View(after, doc, 0), keep) == {} || dropped == []
    ensures Steady(r, applied) ==> View(after, doc, 0) == ApplyTo(spec, keep).doc
  {
    hide Without, Splits, ApplyTo, Uncovered, Pointers, Held, Steady, Kept, SharedValues.Apply, SortPatches, TreeOf, View, ToBlame,
      TakenOut, EachAnswers, NoneAnswers;
    SplitsSelf(applied);
    StartsKept(spec, r, applied);
    AttemptKeeps(spec, r, applied, r, applied);
    var failed;
    doc, after, failed := ApplyRecords(spec, r, applied);
    keep, dropped, blamed := applied, [], [];
    NothingTaken(spec, r, applied);
    while true
      invariant blamed == dropped && TakenOut(spec, r, applied, blamed) == (after, keep) && EachAnswers(spec, r, applied, blamed)
      invariant Splits(applied, keep, dropped) && (dropped == [] ==> keep == applied) && DistinctIds(keep)
      invariant Kept(spec, r, applied, after) && doc == TreeAfter(spec, keep)
      invariant Steady(r, applied) ==> View(after, doc, 0) == ApplyTo(spec, keep).doc
      decreases |keep|
    {
      var left := LostBy(spec, View(after, doc, 0), keep);
      if left == {} {
        return;
      }
      var culprit := FindBlame(left, keep);
      if culprit == None {
        keep, dropped := applied, [];
        SplitsSelf(applied);
        AttemptKeeps(spec, r, applied, after, applied);
        doc, after, failed := ApplyRecords(spec, after, applied);
        return;
      }
      OneMoreTaken(spec, r, applied, blamed, culprit.value);
      OneMoreAnswers(spec, r, applied, blamed, culprit.value);
      blamed := blamed + [culprit.value];
      DropOne(applied, keep, dropped, culprit.value);
      WithoutOneLess(keep, culprit.value);
      keep := Without(keep, culprit.value.id);
      dropped := dropped + [culprit.value];
      KeptIsPart(applied, keep, dropped);
      AttemptKeeps(spec, r, applied, after, keep);
      doc, after, failed := ApplyRecords(spec, after, keep);
    }
  }

  lemma NothingTaken(spec: Json, r: Records, applied: seq<Patch>)
    ensures TakenOut(spec, r, applied, []) == (After(spec, r, applied).records, applied) && EachAnswers(spec, r, applied, [])
  {
  }

  /* ------------------------------------------------------------ patches that break a check */

  /** The deterministic checks, and the range coupling the pipeline runs on its own field. */
  datatype Checker = Checker(checks: Json -> seq<Finding>, couple: Json -> Json)

  function NewIn(c: Checker, before: seq<Finding>, doc: Json): set<Key> {
    Introduced(before, c.checks(doc))
  }

  /** The coupled document when that settles the round completely, else the document as it is. */
  function Settled(c: Checker, before: seq<Finding>, doc: Json): Json {
    if NewIn(c, before, c.couple(doc)) == {} then c.couple(doc) else doc
  }

  predicate Culprit(c: Checker, before: seq<Finding>, patched: Json, r: Patch) {
    exists k :: k in NewIn(c, before, patched) && Overlaps(r.pointer, EnclosingObject(patched, k.pointer))
  }

  /** No error that was not there before, by its code and pointer. */
  ghost predicate Clean(c: Checker, before: seq<Finding>, doc: Json) {
    forall f :: !NewError(before, c.checks(doc), f)
  }

  lemma CleanIff(c: Checker, before: seq<Finding>, doc: Json)
    ensures Clean(c, before, doc) <==> NewIn(c, before, doc) == {}
  {
    var after := c.checks(doc);
    forall f
      ensures NewError(before, after, f) <==> f in after && f.severity == Error && KeyOf(f) in Introduced(before, after)
    {
      NewErrorIff(before, after, f);
    }
    if NewIn(c, before, doc) != {} {
      var k :| k in NewIn(c, before, doc);
      var f :| f in after && f.severity == Error && KeyOf(f) == k;
      assert NewError(before, after, f);
    }
  }

  lemma NewErrorIff(before: seq<Finding>, after: seq<Finding>, f: Finding)
    ensures NewError(before, after, f) <==> f in after && f.severity == Error && KeyOf(f) in Introduced(before, after)
  {
  }

  /** The coupling is kept exactly when it leaves no new error. */
  lemma SettledIff(c: Checker, before: seq<Finding>, doc: Json)
    ensures Clean(c, before, c.couple(doc)) ==> Settled(c, before, doc) == c.couple(doc) && NewIn(c, before, Settled(c, before, doc)) == {}
    ensures !Clean(c, before, c.couple(doc)) ==> Settled(c, before, doc) == doc
  {
    hide NewIn, Clean;
    CleanIff(c, before, c.couple(doc));
  }

  /** Some new error stands in the object the patch writes in, or in what lies around or below it. */
  ghost predicate InItsRegion(c: Checker, before: seq<Finding>, patched: Json, r: Patch) {
    exists f :: NewError(before, c.checks(patched), f) && Overlaps(r.pointer, EnclosingObject(patched, f.pointer))
  }

  lemma CulpritIff(c: Checker, before: seq<Finding>, patched: Json, r: Patch)
    ensures Culprit(c, before, patched, r) <==> InItsRegion(c, before, patched, r)
  {
    hide Overlaps, EnclosingObject;
    var after := c.checks(patched);
    forall f
      ensures NewError(before, after, f) <==> f in after && f.severity == Error && KeyOf(f) in Introduced(before, after)
    {
      NewErrorIff(before, after, f);
    }
    if Culprit(c, before, patched, r) {
      var k :| k in NewIn(c, before, patched) && Overlaps(r.pointer, EnclosingObject(patched, k.pointer));
      var f :| f in after && f.severity == Error && KeyOf(f) == k;
      assert NewError(before, after, f) && f.pointer == k.pointer;
    }
    if InItsRegion(c, before, patched, r) {
      var f :| NewError(before, after, f) && Overlaps(r.pointer, EnclosingObject(patched, f.pointer));
      assert KeyOf(f) in NewIn(c, before, patched) && KeyOf(f).pointer == f.pointer;
    }
  }

  /** Those of the landed patches that are culprits, or those that are not, in order. */
  function Sift(c: Checker, before: seq<Finding>, patched: Json, landed: seq<Patch>, culprits: bool): seq<Patch> {
    if landed == [] then []
    else
      var last := |landed| - 1;
      Sift(c, before, patched, landed[..last], culprits) + (if Culprit(c, before, patched, landed[last]) == culprits then [landed[last]] else [])
  }

  /** The landed patches, told apart by whether some introduced error lies in their region. */
  method Attribute(c: Checker, before: seq<Finding>, patched: Json, landed: seq<Patch>)
    returns (keep: seq<Patch>, dropped: seq<Patch>)
    requires DistinctIds(landed)
    ensures Splits(landed, keep, dropped) && (dropped == [] ==> keep == landed)
    ensures forall r :: r in landed ==> (r in dropped <==> Culprit(c, before, patched, r))
    ensures keep == Sift(c, before, patched, landed, false) && dropped == Sift(c, before, patched, landed, true)
  {
    hide Culprit, Sift, Sorted, Splits;
    keep, dropped := [], [];
    NothingSifted(c, before, patched);
    assert landed[..0] == [];
    for i := 0 to |landed|
      invariant Sorted(c, before, patched, landed[..i], keep, dropped)
      invariant keep == Sift(c, before, patched, landed[..i], false) && dropped == Sift(c, before, patched, landed[..i], true)
    {
      SiftOneMore(c, before, patched, landed, i);
      OneMoreSorted(c, before, patched, landed, i, keep, dropped);
      if Culprit(c, before, patched, landed[i]) {
        dropped := dropped + [landed[i]];
      } else {
        keep := keep + [landed[i]];
      }
    }
    assert landed[..|landed|] == landed;
    AllSorted(c, before, patched, landed, keep, dropped);
  }

  lemma NothingSifted(c: Checker, before: seq<Finding>, patched: Json)
    ensures Sorted(c, before, patched, [], [], [])
    ensures forall culprits: bool :: Sift(c, before, patched, [], culprits) == []
  {
    hide Culprit;
  }

  lemma AllSorted(c: Checker, before: seq<Finding>, patched: Json, landed: seq<Patch>, keep: seq<Patch>, dropped: seq<Patch>)
    requires Sorted(c, before, patched, landed, keep, dropped)
    ensures Splits(landed, keep, dropped) && (dropped == [] ==> keep == landed)
    ensures forall r :: r in landed ==> (r in dropped <==> Culprit(c, before, patched, r))
  {
    hide Culprit;
  }

  lemma SiftOneMore(c: Checker, before: seq<Finding>, patched: Json, landed: seq<Patch>, i: nat)
    requires i < |landed|
    ensures forall culprits: bool :: Sift(c, before, patched, landed[..i + 1], culprits) ==
              Sift(c, before, patched, landed[..i], culprits)
              + (if Culprit(c, before, patched, landed[i]) == culprits then [landed[i]] else [])
  {
    hide Culprit;
    assert landed[..i + 1][..i] == landed[..i];
  }

  ghost predicate Sorted(c: Checker, before: seq<Finding>, patched: Json, landed: seq<Patch>, keep: seq<Patch>,
                         dropped: seq<Patch>) {
    && DistinctIds(landed) && Splits(landed, keep, dropped) && (dropped == [] ==> keep == landed)
    && (forall r :: r in dropped ==> Culprit(c, before, patched, r))
    && (forall r :: r in keep ==> !Culprit(c, before, patched, r))
  }

  lemma OneMoreSorted(c: Checker, before: seq<Finding>, patched: Json, landed: seq<Patch>, i: nat, keep: seq<Patch>,
                      dropped: seq<Patch>)
    requires DistinctIds(landed) && i < |landed| && Sorted(c, before, patched, landed[..i], keep, dropped)
    ensures if Culprit(c, before, patched, landed[i])
            then Sorted(c, before, patched, landed[..i + 1], keep, dropped + [landed[i]])
            else Sorted(c, before, patched, landed[..i + 1], keep + [landed[i]], dropped)
  {
    hide Culprit;
    var r := landed[i];
    assert landed[..i + 1] == landed[..i] + [r];
    forall p | p in landed[..i]
      ensures p.id != r.id
    {
      var k :| 0 <= k < i && landed[k] == p;
    }
    assert forall k :: 0 <= k < |keep| ==> keep[k] in landed[..i];
  }

  /** The document in hand, coupled if that settles the round; the coupled one is a copy of its own. */
  function SettledTree(c: Checker, before: seq<Finding>, r: Records, doc: Tree): Tree {
    var seen := View(r, doc, 0);
    if NewIn(c, before, c.couple(seen)) == {} then Tag(c.couple(seen)) else doc
  }

  lemma SettledIsSeen(c: Checker, before: seq<Finding>, r: Records, doc: Tree)
    ensures View(r, SettledTree(c, before, r, doc), 0) == Settled(c, before, View(r, doc, 0))
  {
    hide NewIn, Tag, View;
    ViewTag(r, c.couple(View(r, doc, 0)), 0);
  }

  /** Applied without the culprits, the round shows fewer new errors than it did with them, and there are some. */
  ghost predicate Earns(spec: Json, r: Records, seen: Json, landed: seq<Patch>, before: seq<Finding>, c: Checker) {
    && NewIn(c, before, seen) != {}
    && Sift(c, before, seen, landed, true) != []
    && |NewIn(c, before, Settled(c, before, AsValues(After(spec, r, Sift(c, before, seen, landed, false))).doc))| < |NewIn(c, before, seen)|
  }

  /** How the drop ends: without the culprits if that earns it, else with all of them. The document is read off the records
      after the rebuild, if there was one. */
  ghost predicate Reverts(spec: Json, r: Records, patched: Tree, landed: seq<Patch>, before: seq<Finding>, c: Checker,
                          shown: Json, keep: seq<Patch>, dropped: seq<Patch>) {
    var seen := Settled(c, before, View(r, patched, 0));
    var spared, culprits := Sift(c, before, seen, landed, false), Sift(c, before, seen, landed, true);
    if Earns(spec, r, seen, landed, before, c)
    then keep == spared && dropped == culprits && shown == Settled(c, before, AsValues(After(spec, r, spared)).doc)
    else keep == landed && dropped == [] &&
         shown == View(if NewIn(c, before, seen) == {} || culprits == [] then r else After(spec, r, spared).records,
                       SettledTree(c, before, r, patched), 0)
  }

  /** `_drop_regressing_patches`: strictly fewer introduced errors than the document it was given showed, or it dropped
      nothing and returns that document's tree. Of an orderly round that tree then shows the document with elements of lists
      repeated, which the rebuild wrote that earned nothing; in a calm round it shows the document itself. */
  method DropRegressing(spec: Json, r: Records, patched: Tree, landed: seq<Patch>, before: seq<Finding>, c: Checker)
    returns (doc: Tree, after: Records, keep: seq<Patch>, dropped: seq<Patch>)
    requires DistinctIds(landed) && Held(r, landed)
    ensures Splits(landed, keep, dropped) && (dropped == [] ==> keep == landed)
    ensures Kept(spec, r, landed, after)
    ensures Reverts(spec, r, patched, landed, before, c, View(after, doc, 0), keep, dropped)
    ensures dropped == [] ==> doc == SettledTree(c, before, r, patched)
    ensures dropped != [] ==> after == After(spec, r, keep).records
    ensures dropped != [] ==>
              && View(after, doc, 0) == Settled(c, before, AsValues(After(spec, r, keep)).doc)
              && |NewIn(c, before, View(after, doc, 0))| < |NewIn(c, before, Settled(c, before, View(r, patched, 0)))|
              && forall p :: p in landed ==> (p in dropped <==> Culprit(c, before, Settled(c, before, View(r, patched, 0)), p))
    ensures Orderly(spec, r, landed) && dropped == [] ==>
              Repeats(Settled(c, before, View(r, patched, 0)), View(after, doc, 0))
    ensures Calm(spec, r, landed) ==>
              && after == r
              && View(after, doc, 0) == Settled(c, before, if dropped == [] then View(r, patched, 0) else Shown(spec, r, keep))
              && |NewIn(c, before, View(after, doc, 0))| <= |NewIn(c, before, Settled(c, before, View(r, patched, 0)))|
    ensures Steady(r, landed) ==>
              && View(after, doc, 0) == Settled(c, before, if dropped == [] then View(r, patched, 0) else ApplyTo(spec, keep).doc)
              && |NewIn(c, before, View(after, doc, 0))| <= |NewIn(c, before, Settled(c, before, View(r, patched, 0)))|
  {
    hide NewIn, Splits, ApplyTo, Culprit, Held, Steady, Kept, SharedValues.Apply, SortPatches, View, Settled, SettledTree, Calm,
      Orderly, NoneInside, Repeats, TreeOf, DistinctIds, Sift, Fresh;
    SplitsSelf(landed);
    StartsKept(spec, r, landed);
    SettledIsSeen(c, before, r, patched);
    KeptIsCalm(spec, r, landed, r);
    StillShows(spec, r, landed, r, SettledTree(c, before, r, patched));
    doc, after, keep, dropped := SettledTree(c, before, r, patched), r, landed, [];
    var seen := View(r, doc, 0);
    var introduced := NewIn(c, before, seen);
    if introduced == {} {
      return;
    }
    var spared, culprits := Attribute(c, before, seen, landed);
    if culprits == [] {
      return;
    }
    KeptIsPart(landed, spared, culprits);
    SplitsKeep(landed, spared, culprits);
    AttemptKeeps(spec, r, landed, r, spared);
    var tree, records, failed := ApplyRecords(spec, r, spared);
    SettledIsSeen(c, before, records, tree);
    var rebuilt := SettledTree(c, before, records, tree);
    after := records;
    KeptIsCalm(spec, r, landed, after);
    SteadyIsShown(spec, r, landed, after, spared);
    StillShows(spec, r, landed, after, doc);
    if |NewIn(c, before, View(records, rebuilt, 0))| >= |introduced| {
      return;
    }
    doc, keep, dropped := rebuilt, spared, culprits;
  }

  /** What a tree showed before attempts at an orderly round it shows after them, up to repeats. */
  lemma StillShows(spec: Json, r: Records, applied: seq<Patch>, q: Records, t: Tree)
    requires Kept(spec, r, applied, q)
    ensures Orderly(spec, r, applied) ==> Repeats(View(r, t, 0), View(q, t, 0))
  {
    hide Held, Orderly, Calm, AllDoubled, Doubled, View, Repeats;
    if Orderly(spec, r, applied) {
      DoubledSelf(t);
      DoubledIsSeen(r, q, t, t, 0);
    }
  }

  lemma SplitsKeep(all: seq<Patch>, keep: seq<Patch>, dropped: seq<Patch>)
    requires Splits(all, keep, dropped)
    ensures DistinctIds(keep)
  {
  }

  /* ------------------------------------------------------------ a whole round */

  /** The round's own first application is the value model's: what it sets aside is what the value model does. */
  lemma FirstAttemptIsPlain(spec: Json, applied: seq<Patch>)
    requires DistinctIds(applied)
    ensures Held(Fresh(applied), applied) && HoldValues(Fresh(applied), applied)
    ensures AsValues(After(spec, Fresh(applied), applied)) == ApplyTo(spec, applied)
    ensures Shown(spec, After(spec, Fresh(applied), applied).records, applied) == ApplyTo(spec, applied).doc
  {
    hide Sound, Belongs, SortPatches, Apply, ValueOf, Run, Fresh, DistinctIds;
    var r := Fresh(applied);
    FreshIsReady(applied);
    PermutedDistinct(applied, SortPatches(applied));
    forall p | p in SortPatches(applied)
      ensures p in applied
    {
      SameMembers(SortPatches(applied), applied, p);
    }
    FreshIsBare(applied);
    FirstApplication.FirstApplicationIsPlain(spec, r, SortPatches(applied));
    TreeIsFixed(spec, r, SortPatches(applied));
  }

  /** What lands of a tidy round whose appends all land is an orderly round from then on. */
  lemma FirstAttemptIsOrderly(spec: Json, applied: seq<Patch>, landed: seq<Patch>)
    requires DistinctIds(applied) && Settles(spec, applied)
    requires forall p :: p in landed ==> p in applied && p !in ApplyTo(spec, applied).failed
    ensures Orderly(spec, After(spec, Fresh(applied), applied).records, landed)
  {
    hide Sound, Belongs, SortPatches, Apply, ValueOf, Run, Fresh, DistinctIds, Settles, Orderly;
    FreshIsReady(applied);
    PermutedDistinct(applied, SortPatches(applied));
    FreshIsBare(applied);
    forall p | p in SortPatches(applied)
      ensures p in applied
    {
      SameMembers(SortPatches(applied), applied, p);
    }
    FirstIsOrderly(spec, Fresh(applied), applied, landed);
  }

  lemma FreshIsBare(patches: seq<Patch>)
    ensures FirstApplication.AllBare(Fresh(patches))
  {
    hide Fresh, Tag;
    forall k | k in Fresh(patches).values
      ensures FirstApplication.Bare(Fresh(patches), k)
    {
      BareValue(patches, k);
    }
  }

  /** The patches that are not among the failed, in order. */
  function NotAmong(applied: seq<Patch>, failed: seq<Patch>): seq<Patch> {
    if applied == [] then []
    else
      var last := |applied| - 1;
      NotAmong(applied[..last], failed) + (if applied[last] in failed then [] else [applied[last]])
  }

  /** The three drops, each on the records and the patches the last one left; the last only with a baseline to hold to. */
  ghost predicate Passed(spec: Json, applied: seq<Patch>, errors: Json -> nat, before: Option<seq<Finding>>, c: Checker, doc: Json,
                         keep: seq<Patch>, broke: seq<Patch>, laundered: seq<Patch>, reverted: seq<Patch>,
                         blamed: seq<Patch>, records: Records, left: seq<Patch>) {
    var landed := NotAmong(applied, ApplyTo(spec, applied).failed);
    var schema := SchemaDrop(spec, After(spec, Fresh(applied), applied).records, landed, errors);
    && broke == schema.dropped
    && Launders(spec, schema.after, schema.keep, blamed, records, left, laundered)
    && if before == None then doc == Shown(spec, records, left) && keep == left && reverted == []
       else Reverts(spec, records, TreeAfter(spec, left), left, before.value, c, doc, keep, reverted)
  }

  /** `apply_patches` from the merged patches on: what could not be applied goes, then the three drops in turn, all on
      the one set of records. In every round what goes first is what the value model sets aside, and without a baseline
      the document returned has no uncovered loss, or nothing was dropped for one. When the patches' pointers stay apart the
      document is the value model's, of the patches kept. Of a tidy round whose appends all land it is what the kept
      patches' tree shows on the records as the first application left them, with elements of lists repeated; and exactly
      that when no append lies inside a replace. Where nothing was dropped for a lost detail and there is no baseline, it
      passes a schema that ignores repeats, or nothing was dropped for the schema either. */
  method ApplyPatches(spec: Json, applied: seq<Patch>, errors: Json -> nat, before: Option<seq<Finding>>, c: Checker)
    returns (doc: Json, keep: seq<Patch>, failed: seq<Patch>, broke: seq<Patch>, laundered: seq<Patch>, reverted: seq<Patch>,
             ghost blamed: seq<Patch>, ghost records: Records, ghost left: seq<Patch>)
    requires DistinctIds(applied)
    ensures Passed(spec, applied, errors, before, c, doc, keep, broke, laundered, reverted, blamed, records, left)
    ensures Splits(applied, keep, failed + (broke + (laundered + reverted)))
    ensures forall p :: p in applied ==> (p in failed <==> p in ApplyTo(spec, applied).failed)
    ensures before == None ==> reverted == [] && (LostBy(spec, doc, keep) == {} || laundered == [])
    ensures NoneLeads(Fresh(applied).names) ==>
              doc == if before == None then ApplyTo(spec, keep).doc else Settled(c, before.value, ApplyTo(spec, keep).doc)
    ensures Settles(spec, applied) ==>
              SettledUpToRepeats(c, before, Shown(spec, After(spec, Fresh(applied), applied).records, keep), doc)
    ensures Settles(spec, applied) && NoneInside(applied) ==>
              var shown := Shown(spec, After(spec, Fresh(applied), applied).records, keep);
              && doc == (if before == None then shown else Settled(c, before.value, shown))
              && (keep == applied ==> shown == ApplyTo(spec, applied).doc)
    ensures Settles(spec, applied) && IgnoresRepeats(errors) && before == None && laundered == [] ==>
              errors(doc) == 0 || broke == [] || (keep == [] && errors(spec) > 0)
  {
    hide Splits, ApplyTo, Without, Settled, NewIn, Culprit, Held, Steady, Kept, SharedValues.Apply, SortPatches, View, Uncovered, Pointers, Fresh,
      TreeOf, Sound, NoneLeads, HoldValues, Settles, Orderly, NoneInside, Calm, Repeats, AllDoubled, SettledUpToRepeats, SchemaDrop, Turns,
      IgnoresRepeats, DistinctIds, Launders, Reverts, NotAmong;
    var r0 := Fresh(applied);
    FirstAttemptIsPlain(spec, applied);
    StartsKept(spec, r0, applied);
    AttemptKeeps(spec, r0, applied, r0, applied);
    var tree, r1, set_aside := ApplyRecords(spec, r0, applied);
    var landed, out := Remove(applied, set_aside);
    failed := out;
    PartIsKept(spec, r0, applied, r1, landed, out);
    LandedIsOrderly(spec, applied, landed, out);
    OrderlyIsCalm(spec, r1, landed);
    var t2, r2, keep1, broken, tested := DropSchemaBreaking(spec, r1, landed, errors);
    broke := broken;
    PartIsKept(spec, r1, landed, r2, keep1, broken);
    var t3, r3, keep2, lost, blame := DropLaundering(spec, r2, keep1);
    laundered, blamed, records, left := lost, blame, r3, keep2;
    doc, keep, reverted := View(r3, t3, 0), keep2, [];
    PartIsKept(spec, r2, keep1, r3, keep2, lost);
    StillShows(spec, r2, keep1, r3, t3);
    RepeatsPass(errors, View(r2, t3, 0), doc);
    if before.Some? {
      var t4, r4, keep3, back := DropRegressing(spec, r3, t3, keep2, before.value, c);
      reverted := back;
      doc, keep := View(r4, t4, 0), keep3;
      SplitsTwice(keep1, keep2, lost, keep3, back);
      PartIsKept(spec, r3, keep2, r4, keep3, back);
      if Settles(spec, applied) {
        AllDoubledTwice(r1, r2, r3);
        AllDoubledTwice(r1, r3, r4);
        RoundShows(c, before.value, spec, r1, r3, keep2, doc);
        RoundShows(c, before.value, spec, r1, r4, keep3, doc);
        KeptIsPart(keep2, keep3, back);
        PartIsHeld(r3, keep2, keep3);
        AttemptIsHeld(spec, r3, keep3);
      }
    } else {
      assert lost + [] == lost;
      if Settles(spec, applied) {
        AllDoubledTwice(r1, r2, r3);
        PlainRoundShows(c, spec, r1, r3, keep2);
      }
    }
    SplitsTwice(landed, keep1, broken, keep, laundered + reverted);
    SplitsTwice(applied, landed, out, keep, broke + (laundered + reverted));
    if NoneLeads(r0.names) {
      SteadyFrom(r0, applied);
    }
  }

  /** The document, settled if there is a baseline, but for repeated elements. */
  ghost predicate SettledUpToRepeats(c: Checker, before: Option<seq<Finding>>, shown: Json, doc: Json) {
    exists seen :: Repeats(shown, seen) && Repeats(if before == None then seen else Settled(c, before.value, seen), doc)
  }

  lemma PlainRoundShows(c: Checker, spec: Json, r: Records, q: Records, keep: seq<Patch>)
    requires AllDoubled(r, q)
    ensures SettledUpToRepeats(c, None, Shown(spec, r, keep), Shown(spec, q, keep))
  {
    hide View, Doubled, TreeAfter, Repeats;
    DoubledSelf(TreeAfter(spec, keep));
    DoubledIsSeen(r, q, TreeAfter(spec, keep), TreeAfter(spec, keep), 0);
    RepeatsSelf(Shown(spec, q, keep));
  }

  lemma RoundShows(c: Checker, before: seq<Finding>, spec: Json, r: Records, q: Records, keep: seq<Patch>, doc: Json)
    requires AllDoubled(r, q)
    ensures Repeats(Settled(c, before, Shown(spec, q, keep)), doc) || doc == Settled(c, before, Shown(spec, q, keep)) ==>
              SettledUpToRepeats(c, Some(before), Shown(spec, r, keep), doc)
  {
    hide View, Doubled, TreeAfter, Repeats, Settled;
    DoubledSelf(TreeAfter(spec, keep));
    DoubledIsSeen(r, q, TreeAfter(spec, keep), TreeAfter(spec, keep), 0);
    RepeatsSelf(doc);
    assert Repeats(Shown(spec, r, keep), Shown(spec, q, keep));
  }

  /** The patches that were not set aside are orderly, when the round is tidy and its appends all land. */
  lemma LandedIsOrderly(spec: Json, applied: seq<Patch>, landed: seq<Patch>, out: seq<Patch>)
    requires DistinctIds(applied) && Splits(applied, landed, out)
    requires forall p :: p in applied ==> (p in out <==> p in ApplyTo(spec, applied).failed)
    ensures Settles(spec, applied) ==>
              var r := After(spec, Fresh(applied), applied).records;
              Orderly(spec, r, landed) && Orderly(spec, After(spec, r, landed).records, landed)
    ensures NoneInside(applied) ==> NoneInside(landed)
  {
    hide Settles, ApplyTo, After, Fresh, Orderly, Inside, DistinctIds, Repeats, View, NoneWithin, AllDoubled;
    forall p | p in landed
      ensures p in applied && p !in ApplyTo(spec, applied).failed
    {
      assert p !in out;
    }
    if Settles(spec, applied) {
      FirstAttemptIsOrderly(spec, applied, landed);
      SplitsKeep(applied, landed, out);
      OrderlyAttempt(spec, After(spec, Fresh(applied), applied).records, landed, landed);
    }
  }

  lemma OrderlyIsCalm(spec: Json, r: Records, patches: seq<Patch>)
    ensures Orderly(spec, r, patches) && NoneInside(patches) ==> Calm(spec, r, patches)
  {
    hide Orderly, NoneInside, Steady;
  }

  lemma PartIsKept(spec: Json, r: Records, all: seq<Patch>, q: Records, part: seq<Patch>, out: seq<Patch>)
    requires Splits(all, part, out) && Kept(spec, r, all, q)
    ensures DistinctIds(part) && Held(q, part) && q.names == r.names
    ensures Steady(r, all) ==> Steady(q, part) && q == r
    ensures Orderly(spec, r, all) ==> Orderly(spec, q, part) && AllDoubled(r, q)
    ensures Calm(spec, r, all) ==> Calm(spec, q, part) && q == r
    ensures NoneInside(all) ==> NoneInside(part)
  {
    hide Sound, Belongs, NoneLeads, Orderly, Inside, AllDoubled;
    KeptIsPart(all, part, out);
    PartIsHeld(q, all, part);
    if Orderly(spec, r, all) {
      PartIsOrderly(spec, q, all, part);
    }
  }

  lemma SteadyFrom(r: Records, applied: seq<Patch>)
    requires Held(r, applied) && HoldValues(r, applied) && NoneLeads(r.names)
    ensures Steady(r, applied)
  {
  }

  lemma SplitsTwice(all: seq<Patch>, some: seq<Patch>, out: seq<Patch>, keep: seq<Patch>, dropped: seq<Patch>)
    requires DistinctIds(all) && Splits(all, some, out) && Splits(some, keep, dropped)
    ensures Splits(all, keep, out + dropped) && DistinctIds(some) && DistinctIds(keep)
  {
  }

  method Remove(applied: seq<Patch>, failed: seq<Patch>) returns (landed: seq<Patch>, out: seq<Patch>)
    requires DistinctIds(applied)
    ensures Splits(applied, landed, out) && forall p :: p in applied ==> (p in out <==> p in failed)
    ensures landed == NotAmong(applied, failed)
  {
    hide DistinctIds, Splits, Removed;
    landed, out := [], [];
    assert Removed(applied[..0], failed, landed, out) by {
      NoneRemoved(applied, failed);
    }
    for i := 0 to |applied|
      invariant Removed(applied[..i], failed, landed, out)
    {
      OneMoreRemoved(applied, i, failed, landed, out);
      if applied[i] in failed {
        out := out + [applied[i]];
      } else {
        landed := landed + [applied[i]];
      }
    }
    assert applied[..|applied|] == applied;
    AllRemoved(applied, failed, landed, out);
  }

  ghost predicate Removed(applied: seq<Patch>, failed: seq<Patch>, landed: seq<Patch>, out: seq<Patch>) {
    && Splits(applied, landed, out) && landed == NotAmong(applied, failed)
    && (forall p :: p in out ==> p in failed) && (forall p :: p in landed ==> p !in failed)
  }

  lemma NoneRemoved(applied: seq<Patch>, failed: seq<Patch>)
    ensures Removed(applied[..0], failed, [], [])
  {
  }

  lemma AllRemoved(applied: seq<Patch>, failed: seq<Patch>, landed: seq<Patch>, out: seq<Patch>)
    requires Removed(applied, failed, landed, out)
    ensures Splits(applied, landed, out) && landed == NotAmong(applied, failed)
    ensures forall p :: p in applied ==> (p in out <==> p in failed)
  {
    hide DistinctIds, NotAmong;
  }

  lemma OneMoreRemoved(applied: seq<Patch>, i: nat, failed: seq<Patch>, landed: seq<Patch>, out: seq<Patch>)
    requires DistinctIds(applied) && i < |applied| && Removed(applied[..i], failed, landed, out)
    ensures if applied[i] in failed then Removed(applied[..i + 1], failed, landed, out + [applied[i]])
            else Removed(applied[..i + 1], failed, landed + [applied[i]], out)
  {
    var r, n := applied[i], i + 1;
    assert applied[..n] == applied[..i] + [r];
    assert applied[..n][..i] == applied[..i];
    forall p | p in applied[..i]
      ensures p.id != r.id
    {
      var k :| 0 <= k < i && applied[k] == p;
    }
    assert forall k :: 0 <= k < |landed| ==> landed[k] in applied[..i];
  }
}
