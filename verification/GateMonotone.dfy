/** The gate never gets easier: over any chain of accepted plan revisions, a port that passes the last test
    plan passes the first one on the same measurements. This joins the guard (loop/plan_revision.py), the runner
    (loop/plan_runner.py) and the gate (loop/gate.py). */
module GateMonotone {
  import opened Wrappers
  import opened Json
  import opened Gate
  import opened PlanGuard
  import opened PlanRunner

  /** The gate passes this test plan on these measurements, and nothing raised on the way. */
  ghost predicate GateOk(plan: Json, m: Measured, baseline: Json, search: Search) {
    var results := ResultsOf(plan, m, baseline, search);
    results.Some? && GatePasses(results.value)
  }

  /** The measurements belong to entry ids: two versions of an entry measured the same. */
  ghost predicate PerEntryId(m: Measured) {
    forall a: Json, b: Json :: Get(a, "id") == Get(b, "id") ==>
      m.on(a) == m.on(b) && m.off(a) == m.off(b) && forall on :: m.shot(a, on) == m.shot(b, on)
  }

  /** What the plan schema and the plan checks promise of a plan stage 2 wrote. */
  ghost predicate WellFormed(plan: Json) {
    && UniqueKeys(Items(plan, "correctness"), "id")
    && UniqueKeys(Items(plan, "performance"), "id")
    && (Has(plan, "baseline_rel_tol") ==> Get(plan, "baseline_rel_tol").Num?)
    && Truthy(Get(plan, "smoke"))
  }

  ghost predicate DeclaresBaselineEntry(plan: Json) {
    exists e :: e in Items(plan, "correctness") && Get(e, "kind") == BASELINE_KIND
  }

  /** Every run the entry asks for meets its condition. */
  ghost predicate IsMet(entry: Json, m: Measured, plan: Json, baseline: Json, search: Search) {
    (RunsOff(entry) ==> Meets(entry, m.shot(entry, false), plan, baseline, search)) &&
    (RunsOn(entry) ==> Meets(entry, m.shot(entry, true), plan, baseline, search))
  }

  /** The entry's metric improves, its companions keep within their bands, and no trace of it failed. */
  ghost predicate IsReached(entry: Json, m: Measured, baseline: Json) {
    var traces := TracesOf(entry, m.traceList);
    Improves(entry, traces, m.on(entry), m.off(entry), baseline) && AllCompleted(entry, traces, m.on(entry), m.off(entry))
  }

  /** When the gate passes a plan, over the measurements themselves. */
  lemma GateIff(plan: Json, m: Measured, baseline: Json, search: Search)
    ensures GateOk(plan, m, baseline, search) <==>
            && m.buildOk && ResultsOf(plan, m, baseline, search).Some? && DeclaresBaselineEntry(plan) && SmokeCompletes(plan, m)
            && (forall e :: e in Items(plan, "correctness") ==> IsMet(e, m, plan, baseline, search))
            && (forall e :: e in Items(plan, "performance") ==> IsReached(e, m, baseline))
  {
    hide Items, ResultsOf, SmokeCompletes, IsMet, IsReached, Get, JudgedRight, MeasuredRight, AllPassed, HasBaselineEntry, Clears;
    ResultsAre(plan, m, baseline, search);
    var results := ResultsOf(plan, m, baseline, search);
    if m.buildOk && results.Some? {
      AllMet(Items(plan, "correctness"), results.value.correctness, m, plan, baseline, search);
      AllReached(Items(plan, "performance"), results.value.performance, m, baseline);
    }
  }

  lemma AllMet(entries: seq<Json>, results: seq<CorrectnessResult>, m: Measured, plan: Json, baseline: Json, search: Search)
    requires |results| == |entries|
    requires forall i :: 0 <= i < |results| ==>
               JudgedRight(entries[i], m.shot(entries[i], false), m.shot(entries[i], true), plan, baseline, search, results[i])
    ensures AllPassed(results) <==> forall e :: e in entries ==> IsMet(e, m, plan, baseline, search)
    ensures HasBaselineEntry(results) <==> exists e :: e in entries && Get(e, "kind") == BASELINE_KIND
  {
    hide Meets, RunsOff, RunsOn, Get;
    forall i | 0 <= i < |results|
      ensures results[i].passed <==> IsMet(entries[i], m, plan, baseline, search)
      ensures results[i].kind == Get(entries[i], "kind")
    {
      assert JudgedRight(entries[i], m.shot(entries[i], false), m.shot(entries[i], true), plan, baseline, search, results[i]);
    }
    if HasBaselineEntry(results) {
      var i :| 0 <= i < |results| && results[i].kind == BASELINE_KIND;
      assert entries[i] in entries;
    }
    if e :| e in entries && Get(e, "kind") == BASELINE_KIND {
      var i :| 0 <= i < |entries| && entries[i] == e;
      assert results[i].kind == BASELINE_KIND;
    }
  }

  lemma AllReached(entries: seq<Json>, results: seq<PerformanceResult>, m: Measured, baseline: Json)
    requires |results| == |entries|
    requires forall i :: 0 <= i < |results| ==> MeasuredRight(entries[i], m, baseline, results[i])
    ensures (forall i :: 0 <= i < |results| ==> Clears(results[i])) <==> forall e :: e in entries ==> IsReached(e, m, baseline)
  {
    hide Improves, MissesTarget, AllCompleted, Get, TracesOf;
    forall i | 0 <= i < |results|
      ensures Clears(results[i]) <==> IsReached(entries[i], m, baseline)
    {
      assert MeasuredRight(entries[i], m, baseline, results[i]);
    }
  }

  const CORRECTNESS: Rule := TESTS_COLLECTIONS[0]
  const PERFORMANCE: Rule := TESTS_COLLECTIONS[1]

  lemma SameMeasurements(m: Measured, a: Json, b: Json)
    requires PerEntryId(m) && Get(a, "id") == Get(b, "id")
    ensures m.on(a) == m.on(b) && m.off(a) == m.off(b)
    ensures m.shot(a, true) == m.shot(b, true) && m.shot(a, false) == m.shot(b, false)
  {
  }

  /* ------------------------------------------------------------ one entry */

  lemma Frozen(before: Json, after: Json, rule: Rule, field: string)
    requires EntryKept(before, after, rule.revisable) && field !in rule.revisable
    ensures Get(before, field) == Get(after, field)
  {
    assert !Differs(before, after, field, rule.revisable);
  }

  lemma ToleranceOnlyKept(before: Json, after: Json, pc: Json, base: Json, measured: map<string, real>, key: Json)
    requires ToleranceKept(before, after) && (Has(before, "baseline_rel_tol") ==> Get(before, "baseline_rel_tol").Num?)
    requires KeyDifference(base, measured, key, ConditionTolerance(pc, after)) == None
    ensures KeyDifference(base, measured, key, ConditionTolerance(pc, before)) == None
  {
  }

  lemma ComparisonKept(before: Json, after: Json, pc: Json, base: Json, measured: map<string, real>)
    requires ToleranceKept(before, after) && (Has(before, "baseline_rel_tol") ==> Get(before, "baseline_rel_tol").Num?)
    requires Includes(Items(before, "metric_keys"), Items(after, "metric_keys"))
    requires Differences(base, measured, ConditionKeys(pc, after), ConditionTolerance(pc, after)) == []
    ensures Differences(base, measured, ConditionKeys(pc, before), ConditionTolerance(pc, before)) == []
  {
    hide KeyDifference, ToleranceKept, ConditionTolerance, Differences;
    var oldKeys, newKeys := ConditionKeys(pc, before), ConditionKeys(pc, after);
    var oldTol, newTol := ConditionTolerance(pc, before), ConditionTolerance(pc, after);
    NoDifferenceIffAgree(base, measured, newKeys, newTol);
    forall k | k in oldKeys
      ensures KeyDifference(base, measured, k, oldTol) == None
    {
      assert k in newKeys;
      ToleranceOnlyKept(before, after, pc, base, measured, k);
    }
    NoDifferenceIffAgree(base, measured, oldKeys, oldTol);
  }

  lemma AgainstBaselineKept(before: Json, after: Json, pc: Json, measured: map<string, real>, baseline: Json)
    requires ToleranceKept(before, after) && (Has(before, "baseline_rel_tol") ==> Get(before, "baseline_rel_tol").Num?)
    requires Includes(Items(before, "metric_keys"), Items(after, "metric_keys"))
    requires AgainstBaseline(pc, measured, after, baseline) == Holds
    ensures AgainstBaseline(pc, measured, before, baseline) == Holds
  {
    hide ToleranceKept, Includes, ConditionKeys, ConditionTolerance, Differences, Get, Has, Items;
    var base := JP.Resolve(baseline, JP.LenientTokens(Text(Get(pc, "baseline_pointer"))));
    ComparisonKept(before, after, pc, base, measured);
  }

  /** A condition that holds under the revised plan holds under the original: its text is frozen, the tolerance
      is frozen, and the metric keys only grow. */
  lemma ConditionKept(before: Json, after: Json, entry: Json, revised: Json, shot: Shot, baseline: Json, search: Search)
    requires EntryKept(entry, revised, CORRECTNESS.revisable)
    requires ToleranceKept(before, after) && (Has(before, "baseline_rel_tol") ==> Get(before, "baseline_rel_tol").Num?)
    requires Includes(Items(before, "metric_keys"), Items(after, "metric_keys"))
    requires EvaluateCondition(revised, shot, after, baseline, search) == Holds
    ensures EvaluateCondition(entry, shot, before, baseline, search) == Holds
  {
    hide EntryKept, ToleranceKept, Includes, AgainstBaseline, Get, Has, Items, ConditionVerdict;
    Frozen(entry, revised, CORRECTNESS, "pass_condition");
    Frozen(entry, revised, CORRECTNESS, "clean_tree_result");
    var pc := Get(entry, "pass_condition");
    if AgainstBaseline(pc, shot.metrics, after, baseline) == Holds {
      AgainstBaselineKept(before, after, pc, shot.metrics, baseline);
    }
    OnlyHoldingMatters(pc, Get(entry, "clean_tree_result"), shot, AgainstBaseline(pc, shot.metrics, after, baseline),
                       AgainstBaseline(pc, shot.metrics, before, baseline), search);
  }

  lemma OnlyHoldingMatters(pc: Json, clean: Json, shot: Shot, after: Why, before: Why, search: Search)
    requires after == Holds ==> before == Holds
    requires ConditionVerdict(pc, clean, shot, after, search) == Holds
    ensures ConditionVerdict(pc, clean, shot, before, search) == Holds
  {
    hide Get, Truthy, Seen, Compare;
  }

  lemma PassesIffAllHold(entry: Json, shot: (Json, bool) -> Shot, plan: Json, baseline: Json, search: Search)
    ensures (CorrectnessOf(entry, shot, plan, baseline, search).Some?
             && CorrectnessOf(entry, shot, plan, baseline, search).value.passed)
            <==> AllHold(entry, States(Get(entry, "feature_state")), shot, plan, baseline, search)
    ensures AllHold(entry, States(Get(entry, "feature_state")), shot, plan, baseline, search) ==>
              CorrectnessOf(entry, shot, plan, baseline, search)
              == Some(CorrectnessResult(Get(entry, "id"), Get(entry, "kind"), true))
  {
    hide WhyOf, States, Get;
  }

  ghost predicate AllHold(entry: Json, states: Option<seq<bool>>, shot: (Json, bool) -> Shot, plan: Json, baseline: Json,
                          search: Search) {
    states.Some? && forall on :: on in states.value ==> WhyOf(entry, on, shot, plan, baseline, search) == Holds
  }

  lemma CorrectnessKept(before: Json, after: Json, entry: Json, revised: Json, m: Measured, baseline: Json, search: Search)
    requires EntryKept(entry, revised, CORRECTNESS.revisable) && Get(entry, "id") == Get(revised, "id")
    requires ToleranceKept(before, after) && (Has(before, "baseline_rel_tol") ==> Get(before, "baseline_rel_tol").Num?)
    requires Includes(Items(before, "metric_keys"), Items(after, "metric_keys"))
    requires PerEntryId(m)
    requires CorrectnessOf(revised, m.shot, after, baseline, search).Some?
    requires CorrectnessOf(revised, m.shot, after, baseline, search).value.passed
    ensures CorrectnessOf(entry, m.shot, before, baseline, search) ==
            Some(CorrectnessResult(Get(entry, "id"), Get(entry, "kind"), true))
  {
    hide EvaluateCondition, EntryKept, ToleranceKept, Includes, Get, Has, Items, PerEntryId, CorrectnessOf, States;
    Frozen(entry, revised, CORRECTNESS, "feature_state");
    PassesIffAllHold(revised, m.shot, after, baseline, search);
    PassesIffAllHold(entry, m.shot, before, baseline, search);
    SameMeasurements(m, entry, revised);
    var states := States(Get(entry, "feature_state")).value;
    forall on | on in states
      ensures WhyOf(entry, on, m.shot, before, baseline, search) == Holds
    {
      assert WhyOf(revised, on, m.shot, after, baseline, search) == Holds;
      ConditionKept(before, after, entry, revised, m.shot(entry, on), baseline, search);
    }
  }

  lemma PerformanceKept(entry: Json, revised: Json, m: Measured, baseline: Json)
    requires EntryKept(entry, revised, PERFORMANCE.revisable) && Get(entry, "id") == Get(revised, "id")
    requires PerEntryId(m)
    ensures PerformanceOf(entry, m, baseline) == PerformanceOf(revised, m, baseline)
  {
    hide EntryKept, PerEntryId, RunPerformance, Get, Has;
    Frozen(entry, revised, PERFORMANCE, "metric");
    Frozen(entry, revised, PERFORMANCE, "baseline");
    Frozen(entry, revised, PERFORMANCE, "block_threshold");
    Frozen(entry, revised, PERFORMANCE, "warn_threshold");
    Frozen(entry, revised, PERFORMANCE, "direction");
    Frozen(entry, revised, PERFORMANCE, "traces");
    Frozen(entry, revised, PERFORMANCE, "trace_list");
    SameMeasurements(m, entry, revised);
    SameFieldsSameRun(entry, revised, TracesOf(entry, m.traceList), m.on(entry), m.off(entry), baseline);
  }

  lemma SamePoint(a: Json, b: Json, on: TraceOutcome, off: TraceOutcome, baseline: Json)
    requires Get(a, "baseline") == Get(b, "baseline")
    ensures ComparisonPoint(a, off, baseline) == ComparisonPoint(b, off, baseline)
    ensures Failures(a, on, off) == Failures(b, on, off)
  {
    hide Get, Has, MergeFailed, JP.Resolve, JP.LenientTokens;
  }

  lemma SameFieldsSameRun(a: Json, b: Json, traces: seq<string>, on: TraceOutcome, off: TraceOutcome, baseline: Json)
    requires Get(a, "id") == Get(b, "id") && Get(a, "metric") == Get(b, "metric")
    requires Get(a, "baseline") == Get(b, "baseline") && Get(a, "direction") == Get(b, "direction")
    requires Get(a, "block_threshold") == Get(b, "block_threshold")
    requires Get(a, "warn_threshold") == Get(b, "warn_threshold")
    ensures RunPerformance(a, traces, on, off, baseline) == RunPerformance(b, traces, on, off, baseline)
  {
    hide Get, Has, Judge, ComparisonPoint, Failures, Text;
    SamePoint(a, b, on, off, baseline);
  }

  /* ------------------------------------------------------------ smoke */

  lemma IncludesTexts(before: seq<Json>, after: seq<Json>)
    requires Includes(before, after)
    ensures forall t :: t in Texts(before) ==> t in Texts(after)
  {
    forall t | t in Texts(before)
      ensures t in Texts(after)
    {
      var i :| 0 <= i < |before| && Text(before[i]) == t;
      assert before[i] in before && before[i] in after;
      var j :| 0 <= j < |after| && after[j] == before[i];
    }
  }

  /** The smoke rule keeps G4 as strict as it was exactly when the original section lists its workloads inline,
      or the revision does not start to: a section that only named a trace-list file may be given an inline
      list, which then takes the file's place. */
  lemma SmokeKeptIff(before: Json, after: Json)
    requires SmokeKept(before, after) && Truthy(Get(before, "smoke"))
    ensures (forall m: Measured :: SmokeOk(after, m) ==> SmokeOk(before, m)) <==>
            (Items(Get(before, "smoke"), "traces") != [] || Items(Get(after, "smoke"), "traces") == [])
  {
    var b, a := Get(before, "smoke"), Get(after, "smoke");
    if Items(b, "traces") != [] || Items(a, "traces") == [] {
      forall m: Measured | SmokeOk(after, m)
        ensures SmokeOk(before, m)
      {
        SmokeStays(before, after, m);
      }
    } else {
      var m := Measured(true, (e: Json, on: bool) => Shot(ShellOutcome(0, "", false), map[]), (t: string) => true,
                        (e: Json) => TraceOutcome(true, map[], []), (e: Json) => TraceOutcome(true, map[], []),
                        (j: Json) => []);
      assert SmokeOk(after, m) && !SmokeOk(before, m);
    }
  }

  lemma SmokeStays(before: Json, after: Json, m: Measured)
    requires SmokeKept(before, after) && Truthy(Get(before, "smoke"))
    requires Items(Get(before, "smoke"), "traces") != [] || Items(Get(after, "smoke"), "traces") == []
    requires SmokeOk(after, m)
    ensures SmokeOk(before, m)
  {
    var b, a := Get(before, "smoke"), Get(after, "smoke");
    if Items(b, "traces") != [] {
      IncludesTexts(Items(b, "traces"), Items(a, "traces"));
      assert Items(b, "traces")[0] in Items(a, "traces");
    }
  }

  /* ------------------------------------------------------------ the theorem */

  /** Where a kept entry of the original plan is found in the revised one. */
  lemma Counterpart(rule: Rule, oldItems: seq<Json>, newItems: seq<Json>, i: nat) returns (j: nat)
    requires CollectionKept(rule, oldItems, newItems) && UniqueKeys(oldItems, rule.key) && i < |oldItems|
    ensures j < |newItems| && EntryKept(oldItems[i], newItems[j], rule.revisable)
    ensures Get(oldItems[i], rule.key) == Get(newItems[j], rule.key)
  {
    UniqueKeysFindsEach(oldItems, rule.key, i);
    var h := Get(oldItems[i], rule.key);
    var e := Entries(newItems, rule.key)[h];
    j :| 0 <= j < |newItems| && newItems[j] == e;
  }

  lemma CorrectnessHolds(before: Pair, after: Pair, m: Measured, baseline: Json, search: Search, i: nat)
    requires Allows(before, after) && WellFormed(before.tests) && PerEntryId(m) && m.buildOk
    requires GateOk(after.tests, m, baseline, search)
    requires i < |Items(before.tests, "correctness")|
    ensures var e := Items(before.tests, "correctness")[i];
            CorrectnessOf(e, m.shot, before.tests, baseline, search) ==
            Some(CorrectnessResult(Get(e, "id"), Get(e, "kind"), true))
  {
    hide CorrectnessOf, PerEntryId, PerformanceOf;
    var oldItems, newItems := Items(before.tests, "correctness"), Items(after.tests, "correctness");
    assert RuleKept(CORRECTNESS, before.tests, after.tests);
    var j := Counterpart(CORRECTNESS, oldItems, newItems, i);
    var results := ResultsOf(after.tests, m, baseline, search).value;
    assert CorrectnessOf(newItems[j], m.shot, after.tests, baseline, search) == Some(results.correctness[j]);
    CorrectnessKept(before.tests, after.tests, oldItems[i], newItems[j], m, baseline, search);
  }

  lemma PerformanceHolds(before: Pair, after: Pair, m: Measured, baseline: Json, search: Search, i: nat)
    requires Allows(before, after) && WellFormed(before.tests) && PerEntryId(m) && m.buildOk
    requires GateOk(after.tests, m, baseline, search)
    requires i < |Items(before.tests, "performance")|
    ensures var r := PerformanceOf(Items(before.tests, "performance")[i], m, baseline);
            r.Some? && Clears(r.value)
  {
    hide CorrectnessOf, PerEntryId, PerformanceOf;
    var oldItems, newItems := Items(before.tests, "performance"), Items(after.tests, "performance");
    assert RuleKept(PERFORMANCE, before.tests, after.tests);
    var j := Counterpart(PERFORMANCE, oldItems, newItems, i);
    PerformanceKept(oldItems[i], newItems[j], m, baseline);
    var results := ResultsOf(after.tests, m, baseline, search).value;
    assert PerformanceOf(newItems[j], m, baseline) == Some(results.performance[j]);
  }

  /** One accepted revision. If the gate passes the revised test plan, the original plan passes on the same
      measurements exactly when it declares a feature-off baseline entry and its own smoke workloads complete. */
  lemma GateOnlyTightens(before: Pair, after: Pair, m: Measured, baseline: Json, search: Search)
    requires Allows(before, after) && WellFormed(before.tests) && PerEntryId(m)
    requires GateOk(after.tests, m, baseline, search)
    ensures GateOk(before.tests, m, baseline, search) <==>
            DeclaresBaselineEntry(before.tests) && SmokeOk(before.tests, m)
  {
    hide Allows, WellFormed, PerEntryId, CorrectnessOf, PerformanceOf, SmokeOk, Items, Clears, GateOk;
    assert m.buildOk by { GateNeedsBuild(after.tests, m, baseline, search); }
    var c, p := Items(before.tests, "correctness"), Items(before.tests, "performance");
    forall i | 0 <= i < |c|
      ensures CorrectnessOf(c[i], m.shot, before.tests, baseline, search) == Some(PassOf(c[i]))
    {
      CorrectnessHolds(before, after, m, baseline, search, i);
    }
    forall i | 0 <= i < |p|
      ensures PerformanceOf(p[i], m, baseline).Some? && Clears(PerformanceOf(p[i], m, baseline).value)
    {
      PerformanceHolds(before, after, m, baseline, search, i);
    }
    AllPassing(before.tests, m, baseline, search);
  }

  lemma GateNeedsBuild(plan: Json, m: Measured, baseline: Json, search: Search)
    requires GateOk(plan, m, baseline, search)
    ensures m.buildOk
  {
    hide CorrectnessAll, PerformanceAll;
  }

  function PassOf(entry: Json): CorrectnessResult {
    CorrectnessResult(Get(entry, "id"), Get(entry, "kind"), true)
  }

  /** When every entry passes, only the baseline entry and the smoke section are left to decide. */
  lemma AllPassing(plan: Json, m: Measured, baseline: Json, search: Search)
    requires m.buildOk
    requires forall i :: 0 <= i < |Items(plan, "correctness")| ==>
               CorrectnessOf(Items(plan, "correctness")[i], m.shot, plan, baseline, search)
               == Some(PassOf(Items(plan, "correctness")[i]))
    requires forall i :: 0 <= i < |Items(plan, "performance")| ==>
               PerformanceOf(Items(plan, "performance")[i], m, baseline).Some?
               && Clears(PerformanceOf(Items(plan, "performance")[i], m, baseline).value)
    ensures GateOk(plan, m, baseline, search) <==> DeclaresBaselineEntry(plan) && SmokeOk(plan, m)
  {
    hide CorrectnessAll, PerformanceAll, CorrectnessOf, PerformanceOf, SmokeOk, Items, Clears, Get, HasBaselineEntry, AllPassed;
    CorrectnessPasses(Items(plan, "correctness"), m.shot, plan, baseline, search);
    PerformancePasses(Items(plan, "performance"), m, baseline);
  }

  lemma PerformancePasses(entries: seq<Json>, m: Measured, baseline: Json)
    requires forall i :: 0 <= i < |entries| ==>
               PerformanceOf(entries[i], m, baseline).Some? && Clears(PerformanceOf(entries[i], m, baseline).value)
    ensures PerformanceAll(entries, m, baseline).Some?
    ensures forall i :: 0 <= i < |entries| ==> Clears(PerformanceAll(entries, m, baseline).value[i])
  {
    hide PerformanceOf, Clears;
  }

  lemma CorrectnessPasses(entries: seq<Json>, shot: (Json, bool) -> Shot, plan: Json, baseline: Json, search: Search)
    requires forall i :: 0 <= i < |entries| ==>
               CorrectnessOf(entries[i], shot, plan, baseline, search) == Some(PassOf(entries[i]))
    ensures CorrectnessAll(entries, shot, plan, baseline, search).Some?
    ensures var r := CorrectnessAll(entries, shot, plan, baseline, search).value;
            AllPassed(r) && (HasBaselineEntry(r) <==> exists e :: e in entries && Get(e, "kind") == BASELINE_KIND)
  {
    hide CorrectnessOf, Get;
    assert CorrectnessAll(entries, shot, plan, baseline, search).Some?;
    var r := CorrectnessAll(entries, shot, plan, baseline, search).value;
    assert forall i :: 0 <= i < |entries| ==> r[i] == PassOf(entries[i]);
    if e :| e in entries && Get(e, "kind") == BASELINE_KIND {
      var i :| 0 <= i < |entries| && entries[i] == e;
      assert r[i].kind == BASELINE_KIND;
    }
    if HasBaselineEntry(r) {
      var i :| 0 <= i < |r| && r[i].kind == BASELINE_KIND;
      assert entries[i] in entries;
    }
  }

  /** Any number of accepted revisions: whatever passes the last test plan passes the first one. */
  lemma ChainNeverLoosens(pairs: seq<Pair>, m: Measured, baseline: Json, search: Search)
    requires pairs != [] && Chain(pairs)
    requires WellFormed(pairs[0].tests) && PerEntryId(m)
    requires DeclaresBaselineEntry(pairs[0].tests) && Items(Get(pairs[0].tests, "smoke"), "traces") != []
    requires GateOk(pairs[|pairs| - 1].tests, m, baseline, search)
    ensures GateOk(pairs[0].tests, m, baseline, search)
  {
    hide GatePasses;
    ChainAllows(pairs);
    var first, last := pairs[0], pairs[|pairs| - 1];
    PassesSmoke(last.tests, m, baseline, search);
    SmokeStays(first.tests, last.tests, m);
    GateOnlyTightens(first, last, m, baseline, search);
  }

  lemma PassesSmoke(plan: Json, m: Measured, baseline: Json, search: Search)
    requires GateOk(plan, m, baseline, search)
    ensures SmokeOk(plan, m)
  {
  }

  /* ------------------------------------------------------------ what the guard lets through */

  /** Every accepted version of a collection still has an entry that is this one in all but its revisable fields. */
  ghost predicate Protected(rule: Rule, items: seq<Json>, i: nat)
    requires i < |items|
  {
    forall revised: seq<Json> :: CollectionKept(rule, items, revised) ==>
                                   exists e :: e in revised && EntryKept(items[i], e, rule.revisable)
  }

  /** The rules never let an entry's own key be revised. */
  lemma KeysAreFrozen(rule: Rule)
    requires rule in PORT_COLLECTIONS || rule in TESTS_COLLECTIONS
    ensures rule.key !in rule.revisable
  {
  }

  /** An entry is protected exactly when it has a key and agrees, in every frozen field, with the first entry under it. */
  lemma ProtectedIff(rule: Rule, items: seq<Json>, i: nat)
    requires rule.key !in rule.revisable && i < |items|
    ensures Protected(rule, items, i) <==>
            Get(items[i], rule.key) != Null &&
            EntryKept(Entries(items, rule.key)[Get(items[i], rule.key)], items[i], rule.revisable)
  {
    hide EntryKept, Entries;
    var h := Get(items[i], rule.key);
    if h != Null && EntryKept(Entries(items, rule.key)[h], items[i], rule.revisable) {
      forall revised: seq<Json> | CollectionKept(rule, items, revised)
        ensures exists e :: e in revised && EntryKept(items[i], e, rule.revisable)
      {
        var e := Entries(revised, rule.key)[h];
        KeptAlike(Entries(items, rule.key)[h], items[i], e, rule.revisable);
        assert e in revised;
      }
    } else {
      var revised := Without(rule, items, items[i]);
      WithoutKeepsFirsts(rule, items, items[i]);
      FirstsAreKept(rule, items, revised);
      assert CollectionKept(rule, items, revised);
    }
  }

  lemma KeptAlike(first: Json, entry: Json, revised: Json, revisable: set<string>)
    requires EntryKept(first, entry, revisable) && EntryKept(first, revised, revisable)
    ensures EntryKept(entry, revised, revisable)
  {
    forall field: string
      ensures !Differs(entry, revised, field, revisable)
    {
      assert !Differs(first, entry, field, revisable) && !Differs(first, revised, field, revisable);
    }
  }

  /** The collection without the entries that would keep this one. */
  ghost function Without(rule: Rule, items: seq<Json>, entry: Json): (out: seq<Json>)
    ensures forall e :: e in out ==> e in items && !EntryKept(entry, e, rule.revisable)
  {
    if items == [] then []
    else
      var last := items[|items| - 1];
      var front := Without(rule, items[..|items| - 1], entry);
      if EntryKept(entry, last, rule.revisable) then front else front + [last]
  }

  lemma EntriesOneMore(items: seq<Json>, e: Json, key: string)
    ensures var front := Entries(items, key);
            var h := Get(e, key);
            Entries(items + [e], key) == if h == Null || h in front then front else front[h := e]
  {
    hide Get;
    assert (items + [e])[..|items|] == items;
  }

  /** If no first entry would keep this one, dropping those that would leaves every first entry where it was. */
  lemma {:induction false} WithoutKeepsFirsts(rule: Rule, items: seq<Json>, entry: Json)
    requires rule.key !in rule.revisable
    requires var h := Get(entry, rule.key);
             h != Null && h in Entries(items, rule.key) ==> !EntryKept(Entries(items, rule.key)[h], entry, rule.revisable)
    ensures Entries(Without(rule, items, entry), rule.key) == Entries(items, rule.key)
  {
    hide EntryKept, Entries, Get;
    if items == [] {
      assert Without(rule, items, entry) == items;
    } else {
      var last, front := items[|items| - 1], items[..|items| - 1];
      assert items == front + [last];
      EntriesOneMore(front, last, rule.key);
      WithoutKeepsFirsts(rule, front, entry);
      if EntryKept(entry, last, rule.revisable) {
        KeptSharesKey(entry, last, rule);
      } else {
        EntriesOneMore(Without(rule, front, entry), last, rule.key);
      }
    }
  }

  lemma KeptSharesKey(a: Json, b: Json, rule: Rule)
    requires rule.key !in rule.revisable && EntryKept(a, b, rule.revisable)
    ensures Get(a, rule.key) == Get(b, rule.key) && EntryKept(b, a, rule.revisable)
  {
    assert !Differs(a, b, rule.key, rule.revisable);
    forall field: string
      ensures !Differs(b, a, field, rule.revisable)
    {
      assert !Differs(a, b, field, rule.revisable);
    }
  }

  lemma FirstsAreKept(rule: Rule, items: seq<Json>, revised: seq<Json>)
    requires Entries(revised, rule.key) == Entries(items, rule.key)
    ensures CollectionKept(rule, items, revised)
  {
  }

  /** Under unique keys every entry is protected. */
  lemma UniqueKeysProtect(rule: Rule, items: seq<Json>, i: nat)
    requires rule.key !in rule.revisable && UniqueKeys(items, rule.key) && i < |items|
    ensures Protected(rule, items, i)
  {
    hide Protected;
    UniqueKeysFindsEach(items, rule.key, i);
    ProtectedIff(rule, items, i);
  }

  /** Two entries under one id: the comparer looks at the first only, so the second can go. */
  lemma DuplicateIdGoesUnseen(rule: Rule, a: Json, b: Json)
    requires Get(a, rule.key) == Get(b, rule.key) != Null
    ensures CollectionKept(rule, [a, b], [a])
  {
    assert [a, b][..1] == [a] && [a][..0] == [];
    assert Entries([a], rule.key) == map[Get(a, rule.key) := a];
    assert Entries([a, b], rule.key) == Entries([a], rule.key);
  }
}
