/** The deterministic verify gate (loop/gate.py): it judges one integration attempt from what was measured and
    holds no metric, tolerance or threshold of its own. */
module Gate {
  import opened Wrappers
  import opened Json

  function Abs(x: real): (r: real)
    ensures r >= 0.0 && (r == x || r == -x)
  {
    if x < 0.0 then -x else x
  }

  /* ------------------------------------------------------------ the comparator */

  /** Why one metric differs from its baseline. Raises marks a comparison Python refuses: a baseline that
      is not a number, or a tolerance that is none. */
  datatype Difference = Missing(key: Json) | OffZero(key: Json) | Beyond(key: Json) | Raises(key: Json)

  function Seen(measured: map<string, real>, key: Json): Option<real> {
    if key.Str? && key.s in measured then Some(measured[key.s]) else None
  }

  function Recorded(baseline: Json, key: Json): Json {
    if key.Str? then Get(baseline, key.s) else Null
  }

  function KeyDifference(baseline: Json, measured: map<string, real>, key: Json, tol: Option<real>): Option<Difference> {
    var base, seen := Recorded(baseline, key), Seen(measured, key);
    if base == Null || seen == None then Some(Missing(key))
    else if !base.Num? then Some(Raises(key))
    else if base.n == 0.0 then (if seen.value != 0.0 then Some(OffZero(key)) else None)
    else if tol == None then Some(Raises(key))
    else if Abs(seen.value - base.n) / Abs(base.n) > tol.value then Some(Beyond(key))
    else None
  }

  /** `metric_differences`, one difference per declared key that disagrees, in the order declared. */
  function Differences(baseline: Json, measured: map<string, real>, keys: seq<Json>, tol: Option<real>): seq<Difference> {
    if keys == [] then []
    else
      var last := |keys| - 1;
      var d := KeyDifference(baseline, measured, keys[last], tol);
      Differences(baseline, measured, keys[..last], tol) + (if d == None then [] else [d.value])
  }

  method MetricDifferences(baseline: Json, measured: map<string, real>, keys: seq<Json>, tol: Option<real>)
    returns (out: seq<Difference>)
    ensures out == Differences(baseline, measured, keys, tol)
  {
    out := [];
    for i := 0 to |keys|
      invariant out == Differences(baseline, measured, keys[..i], tol)
    {
      assert keys[..i + 1][..i] == keys[..i];
      var d := KeyDifference(baseline, measured, keys[i], tol);
      if d != None {
        out := out + [d.value];
      }
    }
    assert keys[..|keys|] == keys;
  }

  /** A metric agrees when both sides carry it and the distance is within the tolerance times the baseline's
      magnitude; the comparator's separate case for a zero baseline is the same condition. */
  ghost predicate Agrees(baseline: Json, measured: map<string, real>, key: Json, tol: real) {
    var base, seen := Recorded(baseline, key), Seen(measured, key);
    base.Num? && seen.Some? && Abs(seen.value - base.n) <= tol * Abs(base.n)
  }

  lemma Scale(x: real, y: real, b: real)
    requires b > 0.0 && x > y
    ensures x * b > y * b
  {
    assert (x - y) * b > 0.0;
  }

  lemma QuotientAbove(d: real, b: real, bound: real)
    requires b > 0.0
    ensures d / b > bound <==> d > bound * b
  {
    var q := d / b;
    assert q * b == d;
    if q > bound {
      Scale(q, bound, b);
    } else if q < bound {
      Scale(bound, q, b);
    }
  }

  lemma KeyAgrees(baseline: Json, measured: map<string, real>, key: Json, tol: real)
    ensures KeyDifference(baseline, measured, key, Some(tol)) == None <==> Agrees(baseline, measured, key, tol)
  {
    var base, seen := Recorded(baseline, key), Seen(measured, key);
    if base.Num? && seen.Some? && base.n != 0.0 {
      QuotientAbove(Abs(seen.value - base.n), Abs(base.n), tol);
    }
  }

  /** No difference is reported exactly when every declared key agrees. */
  lemma {:induction false} NoDifferenceIffAgree(baseline: Json, measured: map<string, real>, keys: seq<Json>, tol: Option<real>)
    ensures Differences(baseline, measured, keys, tol) == [] <==>
            forall k :: k in keys ==> KeyDifference(baseline, measured, k, tol) == None
  {
    if keys != [] {
      var last := |keys| - 1;
      NoDifferenceIffAgree(baseline, measured, keys[..last], tol);
      assert keys == keys[..last] + [keys[last]];
    }
  }

  /* ------------------------------------------------------------ the verdict */

  datatype CorrectnessResult = CorrectnessResult(id: Json, kind: Json, passed: bool)

  datatype PerformanceResult = PerformanceResult(id: Json, blockPassed: bool, failedTraces: seq<string>, warned: bool)

  datatype TestPlanResults = TestPlanResults(
    buildOk: bool,
    correctness: seq<CorrectnessResult>,
    smokeOk: bool,
    performance: seq<PerformanceResult>)

  datatype Reason =
    | G1BuildFailed
    | G2NoBaselineEntry
    | G2(id: Json)
    | G3(id: Json)
    | G4Smoke
    | G5Incomplete(id: Json)
    | G5Blocked(id: Json)

  datatype GateResult = GateResult(passed: bool, reasons: seq<Reason>, warnings: seq<Json>)

  const BASELINE_KIND: Json := Str("feature_off_baseline")

  ghost predicate HasBaselineEntry(correctness: seq<CorrectnessResult>) {
    exists i :: 0 <= i < |correctness| && correctness[i].kind == BASELINE_KIND
  }

  ghost predicate AllPassed(correctness: seq<CorrectnessResult>) {
    forall i :: 0 <= i < |correctness| ==> correctness[i].passed
  }

  predicate Clears(r: PerformanceResult) {
    r.failedTraces == [] && r.blockPassed
  }

  /** G1 to G5, as one condition on what was measured. */
  ghost predicate GatePasses(results: TestPlanResults) {
    && results.buildOk
    && HasBaselineEntry(results.correctness)
    && AllPassed(results.correctness)
    && results.smokeOk
    && forall i :: 0 <= i < |results.performance| ==> Clears(results.performance[i])
  }

  function ReasonFor(r: CorrectnessResult): Reason {
    if r.kind == BASELINE_KIND then G2(r.id) else G3(r.id)
  }

  function PerformanceReason(r: PerformanceResult): Reason {
    if r.failedTraces != [] then G5Incomplete(r.id) else G5Blocked(r.id)
  }

  /** The failed entries of one family, in order. */
  function FailedOf(correctness: seq<CorrectnessResult>, baseline: bool): seq<Reason> {
    if correctness == [] then []
    else
      var last := correctness[|correctness| - 1];
      FailedOf(correctness[..|correctness| - 1], baseline)
      + (if !last.passed && (last.kind == BASELINE_KIND) == baseline then [ReasonFor(last)] else [])
  }

  function UnclearedOf(performance: seq<PerformanceResult>): seq<Reason> {
    if performance == [] then []
    else
      var last := performance[|performance| - 1];
      UnclearedOf(performance[..|performance| - 1]) + (if Clears(last) then [] else [PerformanceReason(last)])
  }

  function WarnedOf(performance: seq<PerformanceResult>): seq<Json> {
    if performance == [] then []
    else
      var last := performance[|performance| - 1];
      WarnedOf(performance[..|performance| - 1]) + (if last.warned then [last.id] else [])
  }

  /** Every reason a build that works is refused for, rule by rule and within a rule entry by entry. */
  ghost function ReasonsOf(results: TestPlanResults): seq<Reason> {
    (if HasBaselineEntry(results.correctness) then [] else [G2NoBaselineEntry])
    + FailedOf(results.correctness, true) + FailedOf(results.correctness, false)
    + (if results.smokeOk then [] else [G4Smoke]) + UnclearedOf(results.performance)
  }

  lemma OneMoreResult(correctness: seq<CorrectnessResult>, performance: seq<PerformanceResult>, i: nat)
    ensures i < |correctness| ==>
              forall baseline: bool ::
                FailedOf(correctness[..i + 1], baseline) ==
                FailedOf(correctness[..i], baseline)
                + (if !correctness[i].passed && (correctness[i].kind == BASELINE_KIND) == baseline then [ReasonFor(correctness[i])] else [])
    ensures i < |performance| ==>
              && UnclearedOf(performance[..i + 1]) ==
                 UnclearedOf(performance[..i]) + (if Clears(performance[i]) then [] else [PerformanceReason(performance[i])])
              && WarnedOf(performance[..i + 1]) == WarnedOf(performance[..i]) + (if performance[i].warned then [performance[i].id] else [])
  {
    if i < |correctness| {
      assert correctness[..i + 1][..i] == correctness[..i];
    }
    if i < |performance| {
      assert performance[..i + 1][..i] == performance[..i];
    }
  }

  /** `check_gate`. It passes exactly on G1 to G5, every failing entry is named in the reasons, and a warning
      never blocks. */
  method CheckGate(results: TestPlanResults) returns (gate: GateResult)
    ensures gate.passed <==> GatePasses(results)
    ensures gate.passed <==> gate.reasons == []
    ensures !results.buildOk ==> gate.reasons == [G1BuildFailed] && gate.warnings == []
    ensures results.buildOk ==> gate.reasons == ReasonsOf(results) && gate.warnings == WarnedOf(results.performance)
    ensures results.buildOk ==> forall r :: r in results.correctness && !r.passed ==> ReasonFor(r) in gate.reasons
    ensures results.buildOk ==>
              forall r :: r in results.performance && !Clears(r) ==> PerformanceReason(r) in gate.reasons
    ensures results.buildOk ==>
              forall id :: id in gate.warnings <==> exists r :: r in results.performance && r.warned && r.id == id
  {
    hide FailedOf, UnclearedOf, WarnedOf, GatePasses, HasBaselineEntry;
    if !results.buildOk {
      BuildFails(results);
      return GateResult(false, [G1BuildFailed], []);
    }
    var reasons: seq<Reason> := [];
    var warnings: seq<Json> := [];
    var entries := BaselineEntries(results.correctness);
    if entries == [] {
      reasons := [G2NoBaselineEntry];
    }
    var c := results.correctness;
    ghost var start := reasons;
    NoResults();
    assert c[..0] == [];
    for i := 0 to |c|
      invariant reasons == start + FailedOf(c[..i], true)
    {
      OneMoreResult(c, [], i);
      if c[i].kind == BASELINE_KIND && !c[i].passed {
        reasons := reasons + [G2(c[i].id)];
      }
    }
    assert c[..|c|] == c;
    start := reasons;
    for i := 0 to |c|
      invariant reasons == start + FailedOf(c[..i], false)
    {
      OneMoreResult(c, [], i);
      if c[i].kind != BASELINE_KIND && !c[i].passed {
        reasons := reasons + [G3(c[i].id)];
      }
    }
    if !results.smokeOk {
      reasons := reasons + [G4Smoke];
    }
    var p := results.performance;
    start := reasons;
    assert p[..0] == [];
    for i := 0 to |p|
      invariant reasons == start + UnclearedOf(p[..i]) && warnings == WarnedOf(p[..i])
    {
      OneMoreResult([], p, i);
      if p[i].failedTraces != [] {
        reasons := reasons + [G5Incomplete(p[i].id)];
      } else if !p[i].blockPassed {
        reasons := reasons + [G5Blocked(p[i].id)];
      }
      if p[i].warned {
        warnings := warnings + [p[i].id];
      }
    }
    assert p[..|p|] == p;
    ReasonsAre(results);
    gate := GateResult(reasons == [], reasons, warnings);
  }

  lemma BuildFails(results: TestPlanResults)
    ensures !results.buildOk ==> !GatePasses(results)
  {
  }

  lemma {:induction false} FailedAre(correctness: seq<CorrectnessResult>, baseline: bool)
    ensures FailedOf(correctness, baseline) == [] <==>
            forall i :: 0 <= i < |correctness| && (correctness[i].kind == BASELINE_KIND) == baseline ==> correctness[i].passed
    ensures forall r :: r in correctness && !r.passed && (r.kind == BASELINE_KIND) == baseline ==> ReasonFor(r) in FailedOf(correctness, baseline)
  {
    hide ReasonFor;
    if correctness != [] {
      FailedAre(correctness[..|correctness| - 1], baseline);
    }
  }

  lemma {:induction false} UnclearedAre(performance: seq<PerformanceResult>)
    ensures UnclearedOf(performance) == [] <==> forall i :: 0 <= i < |performance| ==> Clears(performance[i])
    ensures forall r :: r in performance && !Clears(r) ==> PerformanceReason(r) in UnclearedOf(performance)
    ensures forall id :: id in WarnedOf(performance) <==> exists r :: r in performance && r.warned && r.id == id
  {
    hide Clears, PerformanceReason;
    if performance != [] {
      var last := |performance| - 1;
      UnclearedAre(performance[..last]);
      forall id
        ensures id in WarnedOf(performance) <==> exists r :: r in performance && r.warned && r.id == id
      {
        assert forall r :: r in performance <==> r in performance[..last] || r == performance[last];
      }
    }
  }

  /** There is no reason exactly when the gate passes, and every failing entry is among the reasons. */
  lemma ReasonsAre(results: TestPlanResults)
    ensures results.buildOk ==> (ReasonsOf(results) == [] <==> GatePasses(results))
    ensures forall r :: r in results.correctness && !r.passed ==> ReasonFor(r) in ReasonsOf(results)
    ensures forall r :: r in results.performance && !Clears(r) ==> PerformanceReason(r) in ReasonsOf(results)
    ensures forall id :: id in WarnedOf(results.performance) <==> exists r :: r in results.performance && r.warned && r.id == id
  {
    hide ReasonFor, PerformanceReason, Clears, FailedOf, UnclearedOf, WarnedOf, HasBaselineEntry;
    FailedAre(results.correctness, true);
    FailedAre(results.correctness, false);
    UnclearedAre(results.performance);
    assert (forall i :: 0 <= i < |results.correctness| && results.correctness[i].kind == BASELINE_KIND ==> results.correctness[i].passed) &&
           (forall i :: 0 <= i < |results.correctness| && results.correctness[i].kind != BASELINE_KIND ==> results.correctness[i].passed)
           <==> AllPassed(results.correctness);
  }

  lemma NoResults()
    ensures forall baseline: bool :: FailedOf([], baseline) == []
    ensures UnclearedOf([]) == [] && WarnedOf([]) == []
  {
  }

  function BaselineEntries(correctness: seq<CorrectnessResult>): (out: seq<CorrectnessResult>)
    ensures out != [] <==> HasBaselineEntry(correctness)
  {
    if correctness == [] then []
    else
      assert correctness == [correctness[0]] + correctness[1..];
      (if correctness[0].kind == BASELINE_KIND then [correctness[0]] else []) + BaselineEntries(correctness[1..])
  }
}
