/** Executing a test plan and turning each declared condition into a verdict (loop/plan_runner.py). What the
    host does is a parameter: shell runs, trace runs and trace-list files are functions. None as a result
    stands for an exception that escapes the runner. */
module PlanRunner {
  import opened Wrappers
  import opened Json
  import opened Gate
  import JP = JsonPointer
  import PlanGuard

  datatype ShellOutcome = ShellOutcome(exitCode: int, output: string, timedOut: bool)

  /** One shell run together with the metrics parsed out of its output. */
  datatype Shot = Shot(outcome: ShellOutcome, metrics: map<string, real>)

  datatype TraceOutcome = TraceOutcome(ok: bool, metrics: map<string, real>, failed: seq<string>)

  /** `re.search`: the text a pattern captures, if it matches. */
  type Search = (string, string) -> Option<string>

  /* ------------------------------------------------------------ conditions */

  datatype Why =
    | Holds
    | TimedOut
    | BadExit
    | NoMatch
    | ForbiddenMatch
    | SummaryDiffers
    | NoBaseline
    | MetricsDiffer
    | NoMetric
    | ThresholdMissed
    | UnknownKind
    | Raised

  function Compare(comparison: Json, a: real, b: real): Option<bool> {
    if comparison == Str("<") then Some(a < b)
    else if comparison == Str("<=") then Some(a <= b)
    else if comparison == Str(">") then Some(a > b)
    else if comparison == Str(">=") then Some(a >= b)
    else if comparison == Str("==") then Some(a == b)
    else None
  }

  function Text(j: Json): string {
    if j.Str? then j.s else ""
  }

  /** `pc.get("metrics") or test_plan.get("metric_keys") or []`. */
  function ConditionKeys(pc: Json, plan: Json): seq<Json> {
    var own := Items(pc, "metrics");
    if own != [] then own else Items(plan, "metric_keys")
  }

  /** The entry's own tolerance when it has one, else the plan's, else 0. */
  function ConditionTolerance(pc: Json, plan: Json): Option<real> {
    var t := if Has(pc, "rel_tol") then Get(pc, "rel_tol")
             else if Has(plan, "baseline_rel_tol") then Get(plan, "baseline_rel_tol") else Num(0.0);
    if t.Num? then Some(t.n) else None
  }

  function AgainstBaseline(pc: Json, measured: map<string, real>, plan: Json, baseline: Json): Why {
    var base := JP.Resolve(baseline, JP.LenientTokens(Text(Get(pc, "baseline_pointer"))));
    if !base.Obj? then NoBaseline
    else if Differences(base, measured, ConditionKeys(pc, plan), ConditionTolerance(pc, plan)) == [] then Holds
    else MetricsDiffer
  }

  /** The verdict on a condition, given how the comparison with the baseline came out. */
  function ConditionVerdict(pc: Json, clean: Json, shot: Shot, against: Why, search: Search): Why {
    var kind := Get(pc, "kind");
    var outcome := shot.outcome;
    if outcome.timedOut then TimedOut
    else if kind == Str("exit_zero") then (if outcome.exitCode == 0 then Holds else BadExit)
    else if kind == Str("stdout_matches") || kind == Str("stdout_excludes") then
      if !Truthy(Get(pc, "allow_nonzero_exit")) && outcome.exitCode != 0 then BadExit
      else if !Get(pc, "pattern").Str? then Raised
      else
        var hit := search(Get(pc, "pattern").s, outcome.output);
        if kind == Str("stdout_matches") && hit == None then NoMatch
        else if kind == Str("stdout_excludes") && hit != None then ForbiddenMatch
        else Holds
    else if kind == Str("matches_clean_tree") then
      if Num(outcome.exitCode as real) != Get(clean, "exit_code") then BadExit
      else if !Truthy(Get(pc, "pattern")) then Holds
      else
        var hit := search(Text(Get(pc, "pattern")), outcome.output);
        if hit == None then NoMatch
        else if Str(hit.value) != Get(clean, "summary") then SummaryDiffers
        else Holds
    else if kind == Str("metrics_equal_baseline") then against
    else if kind == Str("metric_threshold") then
      var name, value := Get(pc, "metric"), Get(pc, "value");
      if Seen(shot.metrics, name) == None then NoMetric
      else if !value.Num? then Raised
      else match Compare(Get(pc, "comparison"), Seen(shot.metrics, name).value, value.n)
           case None => Raised
           case Some(holds) => if holds then Holds else ThresholdMissed
    else UnknownKind
  }

  function EvaluateCondition(entry: Json, shot: Shot, plan: Json, baseline: Json, search: Search): Why {
    var pc := Get(entry, "pass_condition");
    ConditionVerdict(pc, Get(entry, "clean_tree_result"), shot, AgainstBaseline(pc, shot.metrics, plan, baseline), search)
  }

  /* ------------------------------------------------------------ what the conditions mean */

  predicate Allowed(pc: Json, outcome: ShellOutcome) {
    outcome.exitCode == 0 || Truthy(Get(pc, "allow_nonzero_exit"))
  }

  /** The output has a match of the condition's pattern. */
  ghost predicate Finds(pc: Json, outcome: ShellOutcome, search: Search) {
    Get(pc, "pattern").Str? && search(Get(pc, "pattern").s, outcome.output).Some?
  }

  ghost predicate FindsNone(pc: Json, outcome: ShellOutcome, search: Search) {
    Get(pc, "pattern").Str? && search(Get(pc, "pattern").s, outcome.output).None?
  }

  /** The exit code and, when a pattern asks for it, the captured summary are the clean tree's. */
  ghost predicate LikeCleanTree(pc: Json, clean: Json, outcome: ShellOutcome, search: Search) {
    && Get(clean, "exit_code") == Num(outcome.exitCode as real)
    && (Truthy(Get(pc, "pattern")) ==>
          exists seen :: search(Text(Get(pc, "pattern")), outcome.output) == Some(seen) && Get(clean, "summary") == Str(seen))
  }

  ghost predicate MeetsThreshold(pc: Json, metrics: map<string, real>) {
    exists name, bound ::
      && Get(pc, "metric") == Str(name) && name in metrics && Get(pc, "value") == Num(bound)
      && ((Get(pc, "comparison") == Str("<") && metrics[name] < bound)
          || (Get(pc, "comparison") == Str("<=") && (metrics[name] < bound || metrics[name] == bound))
          || (Get(pc, "comparison") == Str("==") && metrics[name] == bound)
          || (Get(pc, "comparison") == Str(">=") && (bound < metrics[name] || metrics[name] == bound))
          || (Get(pc, "comparison") == Str(">") && bound < metrics[name]))
  }

  /** The measured metric is within the tolerance of the recorded one. With no numeric tolerance only a zero can be
      compared. */
  ghost predicate NearRecorded(recorded: map<string, Json>, metrics: map<string, real>, key: Json, tolerance: Json) {
    exists name, base ::
      && key == Str(name) && name in recorded && recorded[name] == Num(base) && name in metrics
      && (if base == 0.0 then metrics[name] == 0.0
          else exists tol :: tolerance == Num(tol) && Abs(metrics[name] - base) <= tol * Abs(base))
  }

  /** The tolerance of the condition itself, or else the plan's. */
  function Tolerance(pc: Json, plan: Json): Json {
    if Has(pc, "rel_tol") then Get(pc, "rel_tol")
    else if Has(plan, "baseline_rel_tol") then Get(plan, "baseline_rel_tol")
    else Num(0.0)
  }

  ghost predicate Compared(pc: Json, plan: Json, key: Json) {
    key in Items(pc, "metrics") || (Items(pc, "metrics") == [] && key in Items(plan, "metric_keys"))
  }

  /** Every metric the condition names, or else the plan does, is near the one recorded under its pointer. */
  ghost predicate LikeBaseline(pc: Json, metrics: map<string, real>, plan: Json, baseline: Json) {
    var base := JP.Resolve(baseline, JP.LenientTokens(Text(Get(pc, "baseline_pointer"))));
    base.Obj? && AllNear(pc, plan, base.fields, metrics)
  }

  ghost predicate AllNear(pc: Json, plan: Json, recorded: map<string, Json>, metrics: map<string, real>) {
    forall key :: Compared(pc, plan, key) ==> NearRecorded(recorded, metrics, key, Tolerance(pc, plan))
  }

  /** When a run meets an entry's condition, by what the run left and the entry's own fields. */
  ghost predicate Meets(entry: Json, shot: Shot, plan: Json, baseline: Json, search: Search) {
    var pc := Get(entry, "pass_condition");
    !shot.outcome.timedOut &&
    ((Get(pc, "kind") == Str("exit_zero") && shot.outcome.exitCode == 0)
     || (Get(pc, "kind") == Str("stdout_matches") && Allowed(pc, shot.outcome) && Finds(pc, shot.outcome, search))
     || (Get(pc, "kind") == Str("stdout_excludes") && Allowed(pc, shot.outcome) && FindsNone(pc, shot.outcome, search))
     || (Get(pc, "kind") == Str("matches_clean_tree") && LikeCleanTree(pc, Get(entry, "clean_tree_result"), shot.outcome, search))
     || (Get(pc, "kind") == Str("metric_threshold") && MeetsThreshold(pc, shot.metrics))
     || (Get(pc, "kind") == Str("metrics_equal_baseline") && LikeBaseline(pc, shot.metrics, plan, baseline)))
  }

  /** When judging it raises: a pattern that is no text, or a threshold that cannot be compared. */
  ghost predicate CannotJudge(entry: Json, shot: Shot) {
    var pc := Get(entry, "pass_condition");
    !shot.outcome.timedOut &&
    (((Get(pc, "kind") == Str("stdout_matches") || Get(pc, "kind") == Str("stdout_excludes"))
      && Allowed(pc, shot.outcome) && !Get(pc, "pattern").Str?)
     || (Get(pc, "kind") == Str("metric_threshold") && Get(pc, "metric").Str? && Get(pc, "metric").s in shot.metrics
         && !(Get(pc, "value").Num? && exists c :: c in {"<", "<=", "==", ">=", ">"} && Get(pc, "comparison") == Str(c))))
  }

  /** The verdict holds exactly when the condition is met, for every kind of condition and none other. */
  lemma HoldsIffMet(entry: Json, shot: Shot, plan: Json, baseline: Json, search: Search)
    ensures EvaluateCondition(entry, shot, plan, baseline, search) == Holds <==> Meets(entry, shot, plan, baseline, search)
    ensures EvaluateCondition(entry, shot, plan, baseline, search) == Raised <==> CannotJudge(entry, shot)
  {
    hide Get, Has, Items, Truthy, JP.Resolve, JP.LenientTokens, Differences, LikeBaseline, MeetsThreshold, AgainstBaseline;
    var pc := Get(entry, "pass_condition");
    BaselineIff(pc, shot.metrics, plan, baseline);
    if Get(pc, "kind") == Str("metric_threshold") {
      ThresholdIff(pc, shot.metrics);
    }
  }

  lemma ThresholdIff(pc: Json, metrics: map<string, real>)
    ensures var name, value := Get(pc, "metric"), Get(pc, "value");
            var compared := if value.Num? && Seen(metrics, name).Some? then Compare(Get(pc, "comparison"), Seen(metrics, name).value, value.n) else None;
            && (compared == Some(true) <==> MeetsThreshold(pc, metrics))
            && (Seen(metrics, name).Some? && compared == None <==>
                name.Str? && name.s in metrics &&
                !(value.Num? && exists c :: c in {"<", "<=", "==", ">=", ">"} && Get(pc, "comparison") == Str(c)))
  {
    hide Get;
  }

  lemma BaselineIff(pc: Json, metrics: map<string, real>, plan: Json, baseline: Json)
    ensures AgainstBaseline(pc, metrics, plan, baseline) == Holds <==> LikeBaseline(pc, metrics, plan, baseline)
    ensures AgainstBaseline(pc, metrics, plan, baseline) != Raised
  {
    hide Get, JP.Resolve, JP.LenientTokens, Differences, NearRecorded, ConditionTolerance, Compared, ConditionKeys, Tolerance, AllNear;
    var base := JP.Resolve(baseline, JP.LenientTokens(Text(Get(pc, "baseline_pointer"))));
    if base.Obj? {
      AllNearIff(pc, plan, base, metrics);
    }
  }

  lemma AllNearIff(pc: Json, plan: Json, base: Json, metrics: map<string, real>)
    requires base.Obj?
    ensures Differences(base, metrics, ConditionKeys(pc, plan), ConditionTolerance(pc, plan)) == [] <==>
            AllNear(pc, plan, base.fields, metrics)
  {
    hide Differences, KeyDifference, NearRecorded, ConditionTolerance, Compared, ConditionKeys, Tolerance;
    var keys, tol := ConditionKeys(pc, plan), ConditionTolerance(pc, plan);
    NoDifferenceIffAgree(base, metrics, keys, tol);
    if Differences(base, metrics, keys, tol) == [] {
      forall key | Compared(pc, plan, key)
        ensures NearRecorded(base.fields, metrics, key, Tolerance(pc, plan))
      {
        KeysCompared(pc, plan, key);
        NearIff(pc, plan, base, metrics, key);
      }
    }
    if AllNear(pc, plan, base.fields, metrics) {
      forall key | key in keys
        ensures KeyDifference(base, metrics, key, tol) == None
      {
        KeysCompared(pc, plan, key);
        NearIff(pc, plan, base, metrics, key);
      }
    }
  }

  lemma KeysCompared(pc: Json, plan: Json, key: Json)
    ensures key in ConditionKeys(pc, plan) <==> Compared(pc, plan, key)
  {
    hide Items;
  }

  lemma NearIff(pc: Json, plan: Json, base: Json, metrics: map<string, real>, key: Json)
    requires base.Obj?
    ensures KeyDifference(base, metrics, key, ConditionTolerance(pc, plan)) == None <==>
            NearRecorded(base.fields, metrics, key, Tolerance(pc, plan))
  {
    var t := ConditionTolerance(pc, plan);
    if t.Some? {
      KeyAgrees(base, metrics, key, t.value);
    }
  }

  /* ------------------------------------------------------------ measurement */

  predicate Completes(shot: Shot) {
    !shot.outcome.timedOut && shot.outcome.exitCode == 0 && shot.metrics != map[]
  }

  function Failing(traces: seq<string>, shots: string -> Shot): (out: seq<string>)
    ensures forall t :: t in out <==> t in traces && !Completes(shots(t))
  {
    if traces == [] then []
    else
      var last := |traces| - 1;
      assert traces == traces[..last] + [traces[last]];
      Failing(traces[..last], shots) + (if Completes(shots(traces[last])) then [] else [traces[last]])
  }

  function Rows(traces: seq<string>, shots: string -> Shot): (rows: seq<map<string, real>>)
    ensures rows == [] <==> forall t :: t in traces ==> !Completes(shots(t))
    ensures |rows| + |Failing(traces, shots)| == |traces|
  {
    if traces == [] then []
    else
      var last := |traces| - 1;
      assert traces == traces[..last] + [traces[last]];
      Rows(traces[..last], shots) + (if Completes(shots(traces[last])) then [shots(traces[last]).metrics] else [])
  }

  function Total(rows: seq<map<string, real>>, key: string): real
    requires forall i :: 0 <= i < |rows| ==> key in rows[i]
  {
    if rows == [] then 0.0 else Total(rows[..|rows| - 1], key) + rows[|rows| - 1][key]
  }

  ghost predicate IsMeans(rows: seq<map<string, real>>, means: map<string, real>) {
    && (forall k :: k in means <==> forall i :: 0 <= i < |rows| ==> k in rows[i])
    && forall k :: k in means ==> Gaps(rows, k, means[k]) == 0.0
  }

  /** By how much the rows exceed `m` at this key, all together. */
  function Gaps(rows: seq<map<string, real>>, key: string, m: real): real
    requires forall i :: 0 <= i < |rows| ==> key in rows[i]
  {
    if rows == [] then 0.0 else Gaps(rows[..|rows| - 1], key, m) + (rows[|rows| - 1][key] - m)
  }

  lemma {:induction false} GapsAreTotal(rows: seq<map<string, real>>, key: string, m: real)
    requires forall i :: 0 <= i < |rows| ==> key in rows[i]
    ensures Gaps(rows, key, m) == Total(rows, key) - m * (|rows| as real)
  {
    if rows != [] {
      GapsAreTotal(rows[..|rows| - 1], key, m);
      assert m * (|rows| as real) == m * ((|rows| - 1) as real) + m;
    }
  }

  lemma OneMoreTrace(traces: seq<string>, i: nat, shots: string -> Shot)
    requires i < |traces|
    ensures var done := Completes(shots(traces[i]));
            && Rows(traces[..i + 1], shots) == Rows(traces[..i], shots) + (if done then [shots(traces[i]).metrics] else [])
            && Failing(traces[..i + 1], shots) == Failing(traces[..i], shots) + (if done then [] else [traces[i]])
  {
    hide Completes;
    assert traces[..i + 1][..i] == traces[..i];
  }

  /** `_measure` by command: the mean over the traces that completed, of the metrics they all carry; it is ok
      exactly when there is a trace and every one completed. */
  method Measure(traces: seq<string>, shots: string -> Shot) returns (out: TraceOutcome)
    ensures out.failed == Failing(traces, shots)
    ensures out.ok <==> traces != [] && forall t :: t in traces ==> Completes(shots(t))
    ensures if Rows(traces, shots) == [] then out.metrics == map[] else IsMeans(Rows(traces, shots), out.metrics)
  {
    hide Rows, Failing, IsMeans;
    var rows: seq<map<string, real>>, failed: seq<string> := [], [];
    NoTraces(shots);
    assert traces[..0] == [];
    for i := 0 to |traces|
      invariant rows == Rows(traces[..i], shots) && failed == Failing(traces[..i], shots)
    {
      OneMoreTrace(traces, i, shots);
      var shot := shots(traces[i]);
      if shot.outcome.timedOut || shot.outcome.exitCode != 0 {
        failed := failed + [traces[i]];
      } else if shot.metrics != map[] {
        rows := rows + [shot.metrics];
      } else {
        failed := failed + [traces[i]];
      }
    }
    assert traces[..|traces|] == traces;
    NoneFailing(traces, shots);
    if rows == [] {
      return TraceOutcome(false, map[], failed);
    }
    var means := Means(rows);
    out := TraceOutcome(failed == [], means, failed);
  }

  lemma NoTraces(shots: string -> Shot)
    ensures Rows([], shots) == [] && Failing([], shots) == []
  {
  }

  lemma NoneFailing(traces: seq<string>, shots: string -> Shot)
    ensures Failing(traces, shots) == [] <==> forall t :: t in traces ==> Completes(shots(t))
    ensures Rows(traces, shots) == [] ==> traces == [] || !forall t :: t in traces ==> Completes(shots(t))
    ensures traces == [] ==> Rows(traces, shots) == []
  {
    hide Completes, Failing;
    if Failing(traces, shots) != [] {
      assert Failing(traces, shots)[0] in Failing(traces, shots);
    }
    if traces != [] {
      assert traces[0] in traces;
    }
  }

  method Means(rows: seq<map<string, real>>) returns (means: map<string, real>)
    requires rows != []
    ensures IsMeans(rows, means)
  {
    var keys := rows[0].Keys;
    for i := 1 to |rows|
      invariant forall k :: k in keys <==> forall j :: 0 <= j < i ==> k in rows[j]
    {
      keys := keys * rows[i].Keys;
    }
    means := map k | k in keys :: Total(rows, k) / (|rows| as real);
    var n := |rows| as real;
    forall k | k in means
      ensures Gaps(rows, k, means[k]) == 0.0
    {
      Quotient(Total(rows, k), n);
      GapsAreTotal(rows, k, means[k]);
    }
  }

  lemma Quotient(d: real, n: real)
    requires n != 0.0
    ensures (d / n) * n == d
  {
  }

  /* ------------------------------------------------------------ performance entries */

  function RelativeImprovement(baseline: real, measured: real, direction: Json): real
    requires baseline != 0.0
  {
    (if direction == Str("decrease") then baseline - measured else measured - baseline) / Abs(baseline)
  }

  datatype Companion = Within | Regressed | Crashes

  /** One `no_regression` companion. A companion whose baseline is 0 divides by zero. */
  function JudgeCompanion(companion: Json, on: map<string, real>, base: map<string, Json>): Companion {
    var name := Text(Get(companion, "metric"));
    if name !in on || name !in base then Regressed
    else if !base[name].Num? || base[name].n == 0.0 || !Get(companion, "max_relative_regression").Num? then Crashes
    else if -RelativeImprovement(base[name].n, on[name], Get(companion, "direction"))
            > Get(companion, "max_relative_regression").n then Regressed
    else Within
  }

  function AsDocument(metrics: map<string, real>): map<string, Json> {
    map k | k in metrics :: Num(metrics[k])
  }

  /** Both sides' failed traces, in order and without repeats. */
  function MergeFailed(on: seq<string>, off: seq<string>): (out: seq<string>)
    ensures forall t :: t in out <==> t in on || t in off
    decreases |off|
  {
    if off == [] then on
    else MergeFailed(if off[0] in on then on else on + [off[0]], off[1..])
  }

  /** The comparison point of a performance entry: what the host recorded, or the feature-off side. */
  function ComparisonPoint(entry: Json, off: TraceOutcome, baseline: Json): map<string, Json> {
    if PlanGuard.BaselineSource(entry) == Str("recorded") then
      var doc := JP.Resolve(baseline, JP.LenientTokens(Text(Get(Get(entry, "baseline"), "pointer"))));
      if doc.Obj? then doc.fields else map[]
    else AsDocument(off.metrics)
  }

  function Block(entry: Json): Json { Get(entry, "block_threshold") }

  function Companions(entry: Json): seq<Json> { Items(Block(entry), "no_regression") }

  function Failures(entry: Json, on: TraceOutcome, off: TraceOutcome): seq<string> {
    if PlanGuard.BaselineSource(entry) == Str("recorded") then on.failed else MergeFailed(on.failed, off.failed)
  }

  /** The judgement of an entry whose sides have been measured; None where the code would raise. */
  function Judge(id: Json, metric: string, direction: Json, companions: seq<Json>, floor: Json, target: Json,
                 on: map<string, real>, base: map<string, Json>, failed: seq<string>): Option<PerformanceResult> {
    if metric !in base || metric !in on then Some(PerformanceResult(id, false, failed, false))
    else if !base[metric].Num? then None
    else if base[metric].n == 0.0 then Some(PerformanceResult(id, false, failed, false))
    else if !floor.Num? || !target.Num? then None
    else if exists c :: c in companions && JudgeCompanion(c, on, base) == Crashes then None
    else
      var ri := RelativeImprovement(base[metric].n, on[metric], direction);
      Some(PerformanceResult(id,
             ri > floor.n && (forall c :: c in companions ==> JudgeCompanion(c, on, base) == Within),
             failed, !(ri >= target.n)))
  }

  function RunPerformance(entry: Json, traces: seq<string>, on: TraceOutcome, off: TraceOutcome, baseline: Json)
    : Option<PerformanceResult>
  {
    var id, metric := Get(entry, "id"), Text(Get(entry, "metric"));
    if traces == [] then Some(PerformanceResult(id, false, [], false))
    else if metric !in on.metrics then Some(PerformanceResult(id, false, on.failed, false))
    else Judge(id, metric, Get(entry, "direction"), Companions(entry), Get(Block(entry), "min_relative_improvement"),
               Get(Get(entry, "warn_threshold"), "target_relative_improvement"),
               on.metrics, ComparisonPoint(entry, off, baseline), Failures(entry, on, off))
  }

  /** `_run_performance`'s loop over the companions. */
  method JudgeCompanions(companions: seq<Json>, on: map<string, real>, base: map<string, Json>)
    returns (ok: bool, crashed: bool)
    ensures crashed <==> exists c :: c in companions && JudgeCompanion(c, on, base) == Crashes
    ensures !crashed ==> (ok <==> forall c :: c in companions ==> JudgeCompanion(c, on, base) == Within)
  {
    ok, crashed := true, false;
    for i := 0 to |companions|
      invariant !crashed && forall k :: 0 <= k < i ==> JudgeCompanion(companions[k], on, base) != Crashes
      invariant ok <==> forall k :: 0 <= k < i ==> JudgeCompanion(companions[k], on, base) == Within
    {
      match JudgeCompanion(companions[i], on, base)
      case Crashes =>
        crashed := true;
        return;
      case Regressed =>
        ok := false;
      case Within =>
    }
  }

  /** What it takes to pass a block threshold, without a division: the target moves the right way by more than
      the floor times the baseline's magnitude, and no companion moves the wrong way by more than its band. */
  ghost predicate MovesEnough(baseline: real, measured: real, direction: Json, floor: real) {
    (if direction == Str("decrease") then baseline - measured else measured - baseline) > floor * Abs(baseline)
  }

  lemma ImprovementBeatsFloor(baseline: real, measured: real, direction: Json, floor: real)
    requires baseline != 0.0
    ensures RelativeImprovement(baseline, measured, direction) > floor <==> MovesEnough(baseline, measured, direction, floor)
  {
    var delta := if direction == Str("decrease") then baseline - measured else measured - baseline;
    QuotientAbove(delta, Abs(baseline), floor);
  }

  /** A number the runner may divide by. */
  predicate Divides(v: Json) {
    v.Num? && v.n != 0.0
  }

  /** An entry with numeric thresholds crashes the runner instead of being judged exactly when it and its target metric
      were measured and the metric's baseline is no number, or is a usable one while some companion measured on both
      sides is not: whether the comparison point was recorded or is the feature-off side. */
  lemma CompanionOverZeroCrashes(entry: Json, traces: seq<string>, on: TraceOutcome, off: TraceOutcome, baseline: Json)
    requires Get(Block(entry), "min_relative_improvement").Num?
    requires Get(Get(entry, "warn_threshold"), "target_relative_improvement").Num?
    requires forall c :: c in Companions(entry) ==> Get(c, "max_relative_regression").Num?
    ensures var base := ComparisonPoint(entry, off, baseline);
            var metric := Text(Get(entry, "metric"));
            RunPerformance(entry, traces, on, off, baseline) == None <==>
            && traces != [] && metric in on.metrics && metric in base
            && (base[metric].Num? ==>
                  base[metric].n != 0.0 &&
                  exists c :: c in Companions(entry) && Text(Get(c, "metric")) in on.metrics &&
                              Text(Get(c, "metric")) in base && !Divides(base[Text(Get(c, "metric"))]))
    ensures PlanGuard.BaselineSource(entry) != Str("recorded") ==>
              forall m :: m in ComparisonPoint(entry, off, baseline) ==>
                            (Divides(ComparisonPoint(entry, off, baseline)[m]) <==> off.metrics[m] != 0.0)
  {
    hide ComparisonPoint, RelativeImprovement;
    var base := ComparisonPoint(entry, off, baseline);
    forall c | c in Companions(entry)
      ensures JudgeCompanion(c, on.metrics, base) == Crashes <==>
              (Text(Get(c, "metric")) in on.metrics && Text(Get(c, "metric")) in base &&
               !Divides(base[Text(Get(c, "metric"))]))
    {
    }
    if PlanGuard.BaselineSource(entry) != Str("recorded") {
      FeatureOffIsNumbers(entry, off, baseline);
    }
  }

  /** The value an entry compares a metric with: the one recorded under its pointer, or else the feature-off side's. */
  function BaseOf(entry: Json, off: TraceOutcome, baseline: Json, metric: string): Option<Json> {
    if Get(Get(entry, "baseline"), "source") == Str("recorded") then
      var recorded := JP.Resolve(baseline, JP.LenientTokens(Text(Get(Get(entry, "baseline"), "pointer"))));
      if recorded.Obj? && metric in recorded.fields then Some(recorded.fields[metric]) else None
    else if metric in off.metrics then Some(Num(off.metrics[metric]))
    else None
  }

  predicate NonZero(base: Option<Json>) {
    base.Some? && base.value.Num? && base.value.n != 0.0
  }

  /** How far a metric moved, against which way is better. */
  function Moved(base: real, measured: real, direction: Json): real {
    if direction == Str("decrease") then base - measured else measured - base
  }

  /** It moved the wrong way by no more than the band times the baseline's magnitude. */
  ghost predicate KeepsWithin(base: real, measured: real, direction: Json, band: real) {
    -Moved(base, measured, direction) <= band * Abs(base)
  }

  /** It moved the right way by less than the target times the baseline's magnitude. */
  ghost predicate FallsShort(base: real, measured: real, direction: Json, target: real) {
    Moved(base, measured, direction) < target * Abs(base)
  }

  /** A companion, measured on both sides, keeps within its band. */
  ghost predicate StaysInBand(entry: Json, companion: Json, on: TraceOutcome, off: TraceOutcome, baseline: Json) {
    var name, band := Text(Get(companion, "metric")), Get(companion, "max_relative_regression");
    var base := BaseOf(entry, off, baseline, name);
    name in on.metrics && NonZero(base) && band.Num? &&
    KeepsWithin(base.value.n, on.metrics[name], Get(companion, "direction"), band.n)
  }

  /** It was not measured on one of the sides, or can be judged. */
  ghost predicate CanBeJudged(entry: Json, companion: Json, on: TraceOutcome, off: TraceOutcome, baseline: Json) {
    var name := Text(Get(companion, "metric"));
    name in on.metrics && BaseOf(entry, off, baseline, name).Some? ==>
      NonZero(BaseOf(entry, off, baseline, name)) && Get(companion, "max_relative_regression").Num?
  }

  /** The entry has traces, its metric was measured on both sides over a nonzero baseline, and its thresholds are
      numbers. */
  ghost predicate Measures(entry: Json, traces: seq<string>, on: TraceOutcome, off: TraceOutcome, baseline: Json) {
    && traces != [] && Text(Get(entry, "metric")) in on.metrics
    && NonZero(BaseOf(entry, off, baseline, Text(Get(entry, "metric"))))
    && Get(Get(entry, "block_threshold"), "min_relative_improvement").Num?
    && Get(Get(entry, "warn_threshold"), "target_relative_improvement").Num?
  }

  /** Its metric moved the right way by more than the floor times the baseline's magnitude, and every companion stays in
      its band. */
  ghost predicate Improves(entry: Json, traces: seq<string>, on: TraceOutcome, off: TraceOutcome, baseline: Json) {
    var metric := Text(Get(entry, "metric"));
    && Measures(entry, traces, on, off, baseline)
    && MovesEnough(BaseOf(entry, off, baseline, metric).value.n, on.metrics[metric], Get(entry, "direction"),
                   Get(Get(entry, "block_threshold"), "min_relative_improvement").n)
    && AllStayInBand(entry, on, off, baseline)
  }

  ghost predicate AllStayInBand(entry: Json, on: TraceOutcome, off: TraceOutcome, baseline: Json) {
    forall c :: c in Items(Get(entry, "block_threshold"), "no_regression") ==> StaysInBand(entry, c, on, off, baseline)
  }

  ghost predicate AllCanBeJudged(entry: Json, on: TraceOutcome, off: TraceOutcome, baseline: Json) {
    forall c :: c in Items(Get(entry, "block_threshold"), "no_regression") ==> CanBeJudged(entry, c, on, off, baseline)
  }

  /** It fell short of the claimed target, and its companions could be judged. */
  ghost predicate MissesTarget(entry: Json, traces: seq<string>, on: TraceOutcome, off: TraceOutcome, baseline: Json) {
    var metric := Text(Get(entry, "metric"));
    && Measures(entry, traces, on, off, baseline)
    && FallsShort(BaseOf(entry, off, baseline, metric).value.n, on.metrics[metric], Get(entry, "direction"),
                  Get(Get(entry, "warn_threshold"), "target_relative_improvement").n)
    && AllCanBeJudged(entry, on, off, baseline)
  }

  /** What an entry's result says, without a division: it passes its block exactly when it improves, it warns exactly when
      it misses its target, and its failed traces are those of the sides that were run. */
  lemma PerformanceIff(entry: Json, traces: seq<string>, on: TraceOutcome, off: TraceOutcome, baseline: Json)
    ensures var r := RunPerformance(entry, traces, on, off, baseline);
            && (r.Some? && r.value.blockPassed <==> Improves(entry, traces, on, off, baseline))
            && (r.Some? && r.value.warned <==> MissesTarget(entry, traces, on, off, baseline))
            && (r.Some? ==>
                  r.value.id == Get(entry, "id") &&
                  forall t :: t in r.value.failedTraces <==>
                    traces != [] && (t in on.failed || (Text(Get(entry, "metric")) in on.metrics && t in off.failed &&
                                                        Get(Get(entry, "baseline"), "source") != Str("recorded"))))
  {
    hide Get, Items, Text, Judge, ComparisonPoint, Failures, BaseOf, MovesEnough, FallsShort, AllStayInBand, AllCanBeJudged,
      AllWithin, NoneCrashes;
    var metric, point := Text(Get(entry, "metric")), ComparisonPoint(entry, off, baseline);
    FailuresAre(entry, on, off);
    PointIs(entry, off, baseline, metric);
    CompanionsIff(entry, on, off, baseline);
    if traces != [] && metric in on.metrics {
      JudgeIs(Get(entry, "id"), metric, Get(entry, "direction"), Companions(entry), Get(Block(entry), "min_relative_improvement"),
              Get(Get(entry, "warn_threshold"), "target_relative_improvement"), on.metrics, point, Failures(entry, on, off));
    }
  }

  ghost predicate AllWithin(companions: seq<Json>, on: map<string, real>, base: map<string, Json>) {
    forall c :: c in companions ==> JudgeCompanion(c, on, base) == Within
  }

  ghost predicate NoneCrashes(companions: seq<Json>, on: map<string, real>, base: map<string, Json>) {
    forall c :: c in companions ==> JudgeCompanion(c, on, base) != Crashes
  }

  lemma CompanionsIff(entry: Json, on: TraceOutcome, off: TraceOutcome, baseline: Json)
    ensures var point := ComparisonPoint(entry, off, baseline);
            && (AllWithin(Companions(entry), on.metrics, point) <==> AllStayInBand(entry, on, off, baseline))
            && (NoneCrashes(Companions(entry), on.metrics, point) <==> AllCanBeJudged(entry, on, off, baseline))
  {
    hide Get, Items, JudgeCompanion, ComparisonPoint, StaysInBand, CanBeJudged;
    forall c
      ensures JudgeCompanion(c, on.metrics, ComparisonPoint(entry, off, baseline)) == Within <==> StaysInBand(entry, c, on, off, baseline)
      ensures JudgeCompanion(c, on.metrics, ComparisonPoint(entry, off, baseline)) != Crashes <==> CanBeJudged(entry, c, on, off, baseline)
    {
      CompanionIff(entry, c, on, off, baseline);
    }
  }

  lemma FailuresAre(entry: Json, on: TraceOutcome, off: TraceOutcome)
    ensures forall t :: t in Failures(entry, on, off) <==>
              t in on.failed || (t in off.failed && Get(Get(entry, "baseline"), "source") != Str("recorded"))
  {
  }

  lemma PointIs(entry: Json, off: TraceOutcome, baseline: Json, name: string)
    ensures var point := ComparisonPoint(entry, off, baseline);
            BaseOf(entry, off, baseline, name) == if name in point then Some(point[name]) else None
  {
    hide JP.Resolve, JP.LenientTokens, Text;
  }

  lemma CompanionIff(entry: Json, c: Json, on: TraceOutcome, off: TraceOutcome, baseline: Json)
    ensures var point := ComparisonPoint(entry, off, baseline);
            && (JudgeCompanion(c, on.metrics, point) == Within <==> StaysInBand(entry, c, on, off, baseline))
            && (JudgeCompanion(c, on.metrics, point) != Crashes <==> CanBeJudged(entry, c, on, off, baseline))
  {
    hide Get, Text, ComparisonPoint, BaseOf, JudgeCompanion, KeepsWithin;
    PointIs(entry, off, baseline, Text(Get(c, "metric")));
    CompanionIs(c, on.metrics, ComparisonPoint(entry, off, baseline));
  }

  lemma CompanionIs(c: Json, on: map<string, real>, base: map<string, Json>)
    ensures var name, band := Text(Get(c, "metric")), Get(c, "max_relative_regression");
            && (JudgeCompanion(c, on, base) == Within <==>
                  name in on && name in base && base[name].Num? && base[name].n != 0.0 && band.Num?
                  && KeepsWithin(base[name].n, on[name], Get(c, "direction"), band.n))
            && (JudgeCompanion(c, on, base) != Crashes <==>
                  (name in on && name in base ==> base[name].Num? && base[name].n != 0.0 && band.Num?))
  {
    hide Get, Text, RelativeImprovement, KeepsWithin;
    var name, band := Text(Get(c, "metric")), Get(c, "max_relative_regression");
    if name in on && name in base && base[name].Num? && base[name].n != 0.0 && band.Num? {
      BandIff(base[name].n, on[name], Get(c, "direction"), band.n);
    }
  }

  lemma QuotientBelow(d: real, b: real, bound: real)
    requires b > 0.0
    ensures d / b < bound <==> d < bound * b
  {
    var q := d / b;
    assert q * b == d;
    if q > bound {
      Scale(q, bound, b);
    } else if q < bound {
      Scale(bound, q, b);
    }
  }

  lemma NegatedProduct(x: real, y: real)
    ensures (-x) * y == -(x * y)
  {
  }

  /** The band, with the division and without. */
  lemma BandIff(base: real, measured: real, direction: Json, band: real)
    requires base != 0.0
    ensures -RelativeImprovement(base, measured, direction) > band <==> !KeepsWithin(base, measured, direction, band)
  {
    RelativeIsMoved(base, measured, direction);
    QuotientBelow(Moved(base, measured, direction), Abs(base), -band);
    NegatedProduct(band, Abs(base));
  }

  /** The target, with the division and without. */
  lemma TargetIff(base: real, measured: real, direction: Json, target: real)
    requires base != 0.0
    ensures RelativeImprovement(base, measured, direction) >= target <==> !FallsShort(base, measured, direction, target)
  {
    RelativeIsMoved(base, measured, direction);
    QuotientBelow(Moved(base, measured, direction), Abs(base), target);
  }

  lemma RelativeIsMoved(base: real, measured: real, direction: Json)
    requires base != 0.0
    ensures RelativeImprovement(base, measured, direction) == Moved(base, measured, direction) / Abs(base)
  {
  }

  lemma JudgeIs(id: Json, metric: string, direction: Json, companions: seq<Json>, floor: Json, target: Json,
                on: map<string, real>, base: map<string, Json>, failed: seq<string>)
    requires metric in on
    ensures var r := Judge(id, metric, direction, companions, floor, target, on, base, failed);
            var measures := metric in base && base[metric].Num? && base[metric].n != 0.0 && floor.Num? && target.Num?;
            && (r.Some? && r.value.blockPassed <==>
                  measures && MovesEnough(base[metric].n, on[metric], direction, floor.n)
                  && AllWithin(companions, on, base))
            && (r.Some? && r.value.warned <==>
                  measures && FallsShort(base[metric].n, on[metric], direction, target.n)
                  && NoneCrashes(companions, on, base))
            && (r.Some? ==> r.value.id == id && r.value.failedTraces == failed)
  {
    hide JudgeCompanion, RelativeImprovement, MovesEnough, FallsShort;
    if metric in base && base[metric].Num? && base[metric].n != 0.0 && floor.Num? && target.Num? {
      ImprovementBeatsFloor(base[metric].n, on[metric], direction, floor.n);
      TargetIff(base[metric].n, on[metric], direction, target.n);
    }
  }

  lemma FeatureOffIsNumbers(entry: Json, off: TraceOutcome, baseline: Json)
    requires PlanGuard.BaselineSource(entry) != Str("recorded")
    ensures ComparisonPoint(entry, off, baseline).Keys == off.metrics.Keys
    ensures forall m :: m in off.metrics ==> ComparisonPoint(entry, off, baseline)[m] == Num(off.metrics[m])
  {
  }

  /* ------------------------------------------------------------ a whole plan */

  /** What was measured for a plan: the build, each entry's shell runs and trace runs, which smoke workloads
      complete, and the contents of the trace-list files. */
  datatype Measured = Measured(
    buildOk: bool,
    shot: (Json, bool) -> Shot,
    completes: string -> bool,
    on: Json -> TraceOutcome,
    off: Json -> TraceOutcome,
    traceList: Json -> seq<string>)

  function States(state: Json): Option<seq<bool>> {
    if state == Str("off") then Some([false])
    else if state == Str("on") then Some([true])
    else if state == Str("both") then Some([false, true])
    else None
  }

  function Texts(items: seq<Json>): (out: seq<string>)
    ensures |out| == |items|
    ensures forall t :: t in out <==> exists i :: 0 <= i < |items| && Text(items[i]) == t
  {
    if items == [] then []
    else
      assert items == [items[0]] + items[1..];
      [Text(items[0])] + Texts(items[1..])
  }

  /** `_traces_of`: the entry's own list when it has one, else the file it names. */
  function TracesOf(entry: Json, traceList: Json -> seq<string>): seq<string> {
    if Items(entry, "traces") != [] then Texts(Items(entry, "traces")) else traceList(Get(entry, "trace_list"))
  }

  function WhyOf(entry: Json, on: bool, shot: (Json, bool) -> Shot, plan: Json, baseline: Json, search: Search): Why {
    EvaluateCondition(entry, shot(entry, on), plan, baseline, search)
  }

  function CorrectnessOf(entry: Json, shot: (Json, bool) -> Shot, plan: Json, baseline: Json, search: Search)
    : Option<CorrectnessResult>
  {
    match States(Get(entry, "feature_state"))
    case None => None
    case Some(states) =>
      if SomeStateRaises(entry, states, shot, plan, baseline, search) then None
      else Some(CorrectnessResult(Get(entry, "id"), Get(entry, "kind"),
                  EveryStateHolds(entry, states, shot, plan, baseline, search)))
  }

  predicate RunsOff(entry: Json) {
    Get(entry, "feature_state") == Str("off") || Get(entry, "feature_state") == Str("both")
  }

  predicate RunsOn(entry: Json) {
    Get(entry, "feature_state") == Str("both") || Get(entry, "feature_state") == Str("on")
  }

  /** An entry's runs, one for each state it names, cannot be judged; or it names no state. */
  ghost predicate Unjudgeable(entry: Json, off: Shot, on: Shot) {
    (!RunsOff(entry) && !RunsOn(entry)) || (RunsOff(entry) && CannotJudge(entry, off)) || (RunsOn(entry) && CannotJudge(entry, on))
  }

  /** A result that passes exactly when the run in every state the entry names meets its condition. */
  ghost predicate JudgedRight(entry: Json, off: Shot, on: Shot, plan: Json, baseline: Json, search: Search, r: CorrectnessResult) {
    && r.id == Get(entry, "id") && r.kind == Get(entry, "kind")
    && (r.passed <==>
          (RunsOff(entry) ==> Meets(entry, off, plan, baseline, search)) &&
          (RunsOn(entry) ==> Meets(entry, on, plan, baseline, search)))
  }

  lemma CorrectnessIff(entry: Json, shot: (Json, bool) -> Shot, plan: Json, baseline: Json, search: Search)
    ensures var r := CorrectnessOf(entry, shot, plan, baseline, search);
            && (r == None <==> Unjudgeable(entry, shot(entry, false), shot(entry, true)))
            && (r.Some? ==> JudgedRight(entry, shot(entry, false), shot(entry, true), plan, baseline, search, r.value))
  {
    hide Meets, CannotJudge, EvaluateCondition, Get, States, RunsOff, RunsOn, SomeStateRaises, EveryStateHolds;
    HoldsIffMet(entry, shot(entry, false), plan, baseline, search);
    HoldsIffMet(entry, shot(entry, true), plan, baseline, search);
    StatesNamed(entry);
    if States(Get(entry, "feature_state")).Some? {
      InEachState(entry, States(Get(entry, "feature_state")).value, shot, plan, baseline, search);
    }
  }

  lemma StatesNamed(entry: Json)
    ensures var states := States(Get(entry, "feature_state"));
            && (states == None <==> !RunsOff(entry) && !RunsOn(entry))
            && (states.Some? ==> (false in states.value <==> RunsOff(entry)) && (true in states.value <==> RunsOn(entry)))
  {
    hide Get;
  }

  lemma InEachState(entry: Json, states: seq<bool>, shot: (Json, bool) -> Shot, plan: Json, baseline: Json, search: Search)
    ensures SomeStateRaises(entry, states, shot, plan, baseline, search) <==>
            (false in states && WhyOf(entry, false, shot, plan, baseline, search) == Raised)
            || (true in states && WhyOf(entry, true, shot, plan, baseline, search) == Raised)
    ensures EveryStateHolds(entry, states, shot, plan, baseline, search) <==>
            (false in states ==> WhyOf(entry, false, shot, plan, baseline, search) == Holds)
            && (true in states ==> WhyOf(entry, true, shot, plan, baseline, search) == Holds)
  {
    hide WhyOf;
  }

  predicate SomeStateRaises(entry: Json, states: seq<bool>, shot: (Json, bool) -> Shot, plan: Json, baseline: Json, search: Search) {
    exists k :: 0 <= k < |states| && WhyOf(entry, states[k], shot, plan, baseline, search) == Raised
  }

  predicate EveryStateHolds(entry: Json, states: seq<bool>, shot: (Json, bool) -> Shot, plan: Json, baseline: Json, search: Search) {
    forall k :: 0 <= k < |states| ==> WhyOf(entry, states[k], shot, plan, baseline, search) == Holds
  }

  function CorrectnessAll(entries: seq<Json>, shot: (Json, bool) -> Shot, plan: Json, baseline: Json, search: Search)
    : (out: Option<seq<CorrectnessResult>>)
    ensures out.Some? ==> |out.value| == |entries| && forall i :: 0 <= i < |entries| ==>
              CorrectnessOf(entries[i], shot, plan, baseline, search) == Some(out.value[i])
    ensures out == None ==> exists i :: 0 <= i < |entries| && CorrectnessOf(entries[i], shot, plan, baseline, search) == None
  {
    hide CorrectnessOf;
    if entries == [] then Some([])
    else
      var last := |entries| - 1;
      match CorrectnessAll(entries[..last], shot, plan, baseline, search)
      case None => None
      case Some(front) =>
        match CorrectnessOf(entries[last], shot, plan, baseline, search)
        case None => None
        case Some(r) => Some(front + [r])
  }

  function SmokeOk(plan: Json, m: Measured): bool {
    var smoke := Get(plan, "smoke");
    Truthy(smoke) &&
    var traces := TracesOf(smoke, m.traceList);
    traces != [] && forall t :: t in traces ==> m.completes(t)
  }

  function PerformanceOf(entry: Json, m: Measured, baseline: Json): Option<PerformanceResult> {
    RunPerformance(entry, TracesOf(entry, m.traceList), m.on(entry), m.off(entry), baseline)
  }

  function PerformanceAll(entries: seq<Json>, m: Measured, baseline: Json): (out: Option<seq<PerformanceResult>>)
    ensures out.Some? ==> |out.value| == |entries| && forall i :: 0 <= i < |entries| ==>
              PerformanceOf(entries[i], m, baseline) == Some(out.value[i])
    ensures out == None ==> exists i :: 0 <= i < |entries| && PerformanceOf(entries[i], m, baseline) == None
  {
    hide PerformanceOf;
    if entries == [] then Some([])
    else
      var last := |entries| - 1;
      match PerformanceAll(entries[..last], m, baseline)
      case None => None
      case Some(front) =>
        match PerformanceOf(entries[last], m, baseline)
        case None => None
        case Some(r) => Some(front + [r])
  }

  /** What `run_test_plan` reports on these measurements; None when an exception escapes it. */
  function ResultsOf(plan: Json, m: Measured, baseline: Json, search: Search): Option<TestPlanResults> {
    if !m.buildOk then Some(TestPlanResults(false, [], false, []))
    else
      match CorrectnessAll(Items(plan, "correctness"), m.shot, plan, baseline, search)
      case None => None
      case Some(correctness) =>
        match PerformanceAll(Items(plan, "performance"), m, baseline)
        case None => None
        case Some(performance) => Some(TestPlanResults(true, correctness, SmokeOk(plan, m), performance))
  }

  /** An entry's workloads: those it lists, or those of the list it names when it lists none. */
  ghost predicate AreTracesOf(entry: Json, traceList: Json -> seq<string>, traces: seq<string>) {
    if Items(entry, "traces") == [] then traces == traceList(Get(entry, "trace_list"))
    else
      var listed := Items(entry, "traces");
      |traces| == |listed| && forall i :: 0 <= i < |traces| ==> traces[i] == Text(listed[i])
  }

  lemma {:induction false} TextsAt(items: seq<Json>, i: nat)
    requires i < |items|
    ensures Texts(items)[i] == Text(items[i])
  {
    hide Text;
    if i > 0 {
      TextsAt(items[1..], i - 1);
    }
  }

  lemma TracesAre(entry: Json, traceList: Json -> seq<string>)
    ensures AreTracesOf(entry, traceList, TracesOf(entry, traceList))
  {
    hide Text, Texts, Items, Get;
    if Items(entry, "traces") != [] {
      forall i | 0 <= i < |Items(entry, "traces")|
        ensures Texts(Items(entry, "traces"))[i] == Text(Items(entry, "traces")[i])
      {
        TextsAt(Items(entry, "traces"), i);
      }
    }
  }

  /** The smoke section names workloads, and each of them completes. */
  ghost predicate SmokeCompletes(plan: Json, m: Measured) {
    var smoke := Get(plan, "smoke");
    smoke !in {Null, Bool(false), Num(0.0), Str(""), Arr([]), Obj(map[])} &&
    exists traces :: AreTracesOf(smoke, m.traceList, traces) && traces != [] && forall t :: t in traces ==> m.completes(t)
  }

  lemma SmokeIff(plan: Json, m: Measured)
    ensures SmokeOk(plan, m) <==> SmokeCompletes(plan, m)
  {
    hide Get, TracesOf, AreTracesOf;
    var smoke := Get(plan, "smoke");
    FalsyIff(smoke);
    TracesAre(smoke, m.traceList);
    forall traces | AreTracesOf(smoke, m.traceList, traces)
      ensures traces == TracesOf(smoke, m.traceList)
    {
      OneTraceList(smoke, m.traceList, traces, TracesOf(smoke, m.traceList));
    }
  }

  lemma OneTraceList(entry: Json, traceList: Json -> seq<string>, a: seq<string>, b: seq<string>)
    requires AreTracesOf(entry, traceList, a) && AreTracesOf(entry, traceList, b)
    ensures a == b
  {
    hide Text, Get, Items;
  }

  /** A performance entry's result, on its own two measurements: the feature-on side and the feature-off side. */
  ghost predicate MeasuredRight(entry: Json, m: Measured, baseline: Json, r: PerformanceResult) {
    var traces := TracesOf(entry, m.traceList);
    && r.id == Get(entry, "id")
    && (r.blockPassed <==> Improves(entry, traces, m.on(entry), m.off(entry), baseline))
    && (r.warned <==> MissesTarget(entry, traces, m.on(entry), m.off(entry), baseline))
    && (r.failedTraces == [] <==> AllCompleted(entry, traces, m.on(entry), m.off(entry)))
  }

  /** No trace failed on a side the entry was run on. */
  ghost predicate AllCompleted(entry: Json, traces: seq<string>, on: TraceOutcome, off: TraceOutcome) {
    traces == [] ||
    (on.failed == [] &&
     (Text(Get(entry, "metric")) in on.metrics && Get(Get(entry, "baseline"), "source") != Str("recorded") ==> off.failed == []))
  }

  lemma PerformanceIsRight(entry: Json, m: Measured, baseline: Json)
    ensures var r := PerformanceOf(entry, m, baseline); r.Some? ==> MeasuredRight(entry, m, baseline, r.value)
  {
    hide Get, Text, Improves, MissesTarget, RunPerformance, TracesOf;
    var traces := TracesOf(entry, m.traceList);
    PerformanceIff(entry, traces, m.on(entry), m.off(entry), baseline);
    var r := PerformanceOf(entry, m, baseline);
    if r.Some? {
      NoneFailed(r.value.failedTraces, m.on(entry).failed, m.off(entry).failed, traces != [],
                 traces != [] && Text(Get(entry, "metric")) in m.on(entry).metrics && Get(Get(entry, "baseline"), "source") != Str("recorded"));
    }
  }

  lemma NoneFailed(failed: seq<string>, on: seq<string>, off: seq<string>, withOn: bool, withOff: bool)
    requires forall t :: t in failed <==> (withOn && t in on) || (withOff && t in off)
    ensures failed == [] <==> (withOn ==> on == []) && (withOff ==> off == [])
  {
    if failed != [] {
      assert failed[0] in failed;
    }
    if on != [] {
      assert on[0] in on;
    }
    if off != [] {
      assert off[0] in off;
    }
  }

  /** What a run of the plan reports, entry by entry, on these measurements. */
  lemma ResultsAre(plan: Json, m: Measured, baseline: Json, search: Search)
    ensures var r := ResultsOf(plan, m, baseline, search);
            && (!m.buildOk ==> r == Some(TestPlanResults(false, [], false, [])))
            && (m.buildOk && r.Some? ==>
                  && r.value.buildOk && (r.value.smokeOk <==> SmokeCompletes(plan, m))
                  && |r.value.correctness| == |Items(plan, "correctness")|
                  && (forall i :: 0 <= i < |r.value.correctness| ==>
                        var e := Items(plan, "correctness")[i];
                        JudgedRight(e, m.shot(e, false), m.shot(e, true), plan, baseline, search, r.value.correctness[i]))
                  && |r.value.performance| == |Items(plan, "performance")|
                  && (forall i :: 0 <= i < |r.value.performance| ==>
                        MeasuredRight(Items(plan, "performance")[i], m, baseline, r.value.performance[i])))
  {
    hide Items, SmokeOk, SmokeCompletes, JudgedRight, MeasuredRight, CorrectnessOf, PerformanceOf, CorrectnessAll, PerformanceAll;
    SmokeIff(plan, m);
    forall e
      ensures var c := CorrectnessOf(e, m.shot, plan, baseline, search);
              c.Some? ==> JudgedRight(e, m.shot(e, false), m.shot(e, true), plan, baseline, search, c.value)
      ensures var p := PerformanceOf(e, m, baseline); p.Some? ==> MeasuredRight(e, m, baseline, p.value)
    {
      CorrectnessIff(e, m.shot, plan, baseline, search);
      PerformanceIsRight(e, m, baseline);
    }
  }

  /* ------------------------------------------------------------ the shell cache */

  datatype RunKey = RunKey(command: Json, on: bool, env: map<string, Json>)

  /** A host as the cache sees it: a shell that may or may not depend on its timeout, and a metric parser. */
  datatype Host = Host(
    shell: (Json, bool, map<string, Json>, Json) -> ShellOutcome,
    parse: string -> map<string, real>)

  function EnvOf(entry: Json): map<string, Json> {
    var env := Get(entry, "env");
    if env.Obj? then env.fields else map[]
  }

  function TimeoutOf(entry: Json): Json {
    if Has(entry, "timeout_seconds") then Get(entry, "timeout_seconds") else Num(900.0)
  }

  function KeyOf(entry: Json, on: bool): RunKey {
    RunKey(Get(entry, "command"), on, EnvOf(entry))
  }

  /** The shell run an entry would get if nothing were cached. */
  function OwnShot(host: Host, entry: Json, on: bool): Shot {
    var outcome := host.shell(Get(entry, "command"), on, EnvOf(entry), TimeoutOf(entry));
    Shot(outcome, host.parse(outcome.output))
  }

  /** An entry of an object's fields runs its `command` with its `env`, if that is an object, for its `timeout_seconds` or 900 s;
      its key leaves the timeout out. */
  lemma ShotIs(host: Host, fields: map<string, Json>, on: bool)
    ensures var command := if "command" in fields then fields["command"] else Null;
            var env := if "env" in fields && fields["env"].Obj? then fields["env"].fields else map[];
            var timeout := if "timeout_seconds" in fields then fields["timeout_seconds"] else Num(900.0);
            && OwnShot(host, Obj(fields), on).outcome == host.shell(command, on, env, timeout)
            && KeyOf(Obj(fields), on) == RunKey(command, on, env)
  {
  }

  function OwnShots(host: Host): (Json, bool) -> Shot {
    (entry, on) => OwnShot(host, entry, on)
  }

  /** Entries that share a run would have got the same outcome from a run of their own. */
  ghost predicate SharedRunsAgree(host: Host, entries: seq<Json>) {
    forall i, j, on :: 0 <= i < |entries| && 0 <= j < |entries| && KeyOf(entries[i], on) == KeyOf(entries[j], on) ==>
      OwnShot(host, entries[i], on) == OwnShot(host, entries[j], on)
  }

  /** That is so for any host when entries with the same command and environment declare the same timeout,
      and for any plan when the shell does not depend on its timeout. */
  lemma WhenSharedRunsAgree(host: Host, entries: seq<Json>)
    requires (forall i, j :: 0 <= i < |entries| && 0 <= j < |entries| && KeyOf(entries[i], true) == KeyOf(entries[j], true)
                ==> TimeoutOf(entries[i]) == TimeoutOf(entries[j]))
             || (forall c: Json, on: bool, env: map<string, Json>, t: Json, u: Json ::
                   host.shell(c, on, env, t) == host.shell(c, on, env, u))
    ensures SharedRunsAgree(host, entries)
  {
    forall i, j, on | 0 <= i < |entries| && 0 <= j < |entries| && KeyOf(entries[i], on) == KeyOf(entries[j], on)
      ensures OwnShot(host, entries[i], on) == OwnShot(host, entries[j], on)
    {
      assert KeyOf(entries[i], true) == KeyOf(entries[j], true);
    }
  }

  ghost predicate Distinct(keys: seq<RunKey>) {
    forall i, j :: 0 <= i < j < |keys| ==> keys[i] != keys[j]
  }

  /** `run_test_plan`'s cache dictionary, with a log of the shell runs it could not avoid. */
  class ShellCache {
    var shots: map<RunKey, Shot>
    var calls: seq<RunKey>

    ghost predicate Valid()
      reads this
    {
      Distinct(calls) && forall k :: k in calls <==> k in shots
    }

    constructor ()
      ensures Valid() && shots == map[] && calls == []
    {
      shots, calls := map[], [];
    }

    /** `run_once`. */
    method RunOnce(host: Host, entry: Json, on: bool) returns (shot: Shot)
      requires Valid()
      modifies this
      ensures Valid()
      ensures var key := KeyOf(entry, on);
              if key in old(shots) then shot == old(shots)[key] && shots == old(shots) && calls == old(calls)
              else shot == OwnShot(host, entry, on) && shots == old(shots)[key := shot] && calls == old(calls) + [key]
    {
      var key := KeyOf(entry, on);
      if key !in shots {
        var outcome := host.shell(Get(entry, "command"), on, EnvOf(entry), TimeoutOf(entry));
        shots := shots[key := Shot(outcome, host.parse(outcome.output))];
        calls := calls + [key];
      }
      shot := shots[key];
    }
  }

  ghost predicate FromEntries(shots: map<RunKey, Shot>, host: Host, entries: seq<Json>) {
    forall k :: k in shots ==>
      exists i :: 0 <= i < |entries| && KeyOf(entries[i], k.on) == k && shots[k] == OwnShot(host, entries[i], k.on)
  }

  /** The correctness loop of `run_test_plan`: at most one shell run per (command, state, environment), and when
      shared runs agree the results are those of running every entry on its own. */
  method RunCorrectness(host: Host, entries: seq<Json>, plan: Json, baseline: Json, search: Search)
    returns (out: Option<seq<CorrectnessResult>>, calls: seq<RunKey>)
    ensures Distinct(calls)
    ensures SharedRunsAgree(host, entries) ==>
              out == CorrectnessAll(entries, OwnShots(host), plan, baseline, search)
    ensures SharedRunsAgree(host, entries) ==>
              (out == None <==> exists i :: 0 <= i < |entries| && UnjudgeableHere(host, entries[i]))
    ensures SharedRunsAgree(host, entries) && out.Some? ==>
              |out.value| == |entries| && forall i :: 0 <= i < |entries| ==>
                JudgedRight(entries[i], OwnShot(host, entries[i], false), OwnShot(host, entries[i], true), plan, baseline, search, out.value[i])
  {
    hide FromEntries, SharedRunsAgree, CorrectnessOf, OwnShots, CorrectnessAll, JudgedRight, UnjudgeableHere, OwnShot;
    if SharedRunsAgree(host, entries) {
      AllJudged(host, entries, plan, baseline, search);
    }
    NoEntries(OwnShots(host), plan, baseline, search);
    assert entries[..0] == [];
    var cache := new ShellCache();
    NothingCached(host, entries);
    var results: seq<CorrectnessResult> := [];
    for i := 0 to |entries|
      invariant cache.Valid() && fresh(cache)
      invariant FromEntries(cache.shots, host, entries)
      invariant SharedRunsAgree(host, entries) ==>
                  CorrectnessAll(entries[..i], OwnShots(host), plan, baseline, search) == Some(results)
    {
      if SharedRunsAgree(host, entries) {
        OneMoreEntry(entries, i, OwnShots(host), plan, baseline, search);
      }
      var result := RunEntry(cache, host, entries, i, plan, baseline, search);
      match result
      case None =>
        if SharedRunsAgree(host, entries) {
          NoneSticks(entries, i + 1, OwnShots(host), plan, baseline, search);
        }
        return None, cache.calls;
      case Some(r) =>
        results := results + [r];
    }
    assert entries[..|entries|] == entries;
    out, calls := Some(results), cache.calls;
  }

  ghost predicate UnjudgeableHere(host: Host, entry: Json) {
    Unjudgeable(entry, OwnShot(host, entry, false), OwnShot(host, entry, true))
  }

  lemma AllJudged(host: Host, entries: seq<Json>, plan: Json, baseline: Json, search: Search)
    ensures var out := CorrectnessAll(entries, OwnShots(host), plan, baseline, search);
            && (out == None <==> exists i :: 0 <= i < |entries| && UnjudgeableHere(host, entries[i]))
            && (out.Some? ==> |out.value| == |entries| && forall i :: 0 <= i < |entries| ==>
                  JudgedRight(entries[i], OwnShot(host, entries[i], false), OwnShot(host, entries[i], true), plan, baseline, search, out.value[i]))
  {
    hide CorrectnessOf, CorrectnessAll, JudgedRight, Unjudgeable, OwnShot;
    forall i | 0 <= i < |entries|
      ensures var r := CorrectnessOf(entries[i], OwnShots(host), plan, baseline, search);
              && (r == None <==> UnjudgeableHere(host, entries[i]))
              && (r.Some? ==> JudgedRight(entries[i], OwnShot(host, entries[i], false), OwnShot(host, entries[i], true), plan, baseline, search, r.value))
    {
      CorrectnessIff(entries[i], OwnShots(host), plan, baseline, search);
    }
  }

  lemma NoEntries(shot: (Json, bool) -> Shot, plan: Json, baseline: Json, search: Search)
    ensures CorrectnessAll([], shot, plan, baseline, search) == Some([])
  {
  }

  lemma OneMoreEntry(entries: seq<Json>, i: nat, shot: (Json, bool) -> Shot, plan: Json, baseline: Json, search: Search)
    requires i < |entries| && CorrectnessAll(entries[..i], shot, plan, baseline, search).Some?
    ensures CorrectnessAll(entries[..i + 1], shot, plan, baseline, search) ==
            var r := CorrectnessOf(entries[i], shot, plan, baseline, search);
            if r.Some? then Some(CorrectnessAll(entries[..i], shot, plan, baseline, search).value + [r.value]) else None
  {
    hide CorrectnessOf;
    assert entries[..i + 1][..i] == entries[..i];
  }

  lemma NothingCached(host: Host, entries: seq<Json>)
    ensures FromEntries(map[], host, entries)
  {
  }

  lemma NoneSticks(entries: seq<Json>, n: nat, shot: (Json, bool) -> Shot, plan: Json, baseline: Json, search: Search)
    requires n <= |entries| && CorrectnessAll(entries[..n], shot, plan, baseline, search) == None
    ensures CorrectnessAll(entries, shot, plan, baseline, search) == None
    decreases |entries| - n
  {
    hide CorrectnessOf;
    if n == |entries| {
      assert entries[..n] == entries;
    } else {
      assert entries[..n + 1][..n] == entries[..n];
      NoneSticks(entries, n + 1, shot, plan, baseline, search);
    }
  }

  /** One state of one entry: the verdict is that of the entry's own run, when shared runs agree. */
  method RunState(cache: ShellCache, host: Host, entries: seq<Json>, i: nat, on: bool,
                  plan: Json, baseline: Json, search: Search)
    returns (why: Why)
    requires i < |entries| && cache.Valid() && FromEntries(cache.shots, host, entries)
    modifies cache
    ensures cache.Valid() && FromEntries(cache.shots, host, entries)
    ensures SharedRunsAgree(host, entries) ==> why == WhyOf(entries[i], on, OwnShots(host), plan, baseline, search)
  {
    hide OwnShot, EvaluateCondition, FromEntries, SharedRunsAgree, KeyOf, OwnShots, WhyOf;
    ghost var before := cache.shots;
    var shot := cache.RunOnce(host, entries[i], on);
    OneMoreRun(before, cache.shots, host, entries, i, on, shot);
    why := EvaluateCondition(entries[i], shot, plan, baseline, search);
    WhyIs(entries[i], on, host, shot, plan, baseline, search);
  }

  lemma WhyIs(entry: Json, on: bool, host: Host, shot: Shot, plan: Json, baseline: Json, search: Search)
    ensures shot == OwnShot(host, entry, on) ==>
              EvaluateCondition(entry, shot, plan, baseline, search) == WhyOf(entry, on, OwnShots(host), plan, baseline, search)
  {
    hide EvaluateCondition, OwnShot;
  }

  /** What one run leaves in the cache, and what it returns. */
  lemma OneMoreRun(before: map<RunKey, Shot>, after: map<RunKey, Shot>, host: Host, entries: seq<Json>, i: nat, on: bool, shot: Shot)
    requires i < |entries| && FromEntries(before, host, entries)
    requires var key := KeyOf(entries[i], on);
             if key in before then shot == before[key] && after == before
             else shot == OwnShot(host, entries[i], on) && after == before[key := shot]
    ensures FromEntries(after, host, entries)
    ensures SharedRunsAgree(host, entries) ==> shot == OwnShot(host, entries[i], on)
  {
    hide OwnShot;
    var key := KeyOf(entries[i], on);
    assert key.on == on;
    if key in before {
      var j :| 0 <= j < |entries| && KeyOf(entries[j], key.on) == key && before[key] == OwnShot(host, entries[j], key.on);
    } else {
      forall k | k in after
        ensures exists j :: 0 <= j < |entries| && KeyOf(entries[j], k.on) == k && after[k] == OwnShot(host, entries[j], k.on)
      {
        if k == key {
          assert KeyOf(entries[i], k.on) == k;
        } else {
          assert k in before;
        }
      }
    }
  }

  ghost predicate Verdicts(entry: Json, states: seq<bool>, whys: seq<Why>, shot: (Json, bool) -> Shot,
                           plan: Json, baseline: Json, search: Search) {
    |whys| <= |states| && forall k :: 0 <= k < |whys| ==> whys[k] == WhyOf(entry, states[k], shot, plan, baseline, search)
  }

  predicate AllHold(whys: seq<Why>) {
    forall k :: 0 <= k < |whys| ==> whys[k] == Holds
  }

  lemma AllHoldOneMore(whys: seq<Why>, why: Why)
    ensures AllHold(whys + [why]) <==> AllHold(whys) && why == Holds
  {
    var all := whys + [why];
    assert all[|whys|] == why && forall k :: 0 <= k < |whys| ==> all[k] == whys[k];
  }

  lemma OneMoreVerdict(entry: Json, states: seq<bool>, whys: seq<Why>, why: Why, shot: (Json, bool) -> Shot,
                       plan: Json, baseline: Json, search: Search)
    requires Verdicts(entry, states, whys, shot, plan, baseline, search) && |whys| < |states|
    requires why == WhyOf(entry, states[|whys|], shot, plan, baseline, search)
    ensures Verdicts(entry, states, whys + [why], shot, plan, baseline, search)
  {
    hide WhyOf;
  }

  lemma VerdictsDecide(entry: Json, states: seq<bool>, whys: seq<Why>, shot: (Json, bool) -> Shot,
                       plan: Json, baseline: Json, search: Search)
    requires States(Get(entry, "feature_state")) == Some(states)
    requires Verdicts(entry, states, whys, shot, plan, baseline, search)
    ensures Raised in whys ==> CorrectnessOf(entry, shot, plan, baseline, search) == None
    ensures Raised !in whys && |whys| == |states| ==>
              CorrectnessOf(entry, shot, plan, baseline, search)
              == Some(CorrectnessResult(Get(entry, "id"), Get(entry, "kind"), AllHold(whys)))
  {
    hide WhyOf, States, Get, SomeStateRaises, EveryStateHolds, Verdicts, AllHold;
    if Raised in whys {
      OneRaises(entry, states, whys, shot, plan, baseline, search);
    } else if |whys| == |states| {
      NoneRaises(entry, states, whys, shot, plan, baseline, search);
    }
  }

  lemma OneRaises(entry: Json, states: seq<bool>, whys: seq<Why>, shot: (Json, bool) -> Shot,
                  plan: Json, baseline: Json, search: Search)
    requires Verdicts(entry, states, whys, shot, plan, baseline, search) && Raised in whys
    ensures SomeStateRaises(entry, states, shot, plan, baseline, search)
  {
    hide WhyOf;
  }

  lemma NoneRaises(entry: Json, states: seq<bool>, whys: seq<Why>, shot: (Json, bool) -> Shot,
                   plan: Json, baseline: Json, search: Search)
    requires Verdicts(entry, states, whys, shot, plan, baseline, search) && Raised !in whys && |whys| == |states|
    ensures !SomeStateRaises(entry, states, shot, plan, baseline, search)
    ensures EveryStateHolds(entry, states, shot, plan, baseline, search) <==> AllHold(whys)
  {
    hide WhyOf;
  }

  /** One correctness entry, through the cache. */
  method RunEntry(cache: ShellCache, host: Host, entries: seq<Json>, i: nat, plan: Json, baseline: Json, search: Search)
    returns (out: Option<CorrectnessResult>)
    requires i < |entries| && cache.Valid() && FromEntries(cache.shots, host, entries)
    modifies cache
    ensures cache.Valid() && FromEntries(cache.shots, host, entries)
    ensures SharedRunsAgree(host, entries) ==>
              out == CorrectnessOf(entries[i], OwnShots(host), plan, baseline, search)
  {
    hide FromEntries, SharedRunsAgree, WhyOf, OwnShots, States, Get, Verdicts, CorrectnessOf, AllHold;
    var entry := entries[i];
    var states := States(Get(entry, "feature_state"));
    if states == None {
      NoStates(entry, OwnShots(host), plan, baseline, search);
      return None;
    }
    var passed := true;
    ghost var whys: seq<Why> := [];
    NoVerdicts(entry, states.value, OwnShots(host), plan, baseline, search);
    for j := 0 to |states.value|
      invariant cache.Valid() && FromEntries(cache.shots, host, entries)
      invariant |whys| == j && Raised !in whys && (passed <==> AllHold(whys))
      invariant SharedRunsAgree(host, entries) ==>
                  Verdicts(entry, states.value, whys, OwnShots(host), plan, baseline, search)
    {
      var why := RunState(cache, host, entries, i, states.value[j], plan, baseline, search);
      if SharedRunsAgree(host, entries) {
        OneMoreVerdict(entry, states.value, whys, why, OwnShots(host), plan, baseline, search);
        VerdictsDecide(entry, states.value, whys + [why], OwnShots(host), plan, baseline, search);
      }
      if why == Raised {
        return None;
      }
      AllHoldOneMore(whys, why);
      whys := whys + [why];
      passed := passed && why == Holds;
    }
    if SharedRunsAgree(host, entries) {
      VerdictsDecide(entry, states.value, whys, OwnShots(host), plan, baseline, search);
    }
    out := Some(CorrectnessResult(Get(entry, "id"), Get(entry, "kind"), passed));
  }

  lemma NoStates(entry: Json, shot: (Json, bool) -> Shot, plan: Json, baseline: Json, search: Search)
    requires States(Get(entry, "feature_state")) == None
    ensures CorrectnessOf(entry, shot, plan, baseline, search) == None
  {
  }

  lemma NoVerdicts(entry: Json, states: seq<bool>, shot: (Json, bool) -> Shot, plan: Json, baseline: Json, search: Search)
    ensures Verdicts(entry, states, [], shot, plan, baseline, search) && AllHold([])
  {
  }
}
