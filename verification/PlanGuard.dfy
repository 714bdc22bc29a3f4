/** The plan revision guard (loop/plan_revision.py): which revisions of a plan pair stage 3 may make in place.
    A document is frozen field by field, its keyed collections are append-only, and no rule compares two
    numbers for looseness. The main result is that "guard has no blocking finding" is a preorder, so a
    chain of accepted revisions is itself an allowed revision of the pair it started from. */
module PlanGuard {
  import opened Json

  datatype Severity = Error | Warn
  datatype Code = DeletedEntry | FrozeField | RestatedOffPath | LostFidelity

  /** One step of a finding's pointer; `Entry` is an index or a key taken from the document. */
  datatype Step = Field(name: string) | Entry(index: nat) | Keyed(key: Json)

  datatype Finding = Finding(pointer: seq<Step>, code: Code, severity: Severity)

  /** A port plan and the test plan that judges it. */
  datatype Pair = Pair(port: Json, tests: Json)

  /* ------------------------------------------------------------ field table */

  const FROZEN_TOP: seq<string> := ["feature_name", "host", "host_revision", "spec_inputs_used"]

  datatype Rule = Rule(name: string, key: string, revisable: set<string>)

  const PORT_COLLECTIONS: seq<Rule> := [
    Rule("knobs", "spec_pointer", {"host_knob", "binding", "notes"}),
    Rule("host_knobs", "name", {"host_symbol", "file", "observed", "binding", "range", "description", "notes"}),
    Rule("spec_map", "spec_pointer", {"realization", "hook_ids"}),
    Rule("interface_resolutions", "spec_pointer",
         {"status", "resolution", "rationale", "fidelity_note", "hook_ids"}),
    Rule("open_questions", "question", {"spec_pointer", "cost_if_wrong"})
  ]

  const TESTS_COLLECTIONS: seq<Rule> := [
    Rule("correctness", "id", {"description", "command", "env", "timeout_seconds", "test_file"}),
    Rule("performance", "id", {"description", "run", "timeout_seconds"})
  ]

  function Fidelity(status: Json): nat {
    if status == Str("fallback") then 1 else if status == Str("unavailable") then 2 else 0
  }

  /* ------------------------------------------------------------ the comparer */

  /** A collection as {key value: entry}: the first entry wins, an entry with no key is skipped. */
  function Entries(items: seq<Json>, key: string): (m: map<Json, Json>)
    ensures forall h :: h in m ==> m[h] in items && Get(m[h], key) == h && h != Null
    ensures forall e :: e in items && Get(e, key) != Null ==> Get(e, key) in m
  {
    if items == [] then map[]
    else
      var last := |items| - 1;
      var m := Entries(items[..last], key);
      assert items == items[..last] + [items[last]];
      var h := Get(items[last], key);
      if h == Null || h in m then m else m[h := items[last]]
  }

  /** No two entries of a collection share a key, and every entry has one. */
  ghost predicate UniqueKeys(items: seq<Json>, key: string) {
    && (forall i :: 0 <= i < |items| ==> Get(items[i], key) != Null)
    && (forall i, j :: 0 <= i < j < |items| ==> Get(items[i], key) != Get(items[j], key))
  }

  lemma {:induction false} UniqueKeysFindsEach(items: seq<Json>, key: string, i: nat)
    requires UniqueKeys(items, key) && i < |items|
    ensures Get(items[i], key) in Entries(items, key)
    ensures Entries(items, key)[Get(items[i], key)] == items[i]
  {
    var last := |items| - 1;
    var front := items[..last];
    if i < last {
      UniqueKeysFindsEach(front, key, i);
    } else {
      assert Get(items[last], key) !in Entries(front, key);
    }
  }

  method CollectEntries(items: seq<Json>, key: string) returns (out: map<Json, Json>, order: seq<Json>)
    ensures out == Entries(items, key)
    ensures forall h :: h in order <==> h in out
  {
    out, order := map[], [];
    var i := 0;
    while i < |items|
      invariant 0 <= i <= |items|
      invariant out == Entries(items[..i], key)
      invariant forall h :: h in order <==> h in out
    {
      assert items[..i + 1][..i] == items[..i];
      var h := Get(items[i], key);
      if h != Null && h !in out {
        out := out[h := items[i]];
        order := order + [h];
      }
      i := i + 1;
    }
    assert items[..i] == items;
  }

  /** The position of the first element equal to `e` (Python's list.index). */
  function IndexOf(items: seq<Json>, e: Json): (i: nat)
    requires e in items
    ensures i < |items| && items[i] == e && e !in items[..i]
  {
    if items[0] == e then 0
    else
      assert e in items[1..];
      var i := 1 + IndexOf(items[1..], e);
      assert items[..i] == [items[0]] + items[1..][..i - 1];
      i
  }

  ghost predicate Differs(before: Json, after: Json, field: string, revisable: set<string>) {
    field !in revisable && Get(before, field) != Get(after, field)
  }

  function Deleted(doc: string, name: string): Finding {
    Finding([Field(doc), Field(name)], DeletedEntry, Error)
  }

  function Froze(doc: string, name: string, index: nat, field: string): Finding {
    Finding([Field(doc), Field(name), Entry(index), Field(field)], FrozeField, Error)
  }

  /** What the comparer reports about the old entry keyed `h`. */
  ghost predicate EntryFinding(f: Finding, doc: string, rule: Rule, oldItems: seq<Json>, newItems: seq<Json>, h: Json) {
    var before, after := Entries(oldItems, rule.key), Entries(newItems, rule.key);
    h in before &&
    if h !in after then f == Deleted(doc, rule.name)
    else exists field: string :: Differs(before[h], after[h], field, rule.revisable) &&
                                 f == Froze(doc, rule.name, IndexOf(newItems, after[h]), field)
  }

  ghost predicate CollectionFinding(f: Finding, doc: string, rule: Rule, oldItems: seq<Json>, newItems: seq<Json>) {
    exists h :: EntryFinding(f, doc, rule, oldItems, newItems, h)
  }

  ghost predicate EntryKept(before: Json, after: Json, revisable: set<string>) {
    forall field: string :: !Differs(before, after, field, revisable)
  }

  /** Append-only with a per-entry allowlist, as a relation between two versions of a collection. */
  ghost predicate CollectionKept(rule: Rule, oldItems: seq<Json>, newItems: seq<Json>) {
    var before, after := Entries(oldItems, rule.key), Entries(newItems, rule.key);
    forall h :: h in before ==> h in after && EntryKept(before[h], after[h], rule.revisable)
  }

  lemma SomeMember(findings: seq<Finding>)
    ensures findings != [] ==> exists f :: f in findings
  {
    if findings != [] {
      assert findings[0] in findings;
    }
  }

  lemma CollectionFindingRefuses(f: Finding, doc: string, rule: Rule, oldItems: seq<Json>, newItems: seq<Json>)
    requires CollectionFinding(f, doc, rule, oldItems, newItems)
    ensures Refusal(f)
  {
  }

  lemma EntryFindingIsOld(f: Finding, doc: string, rule: Rule, oldItems: seq<Json>, newItems: seq<Json>, h: Json)
    requires EntryFinding(f, doc, rule, oldItems, newItems, h)
    ensures h in Entries(oldItems, rule.key)
  {
  }

  ghost predicate FoundFor(out: seq<Finding>, doc: string, rule: Rule, oldItems: seq<Json>, newItems: seq<Json>,
                           handles: seq<Json>) {
    forall f :: f in out <==> exists h :: h in handles && EntryFinding(f, doc, rule, oldItems, newItems, h)
  }

  lemma FoundForOneMore(out: seq<Finding>, found: seq<Finding>, doc: string, rule: Rule, oldItems: seq<Json>,
                        newItems: seq<Json>, order: seq<Json>, i: nat)
    requires i < |order| && FoundFor(out, doc, rule, oldItems, newItems, order[..i])
    requires forall f :: f in found <==> EntryFinding(f, doc, rule, oldItems, newItems, order[i])
    ensures FoundFor(out + found, doc, rule, oldItems, newItems, order[..i + 1])
  {
    hide EntryFinding;
    assert forall h :: h in order[..i + 1] <==> h in order[..i] || h == order[i];
    forall f
      ensures f in out + found <==> exists h :: h in order[..i + 1] && EntryFinding(f, doc, rule, oldItems, newItems, h)
    {
      assert f in out + found <==> f in out || f in found;
    }
  }

  /** The comparer reports exactly the deleted entries and the changed frozen fields. */
  method CheckCollection(doc: string, rule: Rule, oldItems: seq<Json>, newItems: seq<Json>)
    returns (out: seq<Finding>)
    ensures forall f :: f in out <==> CollectionFinding(f, doc, rule, oldItems, newItems)
  {
    var before, order := CollectEntries(oldItems, rule.key);
    var after, _ := CollectEntries(newItems, rule.key);
    hide EntryFinding;
    out := [];
    var i := 0;
    while i < |order|
      invariant 0 <= i <= |order|
      invariant FoundFor(out, doc, rule, oldItems, newItems, order[..i])
    {
      var h := order[i];
      var found := CheckEntry(doc, rule, oldItems, newItems, h, before, after);
      FoundForOneMore(out, found, doc, rule, oldItems, newItems, order, i);
      out := out + found;
      i := i + 1;
    }
    assert order[..|order|] == order;
    forall f, h | EntryFinding(f, doc, rule, oldItems, newItems, h)
      ensures h in order
    {
      EntryFindingIsOld(f, doc, rule, oldItems, newItems, h);
    }
  }

  method CheckEntry(doc: string, rule: Rule, oldItems: seq<Json>, newItems: seq<Json>, h: Json,
                    before: map<Json, Json>, after: map<Json, Json>)
    returns (out: seq<Finding>)
    requires before == Entries(oldItems, rule.key) && after == Entries(newItems, rule.key) && h in before
    ensures forall f :: f in out <==> EntryFinding(f, doc, rule, oldItems, newItems, h)
  {
    if h !in after {
      return [Deleted(doc, rule.name)];
    }
    var entry, replacement := before[h], after[h];
    var index := IndexOf(newItems, replacement);
    out := [];
    var all := (if entry.Obj? then entry.fields.Keys else {}) +
               (if replacement.Obj? then replacement.fields.Keys else {});
    var rest := all;
    while rest != {}
      invariant rest <= all
      invariant forall f :: f in out <==>
                  exists field: string :: field in all - rest && Differs(entry, replacement, field, rule.revisable) &&
                                          f == Froze(doc, rule.name, index, field)
      decreases |rest|
    {
      var field :| field in rest;
      if field !in rule.revisable && Get(entry, field) != Get(replacement, field) {
        out := out + [Froze(doc, rule.name, index, field)];
      }
      rest := rest - {field};
    }
    assert forall field: string :: Differs(entry, replacement, field, rule.revisable) ==> field in all;
  }

  lemma KeptHasNoFinding(f: Finding, doc: string, rule: Rule, oldItems: seq<Json>, newItems: seq<Json>)
    requires CollectionKept(rule, oldItems, newItems)
    ensures !CollectionFinding(f, doc, rule, oldItems, newItems)
  {
    forall h
      ensures !EntryFinding(f, doc, rule, oldItems, newItems, h)
    {
      var before := Entries(oldItems, rule.key);
      if h in before {
        assert h in Entries(newItems, rule.key);
      }
    }
  }

  lemma LostHasFinding(doc: string, rule: Rule, oldItems: seq<Json>, newItems: seq<Json>) returns (f: Finding)
    requires !CollectionKept(rule, oldItems, newItems)
    ensures CollectionFinding(f, doc, rule, oldItems, newItems) && f.severity == Error
  {
    var before, after := Entries(oldItems, rule.key), Entries(newItems, rule.key);
    var h :| h in before && !(h in after && EntryKept(before[h], after[h], rule.revisable));
    if h !in after {
      f := Deleted(doc, rule.name);
    } else {
      var field: string :| Differs(before[h], after[h], field, rule.revisable);
      f := Froze(doc, rule.name, IndexOf(newItems, after[h]), field);
    }
    assert EntryFinding(f, doc, rule, oldItems, newItems, h);
  }

  lemma CollectionKeptTrans(rule: Rule, a: seq<Json>, b: seq<Json>, c: seq<Json>)
    requires CollectionKept(rule, a, b) && CollectionKept(rule, b, c)
    ensures CollectionKept(rule, a, c)
  {
    var ea, eb, ec := Entries(a, rule.key), Entries(b, rule.key), Entries(c, rule.key);
    forall h | h in ea
      ensures h in ec && EntryKept(ea[h], ec[h], rule.revisable)
    {
      assert h in eb && h in ec;
      forall field: string
        ensures !Differs(ea[h], ec[h], field, rule.revisable)
      {
        assert !Differs(ea[h], eb[h], field, rule.revisable);
        assert !Differs(eb[h], ec[h], field, rule.revisable);
      }
    }
  }

  /* ------------------------------------------------------------ the bespoke rules */

  predicate Refusal(f: Finding) {
    f.severity == Error && (f.code == DeletedEntry || f.code == FrozeField)
  }

  predicate Refusals(findings: seq<Finding>) {
    forall f :: f in findings ==> Refusal(f)
  }

  ghost predicate TopKept(before: Pair, after: Pair) {
    forall field :: field in FROZEN_TOP ==>
      Get(before.port, field) == Get(after.port, field) && Get(before.tests, field) == Get(after.tests, field)
  }

  /** A frozen field of one of the documents changed, and this says which. */
  ghost predicate TopFinding(f: Finding, before: Pair, after: Pair) {
    exists field :: field in FROZEN_TOP && TopFindingOn(f, before, after, field)
  }

  ghost predicate TopFindingOn(f: Finding, before: Pair, after: Pair, field: string) {
    || (f == Finding([Field("plan"), Field(field)], FrozeField, Error) && Get(before.port, field) != Get(after.port, field))
    || (f == Finding([Field("tests"), Field(field)], FrozeField, Error) && Get(before.tests, field) != Get(after.tests, field))
  }

  method CheckFrozenTop(before: Pair, after: Pair) returns (out: seq<Finding>)
    ensures Refusals(out)
    ensures out == [] <==> TopKept(before, after)
    ensures forall f :: f in out <==> TopFinding(f, before, after)
  {
    hide Get;
    out := [];
    for i := 0 to |FROZEN_TOP|
      invariant forall f :: f in out <==> exists k :: 0 <= k < i && TopFindingOn(f, before, after, FROZEN_TOP[k])
    {
      var field := FROZEN_TOP[i];
      if Get(before.port, field) != Get(after.port, field) {
        out := out + [Finding([Field("plan"), Field(field)], FrozeField, Error)];
      }
      if Get(before.tests, field) != Get(after.tests, field) {
        out := out + [Finding([Field("tests"), Field(field)], FrozeField, Error)];
      }
    }
    TopIsKept(before, after, out);
  }

  lemma TopIsKept(before: Pair, after: Pair, out: seq<Finding>)
    requires forall f :: f in out <==> TopFinding(f, before, after)
    ensures Refusals(out) && (out == [] <==> TopKept(before, after))
  {
    hide Get;
    if out != [] {
      assert out[0] in out;
    }
    if field :| field in FROZEN_TOP && Get(before.port, field) != Get(after.port, field) {
      assert TopFindingOn(Finding([Field("plan"), Field(field)], FrozeField, Error), before, after, field);
      assert TopFinding(Finding([Field("plan"), Field(field)], FrozeField, Error), before, after);
    }
    if field :| field in FROZEN_TOP && Get(before.tests, field) != Get(after.tests, field) {
      assert TopFindingOn(Finding([Field("tests"), Field(field)], FrozeField, Error), before, after, field);
      assert TopFinding(Finding([Field("tests"), Field(field)], FrozeField, Error), before, after);
    }
  }

  /** `[k for k in before if k not in after]`. */
  function Dropped(before: seq<Json>, after: seq<Json>): (out: seq<Json>)
    ensures forall k :: k in out <==> k in before && k !in after
  {
    if before == [] then []
    else (if before[0] in after then [] else [before[0]]) + Dropped(before[1..], after)
  }

  ghost predicate Includes(before: seq<Json>, after: seq<Json>) {
    forall k :: k in before ==> k in after
  }

  ghost predicate MetricFinding(f: Finding, before: Json, after: Json) {
    f == Finding([Field("tests"), Field("metric_keys")], DeletedEntry, Error) &&
    !Includes(Items(before, "metric_keys"), Items(after, "metric_keys"))
  }

  function CheckMetricKeys(before: Json, after: Json): (out: seq<Finding>)
    ensures Refusals(out)
    ensures out == [] <==> Includes(Items(before, "metric_keys"), Items(after, "metric_keys"))
    ensures forall f :: f in out <==> MetricFinding(f, before, after)
  {
    var dropped := Dropped(Items(before, "metric_keys"), Items(after, "metric_keys"));
    assert dropped != [] ==> dropped[0] in dropped;
    if dropped == [] then [] else [Finding([Field("tests"), Field("metric_keys")], DeletedEntry, Error)]
  }

  /** The same number; none, null and the other falsy values all stand for 0. */
  ghost predicate ToleranceKept(before: Json, after: Json) {
    var b, a := Get(before, "baseline_rel_tol"), Get(after, "baseline_rel_tol");
    b == a || (b in FALSY && a in FALSY)
  }

  ghost const FALSY: set<Json> := {Null, Bool(false), Num(0.0), Str(""), Arr([]), Obj(map[])}

  ghost predicate ToleranceFinding(f: Finding, before: Json, after: Json) {
    f == Finding([Field("tests"), Field("baseline_rel_tol")], FrozeField, Error) && !ToleranceKept(before, after)
  }

  function CheckTolerance(before: Json, after: Json): (out: seq<Finding>)
    ensures Refusals(out)
    ensures out == [] <==> ToleranceKept(before, after)
    ensures forall f :: f in out <==> ToleranceFinding(f, before, after)
  {
    FalsyIff(Get(before, "baseline_rel_tol"));
    FalsyIff(Get(after, "baseline_rel_tol"));
    if OrZero(Get(before, "baseline_rel_tol")) == OrZero(Get(after, "baseline_rel_tol")) then []
    else [Finding([Field("tests"), Field("baseline_rel_tol")], FrozeField, Error)]
  }

  ghost predicate SmokeKept(before: Json, after: Json) {
    var b, a := Get(before, "smoke"), Get(after, "smoke");
    Get(b, "trace_list") == Get(a, "trace_list") && Includes(Items(b, "traces"), Items(a, "traces"))
  }

  ghost predicate SmokeFinding(f: Finding, before: Json, after: Json) {
    var b, a := Get(before, "smoke"), Get(after, "smoke");
    || (f == Finding([Field("tests"), Field("smoke"), Field("trace_list")], FrozeField, Error) && Get(b, "trace_list") != Get(a, "trace_list"))
    || (f == Finding([Field("tests"), Field("smoke"), Field("traces")], DeletedEntry, Error) &&
        !Includes(Items(b, "traces"), Items(a, "traces")))
  }

  function CheckSmoke(before: Json, after: Json): (out: seq<Finding>)
    ensures Refusals(out)
    ensures out == [] <==> SmokeKept(before, after)
    ensures forall f :: f in out <==> SmokeFinding(f, before, after)
  {
    var b, a := Get(before, "smoke"), Get(after, "smoke");
    var dropped := Dropped(Items(b, "traces"), Items(a, "traces"));
    assert dropped != [] ==> dropped[0] in dropped;
    (if Get(b, "trace_list") == Get(a, "trace_list") then []
     else [Finding([Field("tests"), Field("smoke"), Field("trace_list")], FrozeField, Error)]) +
    (if dropped == [] then []
     else [Finding([Field("tests"), Field("smoke"), Field("traces")], DeletedEntry, Error)])
  }

  ghost predicate StorageKept(before: Json, after: Json) {
    var b := Get(Get(before, "host_storage"), "baseline_bits");
    b == Null || b == Get(Get(after, "host_storage"), "baseline_bits")
  }

  ghost predicate StorageFinding(f: Finding, before: Json, after: Json) {
    f == Finding([Field("plan"), Field("host_storage"), Field("baseline_bits")], FrozeField, Error) && !StorageKept(before, after)
  }

  function CheckHostStorage(before: Json, after: Json): (out: seq<Finding>)
    ensures Refusals(out)
    ensures out == [] <==> StorageKept(before, after)
    ensures forall f :: f in out <==> StorageFinding(f, before, after)
  {
    var b, a := Get(Get(before, "host_storage"), "baseline_bits"), Get(Get(after, "host_storage"), "baseline_bits");
    if b != Null && a != b
    then [Finding([Field("plan"), Field("host_storage"), Field("baseline_bits")], FrozeField, Error)]
    else []
  }

  ghost predicate EnableKept(before: Json, after: Json) {
    var b, a := Get(before, "feature_enable"), Get(after, "feature_enable");
    Get(b, "name") == Get(a, "name") && Get(b, "macro") == Get(a, "macro")
  }

  ghost predicate OffPathRestated(before: Json, after: Json) {
    var b, a := Get(before, "feature_enable"), Get(after, "feature_enable");
    Get(b, "default_off") != Get(a, "default_off") || Get(b, "off_path") != Get(a, "off_path")
  }

  /** One of these fields of the enabling knob changed, and this says which. */
  ghost predicate FieldFinding(f: Finding, before: Json, after: Json, names: seq<string>, code: Code, severity: Severity) {
    exists name :: name in names && FieldFindingOn(f, before, after, name, code, severity)
  }

  ghost predicate FieldFindingOn(f: Finding, before: Json, after: Json, name: string, code: Code, severity: Severity) {
    Get(before, name) != Get(after, name) && f == OnEnable(name, code, severity)
  }

  function OnEnable(name: string, code: Code, severity: Severity): (f: Finding)
    ensures f.code == code && f.severity == severity
  {
    Finding([Field("plan"), Field("feature_enable"), Field(name)], code, severity)
  }

  /** Such a finding points into `feature_enable` of the port plan. */
  lemma EnableFindingPoints(f: Finding, before: Json, after: Json)
    ensures EnableFinding(f, before, after) ==>
              exists name :: name in ["name", "macro", "default_off", "off_path"]
                             && f.pointer == [Field("plan"), Field("feature_enable"), Field(name)]
  {
    hide Get;
  }

  ghost predicate EnableFinding(f: Finding, before: Json, after: Json) {
    var b, a := Get(before, "feature_enable"), Get(after, "feature_enable");
    || FieldFinding(f, b, a, ["name", "macro"], FrozeField, Error)
    || FieldFinding(f, b, a, ["default_off", "off_path"], RestatedOffPath, Warn)
  }

  ghost predicate FieldsFound(out: seq<Finding>, before: Json, after: Json, names: seq<string>, n: nat, code: Code, severity: Severity)
    requires n <= |names|
  {
    forall f :: f in out <==> exists k :: 0 <= k < n && FieldFindingOn(f, before, after, names[k], code, severity)
  }

  lemma FieldsFoundStep(out: seq<Finding>, before: Json, after: Json, names: seq<string>, i: nat, code: Code, severity: Severity)
    requires i < |names| && FieldsFound(out, before, after, names, i, code, severity)
    ensures FieldsFound(out + (if Get(before, names[i]) != Get(after, names[i]) then [OnEnable(names[i], code, severity)] else []),
                        before, after, names, i + 1, code, severity)
  {
    hide Get, OnEnable;
  }

  lemma FieldsFoundAll(out: seq<Finding>, before: Json, after: Json, names: seq<string>, code: Code, severity: Severity)
    ensures FieldsFound([], before, after, names, 0, code, severity)
    ensures FieldsFound(out, before, after, names, |names|, code, severity) ==>
              forall f :: f in out <==> FieldFinding(f, before, after, names, code, severity)
  {
    hide FieldFindingOn;
  }

  /** One loop of the rule. */
  method CompareFields(before: Json, after: Json, names: seq<string>, code: Code, severity: Severity) returns (out: seq<Finding>)
    ensures forall f :: f in out <==> FieldFinding(f, before, after, names, code, severity)
  {
    hide Get, OnEnable, FieldFinding, FieldsFound;
    out := [];
    FieldsFoundAll([], before, after, names, code, severity);
    for i := 0 to |names|
      invariant FieldsFound(out, before, after, names, i, code, severity)
    {
      FieldsFoundStep(out, before, after, names, i, code, severity);
      if Get(before, names[i]) != Get(after, names[i]) {
        OnEnableIs(names[i], code, severity);
        out := out + [Finding([Field("plan"), Field("feature_enable"), Field(names[i])], code, severity)];
      } else {
        assert out + [] == out;
      }
    }
    FieldsFoundAll(out, before, after, names, code, severity);
  }

  lemma OnEnableIs(name: string, code: Code, severity: Severity)
    ensures OnEnable(name, code, severity) == Finding([Field("plan"), Field("feature_enable"), Field(name)], code, severity)
  {
  }

  /** There is such a finding exactly when one of the fields changed. */
  lemma FieldsChanged(out: seq<Finding>, before: Json, after: Json, names: seq<string>, code: Code, severity: Severity)
    requires forall f :: f in out <==> FieldFinding(f, before, after, names, code, severity)
    ensures out != [] <==> exists name :: name in names && Get(before, name) != Get(after, name)
    ensures forall f :: f in out ==> f.code == code && f.severity == severity
  {
    hide Get, OnEnable;
    if out != [] {
      assert out[0] in out;
    }
    if name :| name in names && Get(before, name) != Get(after, name) {
      var f := OnEnable(name, code, severity);
      assert FieldFindingOn(f, before, after, name, code, severity);
      assert FieldFinding(f, before, after, names, code, severity);
      assert f in out;
    }
  }

  method CheckFeatureEnable(before: Json, after: Json) returns (out: seq<Finding>)
    ensures forall f :: f in out <==> EnableFinding(f, before, after)
    ensures forall f :: f in out ==> Refusal(f) || (f.code == RestatedOffPath && f.severity == Warn)
    ensures (forall f :: f in out ==> f.severity != Error) <==> EnableKept(before, after)
    ensures (exists f :: f in out && f.code == RestatedOffPath) <==> OffPathRestated(before, after)
  {
    hide FieldFinding, Get;
    var b, a := Get(before, "feature_enable"), Get(after, "feature_enable");
    var errors := CompareFields(b, a, ["name", "macro"], FrozeField, Error);
    var warns := CompareFields(b, a, ["default_off", "off_path"], RestatedOffPath, Warn);
    FieldsChanged(errors, b, a, ["name", "macro"], FrozeField, Error);
    FieldsChanged(warns, b, a, ["default_off", "off_path"], RestatedOffPath, Warn);
    OneOfTwo(b, a, "name", "macro");
    OneOfTwo(b, a, "default_off", "off_path");
    out := errors + warns;
    ErrorsThenWarnings(errors, warns);
  }

  lemma OneOfTwo(before: Json, after: Json, x: string, y: string)
    ensures (exists name :: name in [x, y] && Get(before, name) != Get(after, name)) <==>
            Get(before, x) != Get(after, x) || Get(before, y) != Get(after, y)
  {
    hide Get;
    var names := [x, y];
    assert names[0] in names && names[1] in names;
  }

  lemma ErrorsThenWarnings(errors: seq<Finding>, warns: seq<Finding>)
    requires forall f :: f in errors ==> f.code == FrozeField && f.severity == Error
    requires forall f :: f in warns ==> f.code == RestatedOffPath && f.severity == Warn
    ensures forall f :: f in errors + warns <==> f in errors || f in warns
    ensures (forall f :: f in errors + warns ==> f.severity != Error) <==> errors == []
    ensures (exists f :: f in errors + warns && f.code == RestatedOffPath) <==> warns != []
  {
    if errors != [] {
      assert errors[0] in errors + warns;
    }
    if warns != [] {
      assert warns[0] in errors + warns;
    }
  }

  /** Where a performance entry's comparison point comes from. */
  function BaselineSource(entry: Json): Json {
    var b := Get(entry, "baseline");
    if Has(b, "source") then Get(b, "source") else Str("measure_feature_off")
  }

  ghost predicate RunKeptAt(before: Json, after: Json) {
    Get(Get(before, "baseline"), "source") == Str("recorded") ==> Get(before, "run") == Get(after, "run")
  }

  ghost predicate RunOk(before: map<Json, Json>, after: map<Json, Json>, h: Json) {
    h in before && h in after ==> RunKeptAt(before[h], after[h])
  }

  /** `run` may change only on an entry whose two sides both go through it. */
  ghost predicate RunKept(oldItems: seq<Json>, newItems: seq<Json>) {
    forall h :: RunOk(Entries(oldItems, "id"), Entries(newItems, "id"), h)
  }

  /** A recorded entry changed its run, and this says which, at its place in the new collection. */
  ghost predicate RunFinding(f: Finding, oldItems: seq<Json>, newItems: seq<Json>) {
    exists h :: RunFindingOn(f, Entries(oldItems, "id"), Entries(newItems, "id"), newItems, h)
  }

  ghost predicate RunFindingOn(f: Finding, before: map<Json, Json>, after: map<Json, Json>, newItems: seq<Json>, h: Json) {
    h in before && h in after && !RunKeptAt(before[h], after[h]) && after[h] in newItems &&
    f == Froze("tests", "performance", IndexOf(newItems, after[h]), "run")
  }

  ghost predicate RunFound(out: seq<Finding>, before: map<Json, Json>, after: map<Json, Json>, newItems: seq<Json>, handles: seq<Json>) {
    forall f :: f in out <==> exists h :: h in handles && RunFindingOn(f, before, after, newItems, h)
  }

  lemma OneMoreRun(out: seq<Finding>, before: map<Json, Json>, after: map<Json, Json>, newItems: seq<Json>, order: seq<Json>, i: nat)
    requires i < |order| && RunFound(out, before, after, newItems, order[..i])
    ensures forall f :: (forall g :: g in [f] <==> RunFindingOn(g, before, after, newItems, order[i])) ==>
              RunFound(out + [f], before, after, newItems, order[..i + 1])
    ensures (forall g :: !RunFindingOn(g, before, after, newItems, order[i])) ==> RunFound(out, before, after, newItems, order[..i + 1])
  {
    hide RunFindingOn;
    assert forall h :: h in order[..i + 1] <==> h in order[..i] || h == order[i];
  }

  method CheckPerformanceRun(oldItems: seq<Json>, newItems: seq<Json>) returns (out: seq<Finding>)
    ensures Refusals(out)
    ensures out == [] <==> RunKept(oldItems, newItems)
    ensures forall f :: f in out <==> RunFinding(f, oldItems, newItems)
  {
    hide Entries, RunFound, Get, BaselineSource;
    var before, order := CollectEntries(oldItems, "id");
    var after, _ := CollectEntries(newItems, "id");
    out := [];
    NoRunFound(before, after, newItems);
    assert order[..0] == [];
    for i := 0 to |order|
      invariant RunFound(out, before, after, newItems, order[..i])
    {
      var h := order[i];
      OneMoreRun(out, before, after, newItems, order, i);
      if h in after {
        var entry, replacement := before[h], after[h];
        RunKeptIff(entry, replacement);
        if Get(entry, "run") != Get(replacement, "run") && BaselineSource(entry) == Str("recorded") {
          var index := IndexOf(newItems, replacement);
          out := out + [Froze("tests", "performance", index, "run")];
        }
      }
    }
    assert order[..|order|] == order;
    RunIsKept(oldItems, newItems, out, order);
  }

  lemma NoRunFound(before: map<Json, Json>, after: map<Json, Json>, newItems: seq<Json>)
    ensures RunFound([], before, after, newItems, [])
  {
  }

  lemma RunKeptIff(before: Json, after: Json)
    ensures RunKeptAt(before, after) <==> !(Get(before, "run") != Get(after, "run") && BaselineSource(before) == Str("recorded"))
  {
  }

  lemma RunIsKept(oldItems: seq<Json>, newItems: seq<Json>, out: seq<Finding>, order: seq<Json>)
    requires var before, after := Entries(oldItems, "id"), Entries(newItems, "id");
             RunFound(out, before, after, newItems, order) && forall h :: h in order <==> h in before
    ensures Refusals(out)
    ensures out == [] <==> RunKept(oldItems, newItems)
    ensures forall f :: f in out <==> RunFinding(f, oldItems, newItems)
  {
    hide Entries, RunKeptAt;
    var before, after := Entries(oldItems, "id"), Entries(newItems, "id");
    if out != [] {
      assert out[0] in out;
      var h :| h in order && RunFindingOn(out[0], before, after, newItems, h);
      assert !RunOk(before, after, h);
    }
    forall h | !RunOk(before, after, h)
      ensures out != []
    {
      EntryIsThere(newItems, "id", h);
      var f := Froze("tests", "performance", IndexOf(newItems, after[h]), "run");
      assert h in order && RunFindingOn(f, before, after, newItems, h);
      assert f in out;
    }
  }

  lemma EntryIsThere(items: seq<Json>, key: string, h: Json)
    ensures h in Entries(items, key) ==> Entries(items, key)[h] in items
  {
  }

  /** Rejected alternatives by their text; a later duplicate replaces an earlier one. */
  function ByText(items: seq<Json>): map<Json, Json> {
    if items == [] then map[]
    else
      var last := |items| - 1;
      ByText(items[..last])[Get(items[last], "alternative") := items[last]]
  }

  function Rejected(port: Json): map<Json, Json> {
    ByText(Items(Get(port, "structure"), "rejected_alternatives"))
  }

  /** `e` is what the record has on this alternative: the last entry for it. */
  ghost predicate OnRecord(port: Json, text: Json, e: Json) {
    IsLastFor(Items(Get(port, "structure"), "rejected_alternatives"), text, e)
  }

  ghost predicate IsLastFor(items: seq<Json>, text: Json, e: Json) {
    exists i: nat :: IsLastAt(items, i, text) && items[i] == e
  }

  ghost predicate IsLastAt(items: seq<Json>, i: nat, text: Json) {
    i < |items| && Get(items[i], "alternative") == text && forall j :: i < j < |items| ==> Get(items[j], "alternative") != text
  }

  lemma {:induction false} ByTextIff(items: seq<Json>, text: Json, e: Json)
    ensures IsLastFor(items, text, e) <==> text in ByText(items) && ByText(items)[text] == e
  {
    hide Get, IsLastFor;
    if items == [] {
      NothingRecorded(text, e);
    } else {
      var last := |items| - 1;
      ByTextIff(items[..last], text, e);
      assert items == items[..last] + [items[last]];
      RecordedSteps(items[..last], items[last], text, e);
    }
  }

  lemma NothingRecorded(text: Json, e: Json)
    ensures !IsLastFor([], text, e)
  {
  }

  lemma RecordedSteps(front: seq<Json>, d: Json, text: Json, e: Json)
    ensures IsLastFor(front + [d], text, e) <==> if Get(d, "alternative") == text then e == d else IsLastFor(front, text, e)
  {
    hide Get, IsLastAt;
    var items := front + [d];
    forall i: nat
      ensures IsLastAt(items, i, text) <==>
              if i == |front| then Get(d, "alternative") == text else IsLastAt(front, i, text) && Get(d, "alternative") != text
      ensures IsLastAt(front, i, text) ==> i < |front|
    {
      LastAtSteps(front, d, i, text);
    }
    assert IsLastAt(items, |front|, text) <==> Get(d, "alternative") == text;
    if Get(d, "alternative") == text {
      assert items[|front|] == d;
    }
    if Get(d, "alternative") != text && IsLastFor(front, text, e) {
      var i: nat :| IsLastAt(front, i, text) && front[i] == e;
      assert IsLastAt(items, i, text) && items[i] == e;
    }
  }

  lemma LastAtSteps(front: seq<Json>, d: Json, i: nat, text: Json)
    ensures IsLastAt(front + [d], i, text) <==>
            if i == |front| then Get(d, "alternative") == text else IsLastAt(front, i, text) && Get(d, "alternative") != text
    ensures IsLastAt(front, i, text) ==> i < |front|
  {
    hide Get;
    var items := front + [d];
    if i < |front| {
      assert items[i] == front[i] && items[|front|] == d;
      assert forall j :: i < j < |front| ==> items[j] == front[j];
    }
  }

  lemma OnRecordIff(port: Json, text: Json)
    ensures forall e :: OnRecord(port, text, e) <==> text in Rejected(port) && Rejected(port)[text] == e
  {
    hide IsLastFor;
    forall e
      ensures OnRecord(port, text, e) <==> text in Rejected(port) && Rejected(port)[text] == e
    {
      ByTextIff(Items(Get(port, "structure"), "rejected_alternatives"), text, e);
    }
  }

  ghost predicate RejectedKept(before: Json, after: Json) {
    forall text, e :: OnRecord(before, text, e) ==> OnRecord(after, text, e)
  }

  /** An alternative is gone from the record, or reworded there. */
  ghost predicate RejectedFinding(f: Finding, before: Json, after: Json) {
    exists text, e :: OnRecord(before, text, e) && !OnRecord(after, text, e) && RejectedFindingOn(f, after, text)
  }

  ghost predicate RejectedFindingOn(f: Finding, after: Json, text: Json) {
    f.pointer == [Field("plan"), Field("structure"), Field("rejected_alternatives")] && f.severity == Error &&
    f.code == if exists e :: OnRecord(after, text, e) then FrozeField else DeletedEntry
  }

  ghost predicate LostFrom(f: Finding, before: map<Json, Json>, after: map<Json, Json>, text: Json) {
    text in before && (text in after ==> after[text] != before[text]) &&
    f == Finding([Field("plan"), Field("structure"), Field("rejected_alternatives")], if text in after then FrozeField else DeletedEntry, Error)
  }

  method CheckRejectedAlternatives(before: Json, after: Json) returns (out: seq<Finding>)
    ensures Refusals(out)
    ensures out == [] <==> RejectedKept(before, after)
    ensures forall f :: f in out <==> RejectedFinding(f, before, after)
  {
    hide Rejected;
    var b, a := Rejected(before), Rejected(after);
    var pointer := [Field("plan"), Field("structure"), Field("rejected_alternatives")];
    out := [];
    var rest := b.Keys;
    while rest != {}
      invariant rest <= b.Keys
      invariant forall f :: f in out <==> exists text :: text !in rest && LostFrom(f, b, a, text)
      decreases |rest|
    {
      var text :| text in rest;
      if text !in a {
        out := out + [Finding(pointer, DeletedEntry, Error)];
      } else if a[text] != b[text] {
        out := out + [Finding(pointer, FrozeField, Error)];
      }
      rest := rest - {text};
    }
    RejectedIsKept(before, after, out);
  }

  lemma LostIff(f: Finding, before: Json, after: Json, text: Json)
    ensures LostFrom(f, Rejected(before), Rejected(after), text) <==>
            exists e :: OnRecord(before, text, e) && !OnRecord(after, text, e) && RejectedFindingOn(f, after, text)
  {
    hide Rejected, OnRecord;
    OnRecordIff(before, text);
    OnRecordIff(after, text);
    if text in Rejected(before) {
      assert OnRecord(before, text, Rejected(before)[text]);
    }
    if text in Rejected(after) {
      assert OnRecord(after, text, Rejected(after)[text]);
    }
  }

  lemma RejectedIsKept(before: Json, after: Json, out: seq<Finding>)
    requires forall f :: f in out <==> exists text :: LostFrom(f, Rejected(before), Rejected(after), text)
    ensures Refusals(out)
    ensures out == [] <==> RejectedKept(before, after)
    ensures forall f :: f in out <==> RejectedFinding(f, before, after)
  {
    hide Rejected, OnRecord, LostFrom, RejectedFindingOn;
    forall f, text
      ensures LostFrom(f, Rejected(before), Rejected(after), text) <==>
              exists e :: OnRecord(before, text, e) && !OnRecord(after, text, e) && RejectedFindingOn(f, after, text)
    {
      LostIff(f, before, after, text);
    }
    forall f | f in out
      ensures Refusal(f) && RejectedFinding(f, before, after)
    {
      var text :| LostFrom(f, Rejected(before), Rejected(after), text);
      LostRefuses(f, Rejected(before), Rejected(after), text);
    }
    if out != [] {
      assert RejectedFinding(out[0], before, after);
    }
    forall text, e | OnRecord(before, text, e) && !OnRecord(after, text, e)
      ensures out != []
    {
      var f := LostOne(before, after, text);
      assert RejectedFindingOn(f, after, text);
      assert LostFrom(f, Rejected(before), Rejected(after), text);
      assert f in out;
    }
  }

  lemma LostRefuses(f: Finding, before: map<Json, Json>, after: map<Json, Json>, text: Json)
    requires LostFrom(f, before, after, text)
    ensures Refusal(f)
  {
  }

  lemma LostOne(before: Json, after: Json, text: Json) returns (f: Finding)
    ensures RejectedFindingOn(f, after, text)
  {
    hide OnRecord;
    f := Finding([Field("plan"), Field("structure"), Field("rejected_alternatives")],
                 if exists e :: OnRecord(after, text, e) then FrozeField else DeletedEntry, Error);
  }

  ghost predicate DowngradedAt(before: map<Json, Json>, after: map<Json, Json>, h: Json) {
    h in before && h in after &&
    var b, a := Get(before[h], "status"), Get(after[h], "status");
    (a == Str("unavailable") && b != Str("unavailable")) ||
    (a == Str("fallback") && b != Str("fallback") && b != Str("unavailable"))
  }

  ghost predicate Downgraded(oldItems: seq<Json>, newItems: seq<Json>) {
    exists h :: DowngradedAt(Entries(oldItems, "spec_pointer"), Entries(newItems, "spec_pointer"), h)
  }

  /** A resolution was downgraded, and this says which. */
  ghost predicate FidelityFinding(f: Finding, oldItems: seq<Json>, newItems: seq<Json>) {
    exists h :: FidelityFindingOn(f, Entries(oldItems, "spec_pointer"), Entries(newItems, "spec_pointer"), h)
  }

  ghost predicate FidelityFindingOn(f: Finding, before: map<Json, Json>, after: map<Json, Json>, h: Json) {
    DowngradedAt(before, after, h)
    && f == OnStatus(h)
  }

  function OnStatus(h: Json): (f: Finding)
    ensures f.code == LostFidelity && f.severity == Warn
  {
    Finding([Field("plan"), Field("interface_resolutions"), Keyed(h), Field("status")], LostFidelity, Warn)
  }

  lemma OnStatusIs(h: Json)
    ensures OnStatus(h) == Finding([Field("plan"), Field("interface_resolutions"), Keyed(h), Field("status")], LostFidelity, Warn)
  {
  }

  method CheckFidelity(oldItems: seq<Json>, newItems: seq<Json>) returns (out: seq<Finding>)
    ensures forall f :: f in out ==> f.severity == Warn && f.code == LostFidelity
    ensures out != [] <==> Downgraded(oldItems, newItems)
    ensures forall f :: f in out <==> FidelityFinding(f, oldItems, newItems)
  {
    hide Entries, DowngradedAt, Get, Fidelity, OnStatus;
    var before, order := CollectEntries(oldItems, "spec_pointer");
    var after, _ := CollectEntries(newItems, "spec_pointer");
    out := [];
    for i := 0 to |order|
      invariant forall f :: f in out <==> exists k :: 0 <= k < i && FidelityFindingOn(f, before, after, order[k])
    {
      var h := order[i];
      DowngradedIff(before, after, h);
      OnStatusIs(h);
      if h in after && Fidelity(Get(after[h], "status")) > Fidelity(Get(before[h], "status")) {
        out := out + [Finding([Field("plan"), Field("interface_resolutions"), Keyed(h), Field("status")],
                              LostFidelity, Warn)];
      }
    }
    FidelityIs(oldItems, newItems, out, order);
  }

  lemma DowngradedIff(before: map<Json, Json>, after: map<Json, Json>, h: Json)
    ensures DowngradedAt(before, after, h) <==>
            h in before && h in after && Fidelity(Get(after[h], "status")) > Fidelity(Get(before[h], "status"))
  {
  }

  lemma FidelityIs(oldItems: seq<Json>, newItems: seq<Json>, out: seq<Finding>, order: seq<Json>)
    requires var before, after := Entries(oldItems, "spec_pointer"), Entries(newItems, "spec_pointer");
             (forall h :: h in order <==> h in before)
             && forall f :: f in out <==> exists k :: 0 <= k < |order| && FidelityFindingOn(f, before, after, order[k])
    ensures forall f :: f in out ==> f.severity == Warn && f.code == LostFidelity
    ensures out != [] <==> Downgraded(oldItems, newItems)
    ensures forall f :: f in out <==> FidelityFinding(f, oldItems, newItems)
  {
    hide Entries, DowngradedAt, OnStatus;
    var before, after := Entries(oldItems, "spec_pointer"), Entries(newItems, "spec_pointer");
    if out != [] {
      assert out[0] in out;
    }
    forall h | DowngradedAt(before, after, h)
      ensures exists k :: 0 <= k < |order| && order[k] == h
      ensures out != []
    {
      DowngradedIff(before, after, h);
      assert h in order;
      var k :| 0 <= k < |order| && order[k] == h;
      var f := OnStatus(h);
      assert FidelityFindingOn(f, before, after, order[k]);
      assert f in out;
    }
    forall f
      ensures f in out <==> FidelityFinding(f, oldItems, newItems)
    {
      if FidelityFinding(f, oldItems, newItems) {
        var h :| FidelityFindingOn(f, before, after, h);
        DowngradedIff(before, after, h);
        assert h in order;
      }
    }
  }

  ghost predicate RuleKept(rule: Rule, before: Json, after: Json) {
    CollectionKept(rule, Items(before, rule.name), Items(after, rule.name))
  }

  ghost predicate CollectionsKept(rules: seq<Rule>, before: Json, after: Json) {
    forall i :: 0 <= i < |rules| ==> RuleKept(rules[i], before, after)
  }

  /** Everything a revision of the pair in force must keep. */
  ghost predicate Allows(before: Pair, after: Pair) {
    && TopKept(before, after)
    && Includes(Items(before.tests, "metric_keys"), Items(after.tests, "metric_keys"))
    && ToleranceKept(before.tests, after.tests)
    && SmokeKept(before.tests, after.tests)
    && RunKept(Items(before.tests, "performance"), Items(after.tests, "performance"))
    && EnableKept(before.port, after.port)
    && StorageKept(before.port, after.port)
    && RejectedKept(before.port, after.port)
    && CollectionsKept(PORT_COLLECTIONS, before.port, after.port)
    && CollectionsKept(TESTS_COLLECTIONS, before.tests, after.tests)
  }

  /** The findings that refuse a revision. */
  function Blocking(findings: seq<Finding>): (out: seq<Finding>)
    ensures forall f :: f in out <==> f in findings && f.severity == Error
  {
    if findings == [] then []
    else (if findings[0].severity == Error then [findings[0]] else []) + Blocking(findings[1..])
  }

  method CheckRule(doc: string, rule: Rule, oldItems: seq<Json>, newItems: seq<Json>) returns (out: seq<Finding>)
    ensures Refusals(out)
    ensures out == [] <==> CollectionKept(rule, oldItems, newItems)
    ensures forall f :: f in out <==> CollectionFinding(f, doc, rule, oldItems, newItems)
  {
    hide EntryFinding, CollectionKept, CollectionFinding;
    out := CheckCollection(doc, rule, oldItems, newItems);
    forall f | f in out
      ensures Refusal(f)
    {
      CollectionFindingRefuses(f, doc, rule, oldItems, newItems);
    }
    if CollectionKept(rule, oldItems, newItems) {
      forall f
        ensures f !in out
      {
        KeptHasNoFinding(f, doc, rule, oldItems, newItems);
      }
      SomeMember(out);
    }
    if !CollectionKept(rule, oldItems, newItems) {
      ghost var f := LostHasFinding(doc, rule, oldItems, newItems);
    }
  }

  /** The comparer reports this of one of the collections. */
  ghost predicate RulesFinding(f: Finding, doc: string, rules: seq<Rule>, before: Json, after: Json) {
    exists i: nat :: i < |rules| && RuleFinding(f, doc, rules[i], before, after)
  }

  ghost predicate RuleFinding(f: Finding, doc: string, rule: Rule, before: Json, after: Json) {
    CollectionFinding(f, doc, rule, Items(before, rule.name), Items(after, rule.name))
  }

  method CheckCollections(doc: string, rules: seq<Rule>, before: Json, after: Json) returns (out: seq<Finding>)
    ensures Refusals(out)
    ensures out == [] <==> CollectionsKept(rules, before, after)
    ensures forall f :: f in out <==> RulesFinding(f, doc, rules, before, after)
  {
    hide CollectionKept, Items, CollectionFinding;
    out := [];
    for i := 0 to |rules|
      invariant Refusals(out)
      invariant forall f :: f in out <==> exists k: nat :: k < i && RuleFinding(f, doc, rules[k], before, after)
      invariant out == [] <==> forall k :: 0 <= k < i ==> RuleKept(rules[k], before, after)
    {
      var found := CheckRule(doc, rules[i], Items(before, rules[i].name), Items(after, rules[i].name));
      out := out + found;
    }
  }

  /** `guard`: no blocking finding exactly when the revision keeps everything it must; a lost fidelity or a
      restated off path is always recorded and never blocks. */
  /** What the guard reports: the findings of its rules, each at its place. */
  ghost predicate GuardFinding(f: Finding, before: Pair, after: Pair) {
    || TopFinding(f, before, after)
    || MetricFinding(f, before.tests, after.tests)
    || ToleranceFinding(f, before.tests, after.tests)
    || SmokeFinding(f, before.tests, after.tests)
    || RunFinding(f, Items(before.tests, "performance"), Items(after.tests, "performance"))
    || EnableFinding(f, before.port, after.port)
    || StorageFinding(f, before.port, after.port)
    || RejectedFinding(f, before.port, after.port)
    || RulesFinding(f, "plan", PORT_COLLECTIONS, before.port, after.port)
    || RulesFinding(f, "tests", TESTS_COLLECTIONS, before.tests, after.tests)
    || FidelityFinding(f, Items(before.port, "interface_resolutions"), Items(after.port, "interface_resolutions"))
  }

  method Guard(before: Pair, after: Pair) returns (findings: seq<Finding>)
    ensures forall f :: f in findings <==> GuardFinding(f, before, after)
    ensures Blocking(findings) == [] <==> Allows(before, after)
    ensures (exists f :: f in findings && f.code == LostFidelity) <==>
            Downgraded(Items(before.port, "interface_resolutions"), Items(after.port, "interface_resolutions"))
    ensures (exists f :: f in findings && f.code == RestatedOffPath) <==> OffPathRestated(before.port, after.port)
    ensures forall f :: f in findings ==> (f.severity == Warn <==> f.code == LostFidelity || f.code == RestatedOffPath)
  {
    hide TopKept, Includes, ToleranceKept, SmokeKept, RunKept, EnableKept, StorageKept, RejectedKept,
         CollectionsKept, OffPathRestated, Downgraded, Dropped, CheckMetricKeys, CheckTolerance, CheckSmoke,
         CheckHostStorage, Blocking, TopFinding, MetricFinding, ToleranceFinding, SmokeFinding, StorageFinding, EnableFinding,
         RunFinding, RejectedFinding, FidelityFinding, RulesFinding;
    var top := CheckFrozenTop(before, after);
    var run := CheckPerformanceRun(Items(before.tests, "performance"), Items(after.tests, "performance"));
    var keys := CheckMetricKeys(before.tests, after.tests);
    var tolerance, smoke := CheckTolerance(before.tests, after.tests), CheckSmoke(before.tests, after.tests);
    var head := top + keys + tolerance + smoke + run;
    var enable := CheckFeatureEnable(before.port, after.port);
    var storage := CheckHostStorage(before.port, after.port);
    var rejected := CheckRejectedAlternatives(before.port, after.port);
    var port := CheckCollections("plan", PORT_COLLECTIONS, before.port, after.port);
    var tests := CheckCollections("tests", TESTS_COLLECTIONS, before.tests, after.tests);
    var tail := storage + rejected + port + tests;
    var fidelity := CheckFidelity(Items(before.port, "interface_resolutions"),
                                  Items(after.port, "interface_resolutions"));
    findings := head + enable + tail + fidelity;
    BlockingOf(head, enable, tail, fidelity);
    assert fidelity != [] ==> fidelity[0] in findings;
    assert forall f :: f in findings <==> f in head || f in enable || f in tail || f in fidelity;
  }

  lemma BlockingOf(head: seq<Finding>, enable: seq<Finding>, tail: seq<Finding>, fidelity: seq<Finding>)
    requires Refusals(head) && Refusals(tail)
    requires forall f :: f in fidelity ==> f.severity == Warn
    ensures Blocking(head + enable + tail + fidelity) == [] <==>
            head == [] && tail == [] && forall f :: f in enable ==> f.severity != Error
  {
    var all := head + enable + tail + fidelity;
    assert forall f :: f in all <==> f in head || f in enable || f in tail || f in fidelity;
    if head != [] { assert head[0] in all; }
    if tail != [] { assert tail[0] in all; }
    if Blocking(all) != [] { assert Blocking(all)[0] in Blocking(all); }
  }

  /* ------------------------------------------------------------ the guard is a preorder */

  /** `baseline` is frozen, so a revision cannot move an entry between the two cases of the `run` rule. */
  lemma SourceFrozen(before: Json, after: Json)
    requires EntryKept(before, after, TESTS_COLLECTIONS[1].revisable)
    ensures BaselineSource(before) == BaselineSource(after) && Get(before, "baseline") == Get(after, "baseline")
  {
    assert !Differs(before, after, "baseline", TESTS_COLLECTIONS[1].revisable);
  }

  lemma RunKeptTrans(a: seq<Json>, b: seq<Json>, c: seq<Json>)
    requires RunKept(a, b) && RunKept(b, c)
    requires CollectionKept(TESTS_COLLECTIONS[1], a, b)
    ensures RunKept(a, c)
  {
    hide Entries, Differs, BaselineSource;
    var ea, eb, ec := Entries(a, "id"), Entries(b, "id"), Entries(c, "id");
    forall h
      ensures RunOk(ea, ec, h)
    {
      if h in ea && h in ec {
        assert h in eb && EntryKept(ea[h], eb[h], TESTS_COLLECTIONS[1].revisable);
        SourceFrozen(ea[h], eb[h]);
        assert RunOk(ea, eb, h) && RunOk(eb, ec, h);
      }
    }
  }

  /** A pair always allows itself. */
  lemma AllowsReflexive(p: Pair)
    ensures Allows(p, p)
  {
    hide Entries;
    forall rule: Rule, doc: Json
      ensures RuleKept(rule, doc, doc)
    {
    }
  }

  lemma RuleOf(rules: seq<Rule>, i: nat, x: Json, y: Json)
    requires CollectionsKept(rules, x, y) && i < |rules|
    ensures RuleKept(rules[i], x, y)
  {
  }

  lemma CollectionsKeptTrans(rules: seq<Rule>, x: Json, y: Json, z: Json)
    requires CollectionsKept(rules, x, y) && CollectionsKept(rules, y, z)
    ensures CollectionsKept(rules, x, z)
  {
    hide CollectionKept, Items;
    forall i | 0 <= i < |rules|
      ensures RuleKept(rules[i], x, z)
    {
      var rule := rules[i];
      assert RuleKept(rule, x, y) && RuleKept(rule, y, z);
      CollectionKeptTrans(rule, Items(x, rule.name), Items(y, rule.name), Items(z, rule.name));
    }
  }

  /** A revision of an allowed revision is an allowed revision. */
  lemma AllowsTransitive(a: Pair, b: Pair, c: Pair)
    requires Allows(a, b) && Allows(b, c)
    ensures Allows(a, c)
  {
    hide CollectionKept, RunKept, CollectionsKept, Items;
    CollectionsKeptTrans(PORT_COLLECTIONS, a.port, b.port, c.port);
    CollectionsKeptTrans(TESTS_COLLECTIONS, a.tests, b.tests, c.tests);
    assert RuleKept(TESTS_COLLECTIONS[1], a.tests, b.tests) by { RuleOf(TESTS_COLLECTIONS, 1, a.tests, b.tests); }
    RunKeptTrans(Items(a.tests, "performance"), Items(b.tests, "performance"), Items(c.tests, "performance"));
  }

  ghost predicate Chain(pairs: seq<Pair>) {
    forall i :: 0 <= i < |pairs| - 1 ==> Allows(pairs[i], pairs[i + 1])
  }

  /** However many revisions are accepted, the last one is still allowed against the first. */
  lemma {:induction false} ChainAllows(pairs: seq<Pair>)
    requires pairs != [] && Chain(pairs)
    ensures Allows(pairs[0], pairs[|pairs| - 1])
  {
    var last := |pairs| - 1;
    if last == 0 {
      AllowsReflexive(pairs[0]);
    } else {
      ChainAllows(pairs[..last]);
      AllowsTransitive(pairs[0], pairs[last - 1], pairs[last]);
    }
  }
}
