/** Recording the gem5 baseline and asking whether it is still current (hosts/gem5/adapter.py, `record_baseline`,
    `baseline_workloads`, `baseline_problems`). Files and the checkout may change at any time, also while a
    recording runs. */
module Baseline {
  import opened Wrappers
  import opened Json
  import JP = JsonPointer

  /** What a workload's numbers depend on, as it is now: each manifest workload's fingerprint, and the checkout. */
  datatype World = World(prints: map<string, string>, revision: string)

  function PrintOf(w: World, name: string): Option<string> {
    if name in w.prints then Some(w.prints[name]) else None
  }

  /** One workload's metrics, with where they came from: the revision that was built and the files that were run. */
  datatype Number = Number(value: real, revision: string, isa: string, variant: string, fingerprint: Option<string>)

  /** The baseline document. */
  datatype Doc = Doc(revision: string, isa: string, variant: string, perTrace: map<string, Number>,
                     prints: map<string, Option<string>>)

  /** One recording: the revision its build saw, the files each workload ran on, and the world when it ends. */
  datatype Recording = Recording(names: seq<string>, isa: string, variant: string, built: string,
                                 ranOn: string -> Option<string>, after: World, ok: string -> bool, value: string -> real)

  function Measured(r: Recording, name: string): Number {
    Number(r.value(name), r.built, r.isa, r.variant, r.ranOn(name))
  }

  /* ------------------------------------------------------------ recording */

  /** Every number is the document's revision's, on the files its fingerprint stands for. */
  ghost predicate Sourced(doc: Doc) {
    && doc.perTrace.Keys == doc.prints.Keys
    && forall n :: n in doc.perTrace ==>
         && doc.perTrace[n].revision == doc.revision && doc.perTrace[n].isa == doc.isa
         && doc.perTrace[n].variant == doc.variant && doc.perTrace[n].fingerprint == doc.prints[n]
  }

  /** An edit made while the recording ran is still there when it ends. */
  ghost predicate NotUndone(start: World, r: Recording) {
    forall n :: n in r.names && PrintOf(r.after, n) == PrintOf(start, n) ==> r.ranOn(n) == PrintOf(start, n)
  }

  predicate Moved(start: World, r: Recording) {
    exists n :: n in r.names && PrintOf(r.after, n) != PrintOf(start, n)
  }

  predicate AllRan(r: Recording) {
    forall n :: n in r.names ==> r.ok(n)
  }

  predicate SameSetup(previous: Doc, r: Recording) {
    previous.revision == r.after.revision && previous.isa == r.isa && previous.variant == r.variant
  }

  /** Whether an entry of the old document may be carried into the new one. */
  predicate Carries(previous: Doc, start: World, r: Recording, name: string) {
    && name !in r.names && name in previous.perTrace
    && PrintOf(start, name).Some? && name in previous.prints && previous.prints[name] == PrintOf(start, name)
  }

  /** An old entry is still good: recorded on the revision, the build and the workload files of now. */
  ghost predicate StillGood(previous: Doc, start: World, r: Recording, name: string) {
    && previous.revision == r.after.revision && previous.isa == r.isa && previous.variant == r.variant
    && name in previous.perTrace && name !in r.names
    && name in start.prints && name in previous.prints && previous.prints[name] == Some(start.prints[name])
  }

  lemma StillGoodIff(previous: Doc, start: World, r: Recording, name: string)
    ensures StillGood(previous, start, r, name) <==> SameSetup(previous, r) && Carries(previous, start, r, name)
  {
  }

  /** Something the recording needed changed while it ran, or a workload failed. */
  ghost predicate Spoiled(start: World, r: Recording) {
    exists n :: n in r.names && (!r.ok(n) || (n in start.prints) != (n in r.after.prints)
                                 || (n in start.prints && n in r.after.prints && start.prints[n] != r.after.prints[n]))
  }

  lemma SpoiledIff(start: World, r: Recording)
    ensures Spoiled(start, r) <==> Moved(start, r) || !AllRan(r)
  {
    forall n
      ensures PrintOf(r.after, n) != PrintOf(start, n) <==>
              (n in start.prints) != (n in r.after.prints)
              || (n in start.prints && n in r.after.prints && start.prints[n] != r.after.prints[n])
    {
    }
  }

  ghost predicate IsRecorded(previous: Option<Doc>, start: World, r: Recording, doc: Doc) {
    && doc.revision == r.after.revision && doc.isa == r.isa && doc.variant == r.variant
    && (forall n :: n in doc.perTrace <==>
          n in r.names || (previous.Some? && StillGood(previous.value, start, r, n)))
    && doc.prints.Keys == doc.perTrace.Keys
    && (forall n :: n in r.names ==>
          n in doc.perTrace && doc.perTrace[n] == Measured(r, n) && doc.prints[n] == PrintOf(start, n))
    && (forall n :: n in doc.perTrace && n !in r.names ==>
          previous.Some? && n in previous.value.perTrace
          && doc.perTrace[n] == previous.value.perTrace[n] && doc.prints[n] == PrintOf(start, n))
  }

  ghost predicate CarriedSoFar(previous: Doc, start: World, r: Recording, doc: Doc, done: set<string>) {
    && doc.revision == r.after.revision && doc.isa == r.isa && doc.variant == r.variant
    && (forall n :: n in doc.perTrace <==> n in r.names || (n in done && Carries(previous, start, r, n)))
    && doc.prints.Keys == doc.perTrace.Keys
    && (forall n :: n in r.names ==>
          n in doc.perTrace && doc.perTrace[n] == Measured(r, n) && doc.prints[n] == PrintOf(start, n))
    && (forall n :: n in doc.perTrace && n !in r.names ==>
          n in previous.perTrace && doc.perTrace[n] == previous.perTrace[n] && doc.prints[n] == PrintOf(start, n))
  }

  /** `record_baseline`: what lands on disk. A recording whose files moved, or one that did not run every workload,
      leaves the old document. */
  method RecordBaseline(disk: Option<Doc>, start: World, r: Recording) returns (after: Option<Doc>)
    ensures if Spoiled(start, r) then after == disk
            else after.Some? && IsRecorded(disk, start, r, after.value)
  {
    SpoiledIff(start, r);
    if disk.Some? {
      forall n
        ensures StillGood(disk.value, start, r, n) <==> SameSetup(disk.value, r) && Carries(disk.value, start, r, n)
      {
        StillGoodIff(disk.value, start, r, n);
      }
    }
    var prints := map n | n in r.names :: PrintOf(start, n);
    var good := map n | n in r.names && r.ok(n) :: Measured(r, n);
    var doc := Doc(r.after.revision, r.isa, r.variant, good, prints);
    if Moved(start, r) {
      return disk;
    }
    if !AllRan(r) {
      return disk;
    }
    if disk.Some? && SameSetup(disk.value, r) {
      doc := Carry(disk.value, start, r, doc);
    }
    after := Some(doc);
  }

  /** The carry-forward loop over the old document's entries. */
  method Carry(previous: Doc, start: World, r: Recording, measured: Doc) returns (doc: Doc)
    requires CarriedSoFar(previous, start, r, measured, {})
    ensures CarriedSoFar(previous, start, r, doc, previous.perTrace.Keys)
  {
    hide CarriedSoFar, Carries;
    doc := measured;
    var rest := previous.perTrace.Keys;
    assert previous.perTrace.Keys - rest == {};
    while rest != {}
      invariant rest <= previous.perTrace.Keys
      invariant CarriedSoFar(previous, start, r, doc, previous.perTrace.Keys - rest)
      decreases |rest|
    {
      var name :| name in rest;
      var done := previous.perTrace.Keys - rest;
      OneMoreCarried(previous, start, r, doc, done, name);
      if Carries(previous, start, r, name) {
        doc := doc.(perTrace := doc.perTrace[name := previous.perTrace[name]],
                    prints := doc.prints[name := PrintOf(start, name)]);
      }
      rest := rest - {name};
      assert previous.perTrace.Keys - rest == done + {name};
    }
    assert previous.perTrace.Keys - rest == previous.perTrace.Keys;
  }

  lemma OneMoreCarried(previous: Doc, start: World, r: Recording, doc: Doc, done: set<string>, name: string)
    requires CarriedSoFar(previous, start, r, doc, done) && name in previous.perTrace
    ensures CarriedSoFar(previous, start, r,
              if Carries(previous, start, r, name)
              then doc.(perTrace := doc.perTrace[name := previous.perTrace[name]],
                        prints := doc.prints[name := PrintOf(start, name)])
              else doc, done + {name})
  {
    hide PrintOf;
  }

  /* ------------------------------------------------------------ provenance */

  /** The recording read one revision throughout. Nothing checks this: the document takes the revision it finds after
      the runs, not the one that was built. */
  predicate Steady(r: Recording) {
    r.built == r.after.revision
  }

  /** A recording writes a sourced document exactly when the checkout did not change under it. */
  lemma SourcedIffSteady(disk: Option<Doc>, start: World, r: Recording, doc: Doc)
    requires disk.Some? ==> Sourced(disk.value)
    requires r.names != [] && !Moved(start, r) && NotUndone(start, r) && IsRecorded(disk, start, r, doc)
    ensures Sourced(doc) <==> Steady(r)
  {
    hide PrintOf;
    assert r.names[0] in r.names;
    forall n | n in doc.perTrace && Steady(r)
      ensures doc.perTrace[n].revision == doc.revision && doc.perTrace[n].isa == doc.isa
      ensures doc.perTrace[n].variant == doc.variant && n in doc.prints && doc.perTrace[n].fingerprint == doc.prints[n]
    {
      if n in r.names {
        assert PrintOf(r.after, n) == PrintOf(start, n);
      } else {
        StillGoodIff(disk.value, start, r, n);
      }
    }
  }

  /** A revision change while the runs are on: the numbers are of one revision and the document says another. */
  lemma ChangeUnderneathMislabels()
    ensures var start := World(map["w" := "f"], "old");
            var r := Recording(["w"], "ARM", "opt", "old", (n: string) => Some("f"), World(map["w" := "f"], "new"),
                               (n: string) => true, (n: string) => 1.0);
            var doc := Doc("new", "ARM", "opt", map["w" := Measured(r, "w")], map["w" := Some("f")]);
            && !Moved(start, r) && AllRan(r) && NotUndone(start, r) && IsRecorded(None, start, r, doc)
            && doc.revision == "new" && doc.perTrace["w"].revision == "old"
  {
    var start := World(map["w" := "f"], "old");
    assert "w" in ["w"];
    assert forall n :: n in ["w"] ==> n == "w";
    assert PrintOf(start, "w") == Some("f");
  }

  /* ------------------------------------------------------------ every history */

  datatype Event = Change(world: World) | Record(recording: Recording)

  /** What a history may contain: recordings that name workloads, on a checkout that stays put and files whose edits
      are not undone. */
  ghost predicate Plausible(start: World, events: seq<Event>) {
    forall i: nat :: i < |events| && events[i].Record? ==>
      events[i].recording.names != [] && Steady(events[i].recording)
      && NotUndone(WorldAt(start, events, i), events[i].recording)
  }

  function WorldAt(start: World, events: seq<Event>, i: nat): World
    requires i <= |events|
  {
    if i == 0 then start
    else match events[i - 1]
         case Change(w) => w
         case Record(r) => r.after
  }

  /** Over every sequence of edits, revision changes and recordings, full or partial, the document on disk says where
      each of its numbers came from. */
  method History(start: World, events: seq<Event>) returns (disk: Option<Doc>, world: World)
    requires Plausible(start, events)
    ensures disk.Some? ==> Sourced(disk.value)
    ensures world == WorldAt(start, events, |events|)
  {
    hide Sourced, Moved, AllRan, IsRecorded, NotUndone, Steady;
    disk, world := None, start;
    for i := 0 to |events|
      invariant disk.Some? ==> Sourced(disk.value)
      invariant world == WorldAt(start, events, i)
    {
      match events[i]
      case Change(w) => world := w;
      case Record(r) =>
        var after := RecordBaseline(disk, world, r);
        SpoiledIff(world, r);
        if !Moved(world, r) && AllRan(r) {
          SourcedIffSteady(disk, world, r, after.value);
        }
        disk, world := after, r.after;
    }
  }

  /* ------------------------------------------------------------ is it current? */

  function CorrectnessPointer(entry: Json): Option<string> {
    var pc := Get(entry, "pass_condition");
    if Get(pc, "kind") == Str("metrics_equal_baseline") then Some(TextOf(Get(pc, "baseline_pointer"))) else None
  }

  function PerformancePointer(entry: Json): Option<string> {
    var base := Get(entry, "baseline");
    if Get(base, "source") == Str("recorded") then Some(TextOf(Get(base, "pointer"))) else None
  }

  function TextOf(j: Json): string {
    if j.Str? then j.s else ""
  }

  /** `baseline_pointers`: every pointer through which the test plan reads the baseline. */
  ghost predicate Reads(plan: Json, pointer: string) {
    || (exists e :: e in Items(plan, "correctness") && ComparesWith(e, pointer))
    || (exists e :: e in Items(plan, "performance") && MeasuresAgainst(e, pointer))
  }

  ghost predicate ComparesWith(entry: Json, pointer: string) {
    Get(Get(entry, "pass_condition"), "kind") == Str("metrics_equal_baseline")
    && IsText(Get(Get(entry, "pass_condition"), "baseline_pointer"), pointer)
  }

  ghost predicate MeasuresAgainst(entry: Json, pointer: string) {
    Get(Get(entry, "baseline"), "source") == Str("recorded") && IsText(Get(Get(entry, "baseline"), "pointer"), pointer)
  }

  /** A pointer that is no text counts as the empty one. */
  ghost predicate IsText(j: Json, text: string) {
    j == Str(text) || (!j.Str? && text == "")
  }

  lemma PointersAre(entry: Json, pointer: string)
    ensures CorrectnessPointer(entry) == Some(pointer) <==> ComparesWith(entry, pointer)
    ensures PerformancePointer(entry) == Some(pointer) <==> MeasuresAgainst(entry, pointer)
  {
    hide Get;
  }

  /** The numbers of this workload are among those a pointer reads. */
  ghost predicate Covers(pointer: string, doc: Doc, name: string) {
    var tokens := JP.LenientTokens(pointer);
    if |tokens| >= 2 && tokens[0] == "per_trace" then name == tokens[1] else name in doc.prints || name in doc.perTrace
  }

  /** The workloads a pointer reads: the one it names, or all of them. */
  function WorkloadsOf(pointer: string, doc: Doc): set<string> {
    var tokens := JP.LenientTokens(pointer);
    if |tokens| >= 2 && tokens[0] == "per_trace" then {tokens[1]} else doc.prints.Keys + doc.perTrace.Keys
  }

  ghost predicate Compared(plan: Json, doc: Doc, name: string) {
    exists pointer :: Reads(plan, pointer) && Covers(pointer, doc, name)
  }

  /** `baseline_workloads`. */
  method BaselineWorkloads(plan: Json, doc: Doc) returns (names: set<string>)
    ensures forall n :: n in names <==> Compared(plan, doc, n)
  {
    hide WorkloadsOf, Items;
    var correctness, performance := Items(plan, "correctness"), Items(plan, "performance");
    names := {};
    for i := 0 to |correctness|
      invariant forall n :: n in names <==> exists e, p ::
        e in correctness[..i] && CorrectnessPointer(e) == Some(p) && n in WorkloadsOf(p, doc)
    {
      assert correctness[..i + 1] == correctness[..i] + [correctness[i]];
      var p := CorrectnessPointer(correctness[i]);
      if p.Some? {
        names := names + WorkloadsOf(p.value, doc);
      }
    }
    assert correctness[..|correctness|] == correctness;
    var before := names;
    for i := 0 to |performance|
      invariant forall n :: n in names <==> n in before || exists e, p ::
        e in performance[..i] && PerformancePointer(e) == Some(p) && n in WorkloadsOf(p, doc)
    {
      assert performance[..i + 1] == performance[..i] + [performance[i]];
      var p := PerformancePointer(performance[i]);
      if p.Some? {
        names := names + WorkloadsOf(p.value, doc);
      }
    }
    assert performance[..|performance|] == performance;
    WorkloadsAre(plan, doc, names);
  }

  lemma WorkloadsAre(plan: Json, doc: Doc, names: set<string>)
    requires forall n :: n in names <==>
               || (exists e, p :: e in Items(plan, "correctness") && CorrectnessPointer(e) == Some(p) && n in WorkloadsOf(p, doc))
               || (exists e, p :: e in Items(plan, "performance") && PerformancePointer(e) == Some(p) && n in WorkloadsOf(p, doc))
    ensures forall n :: n in names <==> Compared(plan, doc, n)
  {
    hide Items, CorrectnessPointer, PerformancePointer, ComparesWith, MeasuresAgainst, JP.LenientTokens;
    forall e, p
      ensures CorrectnessPointer(e) == Some(p) <==> ComparesWith(e, p)
      ensures PerformancePointer(e) == Some(p) <==> MeasuresAgainst(e, p)
    {
      PointersAre(e, p);
    }
    forall p, n
      ensures n in WorkloadsOf(p, doc) <==> Covers(p, doc, n)
    {
    }
  }

  datatype Problem = OtherRevision | NotRecorded(name: string) | Changed(name: string)

  ghost predicate HasProblem(plan: Json, doc: Doc, now: World, p: Problem) {
    match p
    case OtherRevision => doc.revision != now.revision
    case NotRecorded(n) => Compared(plan, doc, n) && PrintOf(now, n).Some? && n !in doc.prints
    case Changed(n) => Compared(plan, doc, n) && PrintOf(now, n).Some? && n in doc.prints && doc.prints[n] != PrintOf(now, n)
  }

  /** `baseline_problems`. */
  method BaselineProblems(plan: Json, doc: Doc, now: World) returns (problems: seq<Problem>)
    ensures forall p :: p in problems <==> HasProblem(plan, doc, now, p)
  {
    hide Compared;
    problems := if doc.revision != now.revision then [OtherRevision] else [];
    var names := BaselineWorkloads(plan, doc);
    var rest := names;
    while rest != {}
      invariant rest <= names
      invariant forall p :: p in problems <==>
                  HasProblem(plan, doc, now, p) && (p == OtherRevision || p.name !in rest)
      decreases |rest|
    {
      var n :| n in rest;
      var fingerprint := PrintOf(now, n);
      if fingerprint.Some? {
        if n !in doc.prints {
          problems := problems + [NotRecorded(n)];
        } else if doc.prints[n] != fingerprint {
          problems := problems + [Changed(n)];
        }
      }
      rest := rest - {n};
    }
  }

  /** When there is no problem, every recorded number the test plan compares against, of a workload the manifest
      knows, was measured on the revision and the files of now. */
  lemma NoProblemIsCurrent(plan: Json, doc: Doc, now: World, name: string)
    requires Sourced(doc) && forall p :: !HasProblem(plan, doc, now, p)
    requires Compared(plan, doc, name) && PrintOf(now, name).Some?
    ensures name in doc.perTrace
    ensures doc.perTrace[name].revision == now.revision && doc.perTrace[name].fingerprint == PrintOf(now, name)
  {
    hide Compared, PrintOf;
    assert !HasProblem(plan, doc, now, OtherRevision);
    assert !HasProblem(plan, doc, now, NotRecorded(name));
    assert !HasProblem(plan, doc, now, Changed(name));
  }
}
