/** The round loop of the spec review (loop/spec_review.py, `review_spec`): what it accepts, when it stops, and what
    no run of it can do. The reviewers, the deterministic checks and the schema are arbitrary. */
module ReviewLoop {
  import opened Wrappers
  import opened Json
  import opened ReviewGates

  /** What one round's reviewers came back with, after the patches were merged. `noted` is the spec itself, to which
      a refused cut may have added an open question in place. */
  datatype Reviewed = Reviewed(noted: Json, candidate: Json, patched: set<string>, landed: nat, inconsistent: nat,
                               failed: set<string>, quota: bool)

  /** The round, the spec it reviews, and the units a retry round is restricted to. */
  type Reviewers = (nat, Json, Option<set<string>>) -> Reviewed

  datatype Tools = Tools(checks: Json -> seq<Finding>, schema: Json -> nat, prune: Json -> Json)

  datatype Reason = BreaksSchema | LosesDetail | MakesWorse | NothingFell

  datatype Stop = Rejected(why: Reason) | QuotaGone | Converged

  datatype Round = Round(spec: Json, retry: Option<set<string>>, found: Reviewed, stop: Option<Stop>)

  const QUESTIONS: string := "open_questions"

  predicate SameButQuestions(a: Json, b: Json) {
    a == b || (a.Obj? && b.Obj? && a.fields - {QUESTIONS} == b.fields - {QUESTIONS})
  }

  lemma SameButQuestionsIff(a: Json, b: Json)
    ensures SameButQuestions(a, b) <==>
            || a == b
            || (a.Obj? && b.Obj? && forall k: string :: k != "open_questions" ==>
                  (k in a.fields <==> k in b.fields) && (k in a.fields && k in b.fields ==> a.fields[k] == b.fields[k]))
  {
    if a.Obj? && b.Obj? {
      var x, y := a.fields - {QUESTIONS}, b.fields - {QUESTIONS};
      if x == y {
        forall k: string | k != "open_questions"
          ensures (k in a.fields <==> k in b.fields) && (k in a.fields && k in b.fields ==> a.fields[k] == b.fields[k])
        {
          assert k in x <==> k in a.fields;
          assert k in y <==> k in b.fields;
        }
      }
    }
  }

  ghost predicate IgnoresQuestions(checks: Json -> seq<Finding>) {
    forall a: Json, b: Json :: SameButQuestions(a, b) ==> checks(a) == checks(b)
  }

  ghost predicate NotesOnly(reviewers: Reviewers) {
    forall n: nat, spec: Json, retry: Option<set<string>> :: SameButQuestions(spec, reviewers(n, spec, retry).noted)
  }

  predicate Minted(p: Json) {
    Get(p, "origin").Str? && "review:" <= Get(p, "origin").s
  }

  function CountMinted(parameters: seq<Json>): nat {
    if parameters == [] then 0
    else CountMinted(parameters[..|parameters| - 1]) + (if Minted(parameters[|parameters| - 1]) then 1 else 0)
  }

  /** `review_knobs`. */
  function ReviewKnobs(spec: Json): nat {
    CountMinted(Items(spec, "parameters"))
  }

  /** Why a round is refused, if it is. */
  function Refusal(t: Tools, spec: Json, r: Reviewed): Option<Reason> {
    var before, after := t.checks(spec), t.checks(r.candidate);
    if t.schema(r.candidate) > 0 then Some(BreaksSchema)
    else if Uncovered(r.noted, r.candidate, r.patched) != {} then Some(LosesDetail)
    else if IsWorse(before, after) then Some(MakesWorse)
    else if r.inconsistent > 0 && Count(after, Error) >= Count(before, Error) then Some(NothingFell)
    else None
  }

  /** Nothing landed and no knob was minted. */
  predicate Idle(r: Reviewed) {
    r.landed == 0 && ReviewKnobs(r.candidate) == ReviewKnobs(r.noted)
  }

  function StopOf(t: Tools, spec: Json, r: Reviewed): Option<Stop> {
    match Refusal(t, spec, r)
    case Some(why) => Some(Rejected(why))
    case None =>
      if r.quota then Some(QuotaGone)
      else if Idle(r) && r.failed == {} then Some(Converged)
      else None
  }

  function NextRetry(r: Reviewed): Option<set<string>> {
    if r.failed != {} && Idle(r) then Some(r.failed) else None
  }

  /** The spec a round leaves behind. */
  function After(round: Round): Json {
    if round.stop.Some? && round.stop.value.Rejected? then round.found.noted else round.found.candidate
  }

  /* ------------------------------------------------------------ runs */

  ghost predicate IsRound(t: Tools, reviewers: Reviewers, n: nat, round: Round) {
    && round.found == reviewers(n, round.spec, round.retry)
    && round.stop == StopOf(t, round.spec, round.found)
  }

  /** Each round starts from what the one before left, and only the last one stopped. */
  ghost predicate IsRun(t: Tools, reviewers: Reviewers, start: Json, rounds: seq<Round>) {
    && (forall n: nat :: n < |rounds| ==> IsRound(t, reviewers, n, rounds[n]))
    && (rounds != [] ==> rounds[0].spec == start && rounds[0].retry == None)
    && (forall n: nat :: 0 < n < |rounds| ==> Leads(rounds[n - 1], rounds[n]))
  }

  ghost predicate Leads(before: Round, after: Round) {
    before.stop == None && after.spec == before.found.candidate && after.retry == NextRetry(before.found)
  }

  function Left(start: Json, rounds: seq<Round>): Json {
    if rounds == [] then start else After(rounds[|rounds| - 1])
  }

  lemma OneMoreRound(t: Tools, reviewers: Reviewers, start: Json, rounds: seq<Round>, round: Round)
    requires IsRun(t, reviewers, start, rounds) && IsRound(t, reviewers, |rounds|, round)
    requires if rounds == [] then round.spec == start && round.retry == None else Leads(rounds[|rounds| - 1], round)
    ensures IsRun(t, reviewers, start, rounds + [round])
  {
    hide IsRound, Leads;
  }

  lemma NoRounds(t: Tools, reviewers: Reviewers, start: Json)
    ensures IsRun(t, reviewers, start, [])
  {
  }

  /** The parameters a review minted, by where they stand. */
  ghost function MintedAt(spec: Json): set<nat> {
    set i: nat | i < |Items(spec, "parameters")| &&
                 exists unit :: Get(Items(spec, "parameters")[i], "origin") == Str("review:" + unit)
  }

  /** A patch landed or a knob was minted: there is something the next round can build on. */
  ghost predicate Productive(r: Reviewed) {
    r.landed > 0 || |MintedAt(r.candidate)| != |MintedAt(r.noted)|
  }

  /** The round lost something no patch of it names. */
  ghost predicate LostUnnamed(r: Reviewed) {
    exists f :: f in Regressions(r.noted, r.candidate, "") && f.pointer !in r.patched
  }

  /** How a round ends, by what its reviewers came back with. */
  ghost predicate EndsRight(t: Tools, round: Round) {
    var r := round.found;
    && (round.stop == Some(QuotaGone) <==> Sound(t, round) && r.quota)
    && (round.stop == Some(Converged) <==> Sound(t, round) && !r.quota && !Productive(r) && r.failed == {})
    && (round.stop == None <==> Sound(t, round) && !r.quota && (Productive(r) || r.failed != {}))
    && (round.stop == Some(Rejected(BreaksSchema)) <==> t.schema(r.candidate) > 0)
    && (round.stop == Some(Rejected(LosesDetail)) <==> t.schema(r.candidate) == 0 && LostUnnamed(r))
    && (round.stop == Some(Rejected(MakesWorse)) <==>
          t.schema(r.candidate) == 0 && !LostUnnamed(r) && IsWorse(t.checks(round.spec), t.checks(r.candidate)))
    && (round.stop == Some(Rejected(NothingFell)) <==>
          t.schema(r.candidate) == 0 && !LostUnnamed(r) && !IsWorse(t.checks(round.spec), t.checks(r.candidate)) &&
          r.inconsistent > 0 && |Of(t.checks(r.candidate), Error)| >= |Of(t.checks(round.spec), Error)|)
    && (round.stop.Some? && round.stop.value.Rejected? <==> !Sound(t, round))
  }

  /** The round after it: on the candidate, full after a productive round, else the retry of the units that failed. */
  ghost predicate NextRight(before: Round, after: Round) {
    && after.spec == before.found.candidate
    && after.retry == if Productive(before.found) then None else Some(before.found.failed)
  }

  /** A run, by what its reviewers came back with: it ends at the first round that stops, or with the last the limit
      allows, and leaves that round's candidate, or what it reviewed if the candidate was refused. */
  ghost predicate RunsRight(t: Tools, start: Json, limit: nat, rounds: seq<Round>, left: Json) {
    && (limit > 0 ==> rounds != []) && |rounds| <= limit
    && (forall n: nat :: n < |rounds| ==> EndsRight(t, rounds[n]) && (rounds[n].stop != None ==> n == |rounds| - 1))
    && (rounds == [] ==> left == start)
    && (rounds != [] ==>
          var end := rounds[|rounds| - 1];
          && rounds[0].spec == start && rounds[0].retry == None
          && (|rounds| < limit ==> end.stop != None)
          && left == if Sound(t, end) then end.found.candidate else end.found.noted)
    && (forall n: nat :: 0 < n < |rounds| ==> NextRight(rounds[n - 1], rounds[n]))
  }

  function MintedOf(parameters: seq<Json>): set<nat> {
    set i: nat | i < |parameters| && Minted(parameters[i])
  }

  lemma {:induction false} CountIsMinted(parameters: seq<Json>)
    ensures CountMinted(parameters) == |MintedOf(parameters)|
  {
    if parameters == [] {
      assert MintedOf(parameters) == {};
    } else {
      var last := |parameters| - 1;
      CountIsMinted(parameters[..last]);
      var more: set<nat> := if Minted(parameters[last]) then {last} else {};
      assert MintedOf(parameters) == MintedOf(parameters[..last]) + more by {
        forall i: nat ensures i in MintedOf(parameters) <==> i in MintedOf(parameters[..last]) + more {
        }
      }
    }
  }

  lemma MintedIff(p: Json)
    ensures Minted(p) <==> exists unit :: Get(p, "origin") == Str("review:" + unit)
  {
    if Minted(p) {
      var origin := Get(p, "origin").s;
      assert origin == "review:" + origin[7..];
    }
  }

  lemma KnobsAreMinted(spec: Json)
    ensures ReviewKnobs(spec) == |MintedAt(spec)|
  {
    hide Minted;
    var ps := Items(spec, "parameters");
    CountIsMinted(ps);
    forall i: nat | i < |ps|
      ensures Minted(ps[i]) <==> exists unit :: Get(ps[i], "origin") == Str("review:" + unit)
    {
      MintedIff(ps[i]);
    }
    assert MintedAt(spec) == MintedOf(ps);
  }

  lemma IdleIff(r: Reviewed)
    ensures Idle(r) <==> !Productive(r)
  {
    hide ReviewKnobs, MintedAt;
    KnobsAreMinted(r.candidate);
    KnobsAreMinted(r.noted);
  }

  lemma RoundEndsRight(t: Tools, reviewers: Reviewers, n: nat, round: Round)
    requires IsRound(t, reviewers, n, round)
    ensures EndsRight(t, round)
  {
    hide IsWorse, Uncovered, Count, Idle, Productive, Regressions, Of;
    IdleIff(round.found);
    CountIsOf(t.checks(round.found.candidate), Error);
    CountIsOf(t.checks(round.spec), Error);
    UncoveredIff(round.found.noted, round.found.candidate, round.found.patched);
  }

  lemma UncoveredIff(was: Json, now: Json, patched: set<string>)
    ensures Uncovered(was, now, patched) != {} <==> exists f :: f in Regressions(was, now, "") && f.pointer !in patched
  {
    hide Regressions;
    if f :| f in Regressions(was, now, "") && f.pointer !in patched {
      assert f in Uncovered(was, now, patched);
    }
  }

  lemma RunIsRight(t: Tools, reviewers: Reviewers, start: Json, limit: nat, rounds: seq<Round>)
    requires IsRun(t, reviewers, start, rounds) && |rounds| <= limit && (limit > 0 ==> rounds != [])
    requires rounds != [] && |rounds| < limit ==> rounds[|rounds| - 1].stop != None
    ensures RunsRight(t, start, limit, rounds, Left(start, rounds))
  {
    hide EndsRight, Idle, StopOf, Productive, Sound;
    forall n: nat | n < |rounds|
      ensures EndsRight(t, rounds[n]) && (rounds[n].stop != None ==> n == |rounds| - 1)
      ensures Accepted(rounds[n]) <==> Sound(t, rounds[n])
    {
      assert IsRound(t, reviewers, n, rounds[n]);
      RoundEndsRight(t, reviewers, n, rounds[n]);
      AcceptedIsSound(t, reviewers, n, rounds[n]);
      if rounds[n].stop != None {
        OnlyLastStops(t, reviewers, start, rounds, n);
      }
    }
    forall n: nat | 0 < n < |rounds|
      ensures NextRight(rounds[n - 1], rounds[n])
    {
      assert Leads(rounds[n - 1], rounds[n]);
      IdleIff(rounds[n - 1].found);
      assert EndsRight(t, rounds[n - 1]);
      GoesOnWith(t, rounds[n - 1]);
    }
  }

  /** A round that goes on was productive, or some unit failed. */
  lemma GoesOnWith(t: Tools, round: Round)
    requires EndsRight(t, round) && round.stop == None
    ensures Productive(round.found) || round.found.failed != {}
  {
    hide Sound, Productive, Regressions;
  }

  /** `review_spec`. */
  method ReviewSpec(start: Json, limit: nat, t: Tools, reviewers: Reviewers) returns (spec: Json, rounds: seq<Round>)
    requires IgnoresQuestions(t.checks) && NotesOnly(reviewers)
    requires forall doc: Json :: SameButQuestions(doc, t.prune(doc))
    ensures IsRun(t, reviewers, start, rounds) && |rounds| <= limit
    ensures rounds != [] && |rounds| < limit ==> rounds[|rounds| - 1].stop.Some?
    ensures limit > 0 ==> rounds != []
    ensures spec == t.prune(Left(start, rounds))
    ensures RunsRight(t, start, limit, rounds, Left(start, rounds))
    ensures !IsWorse(t.checks(start), t.checks(spec))
    ensures ErrorKeys(t.checks(spec)) <= ErrorKeys(t.checks(start))
  {
    hide IsRun, RunsRight, IsWorse, ErrorKeys, StopOf, NextRetry, SameButQuestions, IgnoresQuestions, NotesOnly;
    spec, rounds := start, [];
    NoRounds(t, reviewers, start);
    var retry := None;
    while |rounds| < limit
      invariant IsRun(t, reviewers, start, rounds) && |rounds| <= limit && spec == Left(start, rounds)
      invariant if rounds == [] then retry == None
                else rounds[|rounds| - 1].stop == None && retry == NextRetry(rounds[|rounds| - 1].found)
      decreases limit - |rounds|
    {
      var found := reviewers(|rounds|, spec, retry);
      var round := Round(spec, retry, found, StopOf(t, spec, found));
      OneMoreRound(t, reviewers, start, rounds, round);
      rounds := rounds + [round];
      match round.stop
      case Some(Rejected(_)) =>
        spec := found.noted;
        break;
      case Some(_) =>
        spec := found.candidate;
        break;
      case None =>
        spec := found.candidate;
        retry := NextRetry(found);
    }
    RunIsRight(t, reviewers, start, limit, rounds);
    RunIsNeverWorse(t, reviewers, start, rounds);
    SameChecks(t, Left(start, rounds), t.prune(Left(start, rounds)));
    spec := t.prune(spec);
    NotWorseIsPreorder(t.checks(start), t.checks(spec), t.checks(spec));
  }

  lemma SameChecks(t: Tools, a: Json, b: Json)
    requires IgnoresQuestions(t.checks) && SameButQuestions(a, b)
    ensures t.checks(a) == t.checks(b)
  {
    hide SameButQuestions;
  }

  /* ------------------------------------------------------------ what no run can do */

  /** What being accepted means. */
  ghost predicate Sound(t: Tools, round: Round) {
    && t.schema(round.found.candidate) == 0
    && Uncovered(round.found.noted, round.found.candidate, round.found.patched) == {}
    && !IsWorse(t.checks(round.spec), t.checks(round.found.candidate))
    && (round.found.inconsistent > 0 ==>
          Count(t.checks(round.found.candidate), Error) < Count(t.checks(round.spec), Error))
  }

  predicate Accepted(round: Round) {
    !(round.stop.Some? && round.stop.value.Rejected?)
  }

  lemma AcceptedIsSound(t: Tools, reviewers: Reviewers, n: nat, round: Round)
    requires IsRound(t, reviewers, n, round)
    ensures Accepted(round) <==> Sound(t, round)
  {
    hide IsWorse, Uncovered, Count, ReviewKnobs;
  }

  /** No round of any run introduces an error key, raises the error count, or loses detail no patch named: every
      accepted candidate is sound, and a refused one leaves the spec as it was but for its open questions. */
  lemma EveryRoundIsSafe(t: Tools, reviewers: Reviewers, start: Json, rounds: seq<Round>, n: nat)
    requires IgnoresQuestions(t.checks) && NotesOnly(reviewers)
    requires IsRun(t, reviewers, start, rounds) && n < |rounds|
    ensures if Accepted(rounds[n]) then Sound(t, rounds[n]) && After(rounds[n]) == rounds[n].found.candidate
            else n == |rounds| - 1 && SameButQuestions(rounds[n].spec, After(rounds[n]))
    ensures !IsWorse(t.checks(rounds[n].spec), t.checks(After(rounds[n])))
  {
    hide IsWorse, Uncovered, Count, ReviewKnobs, SameButQuestions, StopOf, IgnoresQuestions;
    var round := rounds[n];
    assert IsRound(t, reviewers, n, round);
    AcceptedIsSound(t, reviewers, n, round);
    if !Accepted(round) {
      assert SameButQuestions(round.spec, reviewers(n, round.spec, round.retry).noted);
      SameChecks(t, round.spec, round.found.noted);
      NotWorseIsPreorder(t.checks(round.spec), [], []);
      OnlyLastStops(t, reviewers, start, rounds, n);
    }
  }

  lemma OnlyLastStops(t: Tools, reviewers: Reviewers, start: Json, rounds: seq<Round>, n: nat)
    requires IsRun(t, reviewers, start, rounds) && n < |rounds| && rounds[n].stop.Some?
    ensures n == |rounds| - 1
  {
    hide IsRun;
    if n + 1 < |rounds| {
      GoesOn(t, reviewers, start, rounds, n);
    }
  }

  lemma GoesOn(t: Tools, reviewers: Reviewers, start: Json, rounds: seq<Round>, n: nat)
    requires IsRun(t, reviewers, start, rounds) && n + 1 < |rounds|
    ensures rounds[n].stop == None
  {
    hide IsRound;
    assert Leads(rounds[n + 1 - 1], rounds[n + 1]);
  }

  /** The errors of the spec a run leaves, by code and pointer, are among those it started with. */
  lemma {:induction false} RunIsNeverWorse(t: Tools, reviewers: Reviewers, start: Json, rounds: seq<Round>)
    requires IgnoresQuestions(t.checks) && NotesOnly(reviewers) && IsRun(t, reviewers, start, rounds)
    ensures !IsWorse(t.checks(start), t.checks(Left(start, rounds)))
    decreases |rounds|
  {
    hide IsWorse, IsRun, IsRound, IgnoresQuestions, NotesOnly;
    NotWorseIsPreorder(t.checks(start), [], []);
    if rounds != [] {
      var last := |rounds| - 1;
      SpecBefore(t, reviewers, start, rounds);
      RunIsNeverWorse(t, reviewers, start, rounds[..last]);
      EveryRoundIsSafe(t, reviewers, start, rounds, last);
      NotWorseIsPreorder(t.checks(start), t.checks(rounds[last].spec), t.checks(After(rounds[last])));
    }
  }

  lemma SpecBefore(t: Tools, reviewers: Reviewers, start: Json, rounds: seq<Round>)
    requires IsRun(t, reviewers, start, rounds) && rounds != []
    ensures IsRun(t, reviewers, start, rounds[..|rounds| - 1])
    ensures rounds[|rounds| - 1].spec == Left(start, rounds[..|rounds| - 1])
  {
    hide IsRound, NextRetry;
    var last := |rounds| - 1;
    if last > 0 {
      assert Leads(rounds[last - 1], rounds[last]);
    }
  }

  /** An idle round with a dead reviewer is never taken for convergence: when the loop goes on, the next round is
      that reviewer's retry; when it stops, it is because the gate refused it or the backend ran dry. */
  lemma DeadReviewerIsRetried(t: Tools, reviewers: Reviewers, start: Json, rounds: seq<Round>, n: nat)
    requires IsRun(t, reviewers, start, rounds) && n < |rounds|
    requires rounds[n].found.failed != {} && Idle(rounds[n].found)
    ensures rounds[n].stop != Some(Converged)
    ensures n + 1 < |rounds| ==> rounds[n + 1].retry == Some(rounds[n].found.failed)
    ensures rounds[n].stop.Some? ==> n == |rounds| - 1 && (rounds[n].stop.value.Rejected? || rounds[n].found.quota)
  {
    hide Idle, Refusal;
    assert IsRound(t, reviewers, n, rounds[n]);
    if n + 1 < |rounds| {
      assert Leads(rounds[n + 1 - 1], rounds[n + 1]);
    }
  }
}
