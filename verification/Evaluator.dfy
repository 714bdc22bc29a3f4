/** The screening memo and its log (loop/sr_evaluator.py, `evaluate_program`) and the reader of that log
    (loop/dse.py, `read_candidates_log`). Building and running a candidate is a reply the caller supplies. */
module Evaluator {
  import opened Wrappers
  import opened Header
  import opened CandidateKey

  type Metrics = map<string, real>

  const COMBINED_SCORE: string := "combined_score"

  /** One line of candidates_<time>.jsonl. */
  datatype Entry = Entry(programId: string, key: string, repeatOf: Option<string>, metrics: Metrics, header: string)

  datatype First = First(id: string, metrics: Metrics)

  /** A candidate as promotion reads it back. */
  datatype Candidate = Candidate(evaluation: nat, solution: string, metrics: Metrics)

  function KeyOf(header: string): string {
    JoinNewline(Codes(SplitLines(header)))
  }

  /** Built and screened in full, and not a repeat. */
  predicate Screened(e: Entry, screen: string) {
    e.repeatOf == None && screen in e.metrics
  }

  /** What a reader of the log keeps: a truthy `repeat_of` or a missing screening metric drops the line. */
  predicate Kept(e: Entry, screen: string) {
    !(e.repeatOf.Some? && e.repeatOf.value != "") && screen in e.metrics
  }

  /** One build this search paid for, and whether it ended in a full screening. */
  datatype Build = Build(key: string, screened: bool)

  ghost predicate KeysRight(log: seq<Entry>) {
    forall i :: 0 <= i < |log| ==> log[i].key == KeyOf(log[i].header)
  }

  ghost predicate ScreenedRemembered(screen: string, memo: map<string, First>, log: seq<Entry>) {
    forall i :: 0 <= i < |log| && Screened(log[i], screen) ==>
      log[i].key in memo && memo[log[i].key] == First(log[i].programId, log[i].metrics)
  }

  /** After a key is screened, every later line under it is a repeat of that program. */
  ghost predicate RepeatsFollow(screen: string, log: seq<Entry>) {
    forall i, j :: 0 <= i < j < |log| && Screened(log[i], screen) && log[j].key == log[i].key ==>
      log[j].repeatOf == Some(log[i].programId)
  }

  ghost predicate RepeatsScoreNothing(memo: map<string, First>, log: seq<Entry>) {
    forall i :: 0 <= i < |log| && log[i].repeatOf.Some? ==>
      log[i].metrics == map[COMBINED_SCORE := 0.0] && log[i].key in memo
  }

  ghost predicate BuildsOnce(memo: map<string, First>, builds: seq<Build>) {
    && (forall k :: k in memo <==> Build(k, true) in builds)
    && (forall i, j :: 0 <= i < j < |builds| && builds[i].screened ==> builds[j].key != builds[i].key)
  }

  ghost predicate MemoLogged(screen: string, memo: map<string, First>, log: seq<Entry>) {
    forall k :: k in memo ==> exists i :: 0 <= i < |log| && log[i].key == k && Screened(log[i], screen)
  }

  /** The memo and the log agree, and a key that was screened is a repeat ever after. */
  ghost predicate Consistent(screen: string, memo: map<string, First>, log: seq<Entry>, builds: seq<Build>, lost: nat) {
    && KeysRight(log) && ScreenedRemembered(screen, memo, log) && RepeatsFollow(screen, log)
    && RepeatsScoreNothing(memo, log) && BuildsOnce(memo, builds)
    && (lost == 0 ==> MemoLogged(screen, memo, log))
  }

  lemma RepeatKeepsConsistent(screen: string, memo: map<string, First>, log: seq<Entry>, builds: seq<Build>, lost: nat, e: Entry)
    requires Consistent(screen, memo, log, builds, lost)
    requires e.key == KeyOf(e.header) && e.key in memo && e.metrics == map[COMBINED_SCORE := 0.0]
    requires e.repeatOf == Some(memo[e.key].id)
    ensures Consistent(screen, memo, log + [e], builds, lost)
  {
    hide KeyOf;
    if lost == 0 {
      forall k | k in memo
        ensures exists i :: 0 <= i < |log + [e]| && (log + [e])[i].key == k && Screened((log + [e])[i], screen)
      {
        var i :| 0 <= i < |log| && log[i].key == k && Screened(log[i], screen);
        assert (log + [e])[i] == log[i];
      }
    }
  }

  lemma BuildKeepsMemo(screen: string, memo: map<string, First>, builds: seq<Build>, key: string, first: First, screened: bool)
    requires BuildsOnce(memo, builds) && key !in memo
    ensures BuildsOnce(if screened then memo[key := first] else memo, builds + [Build(key, screened)])
  {
    var all := builds + [Build(key, screened)];
    forall i | 0 <= i < |builds| && builds[i].screened
      ensures builds[i].key != key
    {
      assert builds[i] == Build(builds[i].key, true) && builds[i] in builds;
    }
    forall k
      ensures k in (if screened then memo[key := first] else memo) <==> Build(k, true) in all
    {
      assert Build(k, true) in all <==> Build(k, true) in builds || Build(k, true) == Build(key, screened);
    }
  }

  lemma BuildKeepsLog(screen: string, memo: map<string, First>, log: seq<Entry>, builds: seq<Build>, lost: nat, e: Entry)
    requires Consistent(screen, memo, log, builds, lost)
    requires e.key == KeyOf(e.header) && e.key !in memo && e.repeatOf == None
    ensures var memo' := if screen in e.metrics then memo[e.key := First(e.programId, e.metrics)] else memo;
            && KeysRight(log + [e]) && ScreenedRemembered(screen, memo', log + [e]) && RepeatsFollow(screen, log + [e])
            && RepeatsScoreNothing(memo', log + [e]) && (lost == 0 ==> MemoLogged(screen, memo', log + [e]))
            && ScreenedRemembered(screen, memo', log) && RepeatsScoreNothing(memo', log)
  {
    hide KeyOf, BuildsOnce, MemoLogged;
    if lost == 0 {
      BuildKeepsLogged(screen, memo, log, e);
    }
  }

  lemma BuildKeepsLogged(screen: string, memo: map<string, First>, log: seq<Entry>, e: Entry)
    requires MemoLogged(screen, memo, log) && e.repeatOf == None
    ensures MemoLogged(screen, if screen in e.metrics then memo[e.key := First(e.programId, e.metrics)] else memo, log + [e])
  {
    hide KeyOf;
    var memo' := if screen in e.metrics then memo[e.key := First(e.programId, e.metrics)] else memo;
    forall k | k in memo'
      ensures exists i :: 0 <= i < |log + [e]| && (log + [e])[i].key == k && Screened((log + [e])[i], screen)
    {
      if k in memo {
        var i :| 0 <= i < |log| && log[i].key == k && Screened(log[i], screen);
        assert (log + [e])[i] == log[i];
      } else {
        assert (log + [e])[|log|] == e;
      }
    }
  }

  function Read(log: seq<Entry>, i: nat): Candidate
    requires i < |log|
  {
    Candidate(i, log[i].header, log[i].metrics)
  }

  ghost predicate ReadSoFar(screen: string, log: seq<Entry>, n: nat, out: seq<Candidate>) {
    && n <= |log|
    && (forall i :: 0 <= i < |out| ==> out[i].evaluation < n && Kept(log[out[i].evaluation], screen)
                                       && out[i] == Read(log, out[i].evaluation))
    && (forall i, j :: 0 <= i < j < |out| ==> out[i].evaluation < out[j].evaluation)
    && (forall i :: 0 <= i < n && Kept(log[i], screen) ==> Read(log, i) in out)
  }

  /** The reader's test, though it looks at the truth of `repeat_of`, picks exactly the lines screened in full. */
  lemma KeptIsScreened(screen: string, memo: map<string, First>, log: seq<Entry>, builds: seq<Build>, lost: nat)
    requires screen != COMBINED_SCORE && Consistent(screen, memo, log, builds, lost)
    ensures KeepsScreened(screen, log)
  {
    hide KeyOf, KeysRight, ScreenedRemembered, RepeatsFollow, BuildsOnce, MemoLogged;
  }

  ghost predicate KeepsScreened(screen: string, log: seq<Entry>) {
    forall i :: 0 <= i < |log| ==> (Kept(log[i], screen) <==> Screened(log[i], screen))
  }

  ghost predicate OneToOne(memo: map<string, First>, lost: nat, out: seq<Candidate>) {
    && (forall i, j :: 0 <= i < j < |out| ==> KeyOf(out[i].solution) != KeyOf(out[j].solution))
    && (forall i :: 0 <= i < |out| ==> KeyOf(out[i].solution) in memo)
    && (lost == 0 ==> forall k :: k in memo ==> exists i :: 0 <= i < |out| && KeyOf(out[i].solution) == k)
  }

  lemma ReadIsOneToOne(screen: string, memo: map<string, First>, log: seq<Entry>, builds: seq<Build>, lost: nat,
                       out: seq<Candidate>)
    requires Consistent(screen, memo, log, builds, lost) && ReadSoFar(screen, log, |log|, out)
    requires KeepsScreened(screen, log)
    ensures OneToOne(memo, lost, out)
  {
    hide KeyOf, Kept, RepeatsScoreNothing, BuildsOnce, RepeatsFollow;
    forall i, j | 0 <= i < j < |out|
      ensures KeyOf(out[i].solution) != KeyOf(out[j].solution)
    {
      ScreenedKeysDiffer(screen, memo, log, builds, lost, out[i].evaluation, out[j].evaluation);
    }
    if lost == 0 {
      forall k | k in memo
        ensures exists i :: 0 <= i < |out| && KeyOf(out[i].solution) == k
      {
        var i :| 0 <= i < |log| && log[i].key == k && Screened(log[i], screen);
        assert Read(log, i) in out;
      }
    }
  }

  lemma ScreenedKeysDiffer(screen: string, memo: map<string, First>, log: seq<Entry>, builds: seq<Build>, lost: nat,
                           i: nat, j: nat)
    requires Consistent(screen, memo, log, builds, lost) && i < j < |log|
    requires Screened(log[i], screen) && Screened(log[j], screen)
    ensures log[i].key != log[j].key && KeyOf(log[i].header) != KeyOf(log[j].header)
  {
    hide KeyOf, ScreenedRemembered, RepeatsScoreNothing, BuildsOnce, MemoLogged;
  }

  class ScreeningEvaluator {
    const screen: string
    var memo: map<string, First>
    var log: seq<Entry>
    var builds: seq<Build>
    var lostLines: nat

    ghost predicate Valid()
      reads this
    {
      screen != COMBINED_SCORE && Consistent(screen, memo, log, builds, lostLines)
    }

    constructor (screen: string)
      requires screen != COMBINED_SCORE
      ensures Valid() && this.screen == screen && log == [] && memo == map[] && builds == [] && lostLines == 0
    {
      this.screen := screen;
      memo, log, builds, lostLines := map[], [], [], 0;
    }

    /** `_record`: a line that cannot be written is lost, and the search goes on. */
    method Record(e: Entry, writes: bool)
      modifies this
      ensures memo == old(memo) && builds == old(builds)
      ensures if writes then log == old(log) + [e] && lostLines == old(lostLines)
              else log == old(log) && lostLines == old(lostLines) + 1
    {
      if writes {
        log := log + [e];
      } else {
        lostLines := lostLines + 1;
      }
    }

    /** `evaluate_program`: a key already screened is not built again. */
    method EvaluateProgram(solution: string, programId: string, reply: Metrics, writes: bool) returns (metrics: Metrics)
      requires Valid()
      modifies this
      ensures Valid()
      ensures KeyOf(solution) in old(memo) ==>
                builds == old(builds) && memo == old(memo) && metrics == map[COMBINED_SCORE := 0.0]
      ensures KeyOf(solution) !in old(memo) ==>
                && builds == old(builds) + [Build(KeyOf(solution), screen in reply)] && metrics == reply
                && memo == if screen in reply then old(memo)[KeyOf(solution) := First(programId, reply)] else old(memo)
      ensures old(log) <= log && lostLines >= old(lostLines)
      ensures writes ==> lostLines == old(lostLines)
      ensures writes ==> |log| == |old(log)| + 1 && log[|log| - 1].header == solution
      ensures var first := if KeyOf(solution) in old(memo) then Some(old(memo)[KeyOf(solution)].id) else None;
              if writes then log == old(log) + [Entry(programId, KeyOf(solution), first, metrics, solution)]
              else log == old(log) && lostLines == old(lostLines) + 1
    {
      hide CandidateKey.JoinNewline, CandidateKey.Codes, KeysRight, ScreenedRemembered, RepeatsFollow,
           RepeatsScoreNothing, BuildsOnce, MemoLogged;
      var key := Key(solution);
      if key in memo {
        metrics := map[COMBINED_SCORE := 0.0];
        var e := Entry(programId, key, Some(memo[key].id), metrics, solution);
        RepeatKeepsConsistent(screen, memo, log, builds, lostLines, e);
        Record(e, writes);
      } else {
        var e := Entry(programId, key, None, reply, solution);
        BuildKeepsLog(screen, memo, log, builds, lostLines, e);
        BuildKeepsMemo(screen, memo, builds, key, First(programId, reply), screen in reply);
        builds := builds + [Build(key, screen in reply)];
        metrics := reply;
        if screen in reply {
          memo := memo[key := First(programId, reply)];
        }
        Record(e, writes);
      }
    }

    /** `read_candidates_log`: exactly the lines screened in full, one candidate for each key in the memo. */
    method ReadLog() returns (out: seq<Candidate>)
      requires Valid()
      ensures forall c :: c in out <==> exists i :: 0 <= i < |log| && Screened(log[i], screen) && c == Read(log, i)
      ensures forall i, j :: 0 <= i < j < |out| ==> out[i].evaluation < out[j].evaluation
      ensures OneToOne(memo, lostLines, out)
    {
      hide Consistent, KeyOf, Kept, KeysRight, ScreenedRemembered, RepeatsFollow, RepeatsScoreNothing, BuildsOnce, MemoLogged;
      out := [];
      for n := 0 to |log|
        invariant ReadSoFar(screen, log, n, out)
      {
        if Kept(log[n], screen) {
          out := out + [Candidate(n, log[n].header, log[n].metrics)];
        }
      }
      KeptIsScreened(screen, memo, log, builds, lostLines);
      ReadIsOneToOne(screen, memo, log, builds, lostLines, out);
    }
  }

  /** A whole search, one proposal after another: no key is built again once a build of it was screened, and the
      log's screened lines are one-to-one with the memo. */
  method Search(screen: string, proposals: seq<(string, string, Metrics)>) returns (e: ScreeningEvaluator)
    requires screen != COMBINED_SCORE
    ensures fresh(e) && e.screen == screen && e.Valid() && |e.log| == |proposals|
    ensures forall i, j :: 0 <= i < j < |e.builds| && e.builds[i].screened ==> e.builds[j].key != e.builds[i].key
    ensures forall k :: k in e.memo ==> exists i :: 0 <= i < |e.log| && e.log[i].key == k && Screened(e.log[i], screen)
    ensures forall i, j :: 0 <= i < j < |e.log| && Screened(e.log[i], screen) && Screened(e.log[j], screen) ==>
              e.log[i].key != e.log[j].key
  {
    e := new ScreeningEvaluator(screen);
    for n := 0 to |proposals|
      invariant fresh(e) && e.screen == screen && e.Valid() && e.lostLines == 0 && |e.log| == n
    {
      var metrics := e.EvaluateProgram(proposals[n].0, proposals[n].1, proposals[n].2, true);
    }
  }

  /** A repeat never hides a different candidate: the header it skipped parses like the one it was skipped for. */
  lemma RepeatIsSameCandidate(log: seq<Entry>, i: nat, j: nat)
    requires i < |log| && j < |log| && log[i].key == log[j].key
    requires log[i].key == KeyOf(log[i].header) && log[j].key == KeyOf(log[j].header)
    ensures Alike(ParseLines(SplitLines(log[i].header)), ParseLines(SplitLines(log[j].header)))
  {
    SameKeySameValues(log[i].header, log[j].header);
  }
}
