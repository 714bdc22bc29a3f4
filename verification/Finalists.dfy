/** Choosing the candidates a finished search promotes (loop/dse.py, `select_finalists`). What a candidate's header
    parses to, and whether it passes the static checks, is the checker's reply. */
module Finalists {
  import opened Wrappers

  /** One program of the population; `screen` is its screening metric, when screening built and scored it. */
  datatype Program = Program(id: string, screen: Option<real>, found: nat, evaluation: nat, solution: string)

  datatype Knobs = Knobs(feature: map<string, int>, host: map<string, int>)

  datatype Report = Report(ok: bool, knobs: Knobs, bits: Option<real>)

  type Checker = string -> Report

  datatype Entry = Entry(program: Program, knobs: Knobs, bits: Option<real>)

  datatype Passed = Passed(notScored: nat, failsStatic: nat, defaults: nat, duplicate: nat)

  datatype Fate = NotScored | FailsStatic | IsDefaults | Qualifies

  function FateOf(check: Checker, defaults: Knobs, p: Program): Fate {
    if p.screen == None then NotScored
    else if !check(p.solution).ok then FailsStatic
    else if check(p.solution).knobs == defaults then IsDefaults
    else Qualifies
  }

  function EntryOf(check: Checker, p: Program): Entry {
    Entry(p, check(p.solution).knobs, check(p.solution).bits)
  }

  function Score(p: Program): real {
    match p.screen
    case None => 0.0
    case Some(s) => s
  }

  /** `_screen_rank`, compared: a ranks strictly before b. */
  predicate Beats(a: Program, b: Program) {
    Score(a) < Score(b)
    || (Score(a) == Score(b) && (a.found < b.found || (a.found == b.found && a.evaluation < b.evaluation)))
  }

  predicate SameRank(a: Program, b: Program) {
    Score(a) == Score(b) && a.found == b.found && a.evaluation == b.evaluation
  }

  lemma RankIsTotal(a: Program, b: Program, c: Program)
    ensures !Beats(a, a)
    ensures !Beats(a, b) && !Beats(b, a) <==> SameRank(a, b)
    ensures !Beats(b, a) && !Beats(c, b) ==> !Beats(c, a)
  {
  }

  /* ------------------------------------------------------------ one candidate per knob setting */

  function CountFate(check: Checker, defaults: Knobs, population: seq<Program>, fate: Fate): nat {
    if population == [] then 0
    else
      var last := |population| - 1;
      CountFate(check, defaults, population[..last], fate) + (if FateOf(check, defaults, population[last]) == fate then 1 else 0)
  }

  lemma {:induction false} EveryoneCounted(check: Checker, defaults: Knobs, population: seq<Program>)
    ensures CountFate(check, defaults, population, NotScored) + CountFate(check, defaults, population, FailsStatic)
            + CountFate(check, defaults, population, IsDefaults) + CountFate(check, defaults, population, Qualifies)
            == |population|
  {
    if population != [] {
      EveryoneCounted(check, defaults, population[..|population| - 1]);
    }
  }

  ghost predicate OnePerKnobs(best: seq<Entry>) {
    forall i, j :: 0 <= i < j < |best| ==> best[i].knobs != best[j].knobs
  }

  ghost predicate FromPopulation(check: Checker, defaults: Knobs, population: seq<Program>, best: seq<Entry>) {
    forall e :: e in best ==>
      e.program in population && FateOf(check, defaults, e.program) == Qualifies && e == EntryOf(check, e.program)
  }

  ghost predicate Represents(check: Checker, e: Entry, p: Program) {
    e.knobs == check(p.solution).knobs && !Beats(p, e.program)
  }

  ghost predicate AllRepresented(check: Checker, defaults: Knobs, population: seq<Program>, best: seq<Entry>) {
    forall p :: p in population && FateOf(check, defaults, p) == Qualifies ==> exists e :: e in best && Represents(check, e, p)
  }

  /** `best` holds, once per knob setting that qualifies, its best-ranked candidate. */
  ghost predicate IsBest(check: Checker, defaults: Knobs, population: seq<Program>, best: seq<Entry>) {
    OnePerKnobs(best) && FromPopulation(check, defaults, population, best) && AllRepresented(check, defaults, population, best)
  }

  ghost predicate Counted(check: Checker, defaults: Knobs, population: seq<Program>, best: seq<Entry>, passed: Passed) {
    && passed.notScored == CountFate(check, defaults, population, NotScored)
    && passed.failsStatic == CountFate(check, defaults, population, FailsStatic)
    && passed.defaults == CountFate(check, defaults, population, IsDefaults)
    && passed.duplicate + |best| == CountFate(check, defaults, population, Qualifies)
  }

  function IndexOf(best: seq<Entry>, knobs: Knobs): (at: Option<nat>)
    ensures at.Some? ==> at.value < |best| && best[at.value].knobs == knobs
    ensures at == None ==> forall e :: e in best ==> e.knobs != knobs
  {
    if best == [] then None
    else
      var last := |best| - 1;
      assert best == best[..last] + [best[last]];
      if best[last].knobs == knobs then Some(last) else IndexOf(best[..last], knobs)
  }

  lemma Extend(population: seq<Program>, n: nat)
    requires n < |population|
    ensures population[..n + 1] == population[..n] + [population[n]] && population[..n + 1][..n] == population[..n]
  {
  }

  lemma Skipped(check: Checker, defaults: Knobs, population: seq<Program>, n: nat, best: seq<Entry>)
    requires n < |population| && IsBest(check, defaults, population[..n], best)
    requires FateOf(check, defaults, population[n]) != Qualifies
    ensures IsBest(check, defaults, population[..n + 1], best)
  {
    hide FateOf, EntryOf, Represents;
    Extend(population, n);
  }

  lemma Fresh(check: Checker, defaults: Knobs, population: seq<Program>, n: nat, best: seq<Entry>)
    requires n < |population| && IsBest(check, defaults, population[..n], best)
    requires FateOf(check, defaults, population[n]) == Qualifies
    requires forall e :: e in best ==> e.knobs != check(population[n].solution).knobs
    ensures IsBest(check, defaults, population[..n + 1], best + [EntryOf(check, population[n])])
  {
    hide FateOf;
    var p := population[n];
    var all := best + [EntryOf(check, p)];
    Extend(population, n);
    RankIsTotal(p, p, p);
    assert EntryOf(check, p) in all && Represents(check, EntryOf(check, p), p);
    forall q | q in population[..n] && FateOf(check, defaults, q) == Qualifies
      ensures exists e :: e in all && Represents(check, e, q)
    {
      var e :| e in best && Represents(check, e, q);
      assert e in all;
    }
  }

  lemma Worse(check: Checker, defaults: Knobs, population: seq<Program>, n: nat, best: seq<Entry>, at: nat)
    requires n < |population| && IsBest(check, defaults, population[..n], best) && at < |best|
    requires best[at].knobs == check(population[n].solution).knobs && !Beats(population[n], best[at].program)
    ensures IsBest(check, defaults, population[..n + 1], best)
  {
    hide FateOf, EntryOf, Beats, OnePerKnobs, FromPopulation;
    Extend(population, n);
    assert best[at] in best && Represents(check, best[at], population[n]);
    assert FromPopulation(check, defaults, population[..n + 1], best) by { FromMore(check, defaults, population, n, best); }
    forall p | p in population[..n + 1] && FateOf(check, defaults, p) == Qualifies
      ensures exists e :: e in best && Represents(check, e, p)
    {
      assert p in population[..n] || p == population[n];
    }
  }

  lemma FromMore(check: Checker, defaults: Knobs, population: seq<Program>, n: nat, best: seq<Entry>)
    requires n < |population| && FromPopulation(check, defaults, population[..n], best)
    ensures FromPopulation(check, defaults, population[..n + 1], best)
  {
    hide FateOf, EntryOf;
    Extend(population, n);
  }

  lemma Better(check: Checker, defaults: Knobs, population: seq<Program>, n: nat, best: seq<Entry>, at: nat)
    requires n < |population| && IsBest(check, defaults, population[..n], best) && at < |best|
    requires FateOf(check, defaults, population[n]) == Qualifies
    requires best[at].knobs == check(population[n].solution).knobs && Beats(population[n], best[at].program)
    ensures IsBest(check, defaults, population[..n + 1], best[at := EntryOf(check, population[n])])
  {
    hide FateOf, OnePerKnobs, FromPopulation, AllRepresented, Beats;
    BetterApart(check, defaults, population, n, best, at);
    BetterRepresents(check, defaults, population, n, best, at);
  }

  lemma BetterApart(check: Checker, defaults: Knobs, population: seq<Program>, n: nat, best: seq<Entry>, at: nat)
    requires n < |population| && at < |best| && FateOf(check, defaults, population[n]) == Qualifies
    requires OnePerKnobs(best) && FromPopulation(check, defaults, population[..n], best)
    requires best[at].knobs == check(population[n].solution).knobs
    ensures var all := best[at := EntryOf(check, population[n])];
            OnePerKnobs(all) && FromPopulation(check, defaults, population[..n + 1], all)
  {
    hide FateOf;
    var all := best[at := EntryOf(check, population[n])];
    Extend(population, n);
    assert forall e :: e in all ==> e in best || e == all[at];
  }

  lemma BetterRepresents(check: Checker, defaults: Knobs, population: seq<Program>, n: nat, best: seq<Entry>, at: nat)
    requires n < |population| && at < |best| && AllRepresented(check, defaults, population[..n], best)
    requires best[at].knobs == check(population[n].solution).knobs && Beats(population[n], best[at].program)
    ensures AllRepresented(check, defaults, population[..n + 1], best[at := EntryOf(check, population[n])])
  {
    hide FateOf, Beats;
    var p := population[n];
    var all := best[at := EntryOf(check, p)];
    Extend(population, n);
    forall q | q in population[..n + 1] && FateOf(check, defaults, q) == Qualifies
      ensures exists e :: e in all && Represents(check, e, q)
    {
      if q in population[..n] {
        var e :| e in best && Represents(check, e, q);
        var i :| 0 <= i < |best| && best[i] == e;
        BeatsOneWay(p, best[at].program);
        RankIsTotal(p, best[at].program, q);
        assert all[i] in all && Represents(check, all[i], q);
      } else {
        RankIsTotal(p, p, p);
        assert all[at] in all && Represents(check, all[at], q);
      }
    }
  }

  /* ------------------------------------------------------------ ranking */

  ghost predicate Ranked(entries: seq<Entry>) {
    forall i, j :: 0 <= i < j < |entries| ==> !Beats(entries[j].program, entries[i].program)
  }

  function Place(sorted: seq<Entry>, e: Entry): (out: seq<Entry>)
    ensures multiset(out) == multiset(sorted) + multiset{e}
  {
    if sorted == [] then [e]
    else
      var last := |sorted| - 1;
      assert sorted == sorted[..last] + [sorted[last]];
      if Beats(e.program, sorted[last].program) then Place(sorted[..last], e) + [sorted[last]] else sorted + [e]
  }

  /** `sorted(best.values(), key=_screen_rank)`. */
  function Rank(entries: seq<Entry>): (out: seq<Entry>)
    ensures multiset(out) == multiset(entries)
  {
    if entries == [] then []
    else
      var last := |entries| - 1;
      assert entries == entries[..last] + [entries[last]];
      Place(Rank(entries[..last]), entries[last])
  }

  lemma {:induction false} PlaceKeepsRanked(sorted: seq<Entry>, e: Entry)
    requires Ranked(sorted)
    ensures Ranked(Place(sorted, e))
  {
    hide Beats;
    if sorted != [] {
      var last := |sorted| - 1;
      if Beats(e.program, sorted[last].program) {
        PlaceKeepsRanked(sorted[..last], e);
        var front := Place(sorted[..last], e);
        forall i | 0 <= i < |front|
          ensures !Beats(sorted[last].program, front[i].program)
        {
          assert front[i] in multiset(front);
          assert front[i] in sorted[..last] || front[i] == e;
          RankIsTotal(e.program, sorted[last].program, e.program);
          BeatsOneWay(e.program, sorted[last].program);
        }
      } else {
        forall i | 0 <= i < |sorted|
          ensures !Beats(e.program, sorted[i].program)
        {
          RankIsTotal(sorted[i].program, sorted[last].program, e.program);
        }
      }
    }
  }

  lemma BeatsOneWay(a: Program, b: Program)
    requires Beats(a, b)
    ensures !Beats(b, a)
  {
  }

  lemma {:induction false} RankIsRanked(entries: seq<Entry>)
    ensures Ranked(Rank(entries))
  {
    if entries != [] {
      RankIsRanked(entries[..|entries| - 1]);
      PlaceKeepsRanked(Rank(entries[..|entries| - 1]), entries[|entries| - 1]);
    }
  }

  lemma RankKeepsMembers(entries: seq<Entry>)
    ensures |Rank(entries)| == |entries| && forall e :: e in Rank(entries) <==> e in entries
  {
    hide Rank;
    assert |multiset(Rank(entries))| == |Rank(entries)| && |multiset(entries)| == |entries|;
    forall e ensures e in Rank(entries) <==> e in entries { assert e in multiset(Rank(entries)) <==> e in multiset(entries); }
  }

  lemma RankKeepsKnobsApart(entries: seq<Entry>)
    requires OnePerKnobs(entries)
    ensures OnePerKnobs(Rank(entries))
  {
    hide Rank;
    var out := Rank(entries);
    RankKeepsMembers(entries);
    forall i, j | 0 <= i < j < |out|
      ensures out[i].knobs != out[j].knobs
    {
      assert out[i] in out && out[j] in out;
      var a :| 0 <= a < |entries| && entries[a] == out[i];
      var b :| 0 <= b < |entries| && entries[b] == out[j];
      if a == b {
        TwiceInOut(out, i, j);
        OnceInEntries(entries, a);
      }
    }
  }

  lemma TwiceInOut(s: seq<Entry>, i: nat, j: nat)
    requires i < j < |s| && s[i] == s[j]
    ensures multiset(s)[s[i]] >= 2
  {
    assert s == s[..j] + [s[j]] + s[j + 1..];
    assert s[i] in s[..j];
  }

  lemma OnceInEntries(s: seq<Entry>, a: nat)
    requires a < |s| && OnePerKnobs(s)
    ensures multiset(s)[s[a]] == 1
  {
    assert s == s[..a] + [s[a]] + s[a + 1..];
    forall e | e in s[..a]
      ensures e != s[a]
    {
      var k :| 0 <= k < a && s[k] == e;
    }
    var back := s[a + 1..];
    forall e | e in back
      ensures e != s[a]
    {
      var k :| a < k < |s| && s[k] == e;
    }
  }

  /** `values[:k]`, for any k. */
  function Slice(entries: seq<Entry>, k: int): (out: seq<Entry>)
    ensures out <= entries
    ensures k >= 0 ==> |out| == if k < |entries| then k else |entries|
  {
    if k >= |entries| then entries
    else if k >= 0 then entries[..k]
    else if |entries| + k > 0 then entries[..|entries| + k] else []
  }

  /* ------------------------------------------------------------ the choice */

  ghost predicate BestOfItsKnobs(check: Checker, defaults: Knobs, population: seq<Program>, e: Entry) {
    forall p :: p in population && FateOf(check, defaults, p) == Qualifies && check(p.solution).knobs == e.knobs
      ==> !Beats(p, e.program)
  }

  ghost predicate Among(out: seq<Entry>, knobs: Knobs) {
    exists e :: e in out && e.knobs == knobs
  }

  ghost predicate NoneBetterLeftOut(check: Checker, defaults: Knobs, population: seq<Program>, out: seq<Entry>) {
    forall p, e :: (p in population && FateOf(check, defaults, p) == Qualifies && e in out
                    && !Among(out, check(p.solution).knobs)) ==> !Beats(p, e.program)
  }

  /** What the finalists promise, against the population they were chosen from. */
  ghost predicate AreFinalists(check: Checker, defaults: Knobs, population: seq<Program>, out: seq<Entry>) {
    && OnePerKnobs(out) && Ranked(out) && FromPopulation(check, defaults, population, out)
    && (forall e :: e in out ==> e.knobs != defaults && BestOfItsKnobs(check, defaults, population, e))
    && NoneBetterLeftOut(check, defaults, population, out)
  }

  /** The knob settings that survive. */
  ghost function Settings(check: Checker, defaults: Knobs, population: seq<Program>): set<Knobs> {
    set p | p in population && FateOf(check, defaults, p) == Qualifies :: check(p.solution).knobs
  }

  function KnobsOf(entries: seq<Entry>): set<Knobs> {
    set e | e in entries :: e.knobs
  }

  lemma {:induction false} OneEachCounts(entries: seq<Entry>)
    requires OnePerKnobs(entries)
    ensures |KnobsOf(entries)| == |entries|
  {
    if entries != [] {
      var last := |entries| - 1;
      OneEachCounts(entries[..last]);
      assert entries == entries[..last] + [entries[last]];
      assert KnobsOf(entries) == KnobsOf(entries[..last]) + {entries[last].knobs};
      assert forall k :: 0 <= k < last ==> entries[..last][k] == entries[k];
    }
  }

  lemma BestIsSettings(check: Checker, defaults: Knobs, population: seq<Program>, best: seq<Entry>)
    requires IsBest(check, defaults, population, best)
    ensures |Settings(check, defaults, population)| == |best|
  {
    hide FateOf, Beats;
    OneEachCounts(best);
    assert KnobsOf(best) == Settings(check, defaults, population) by {
      forall k
        ensures k in KnobsOf(best) <==> k in Settings(check, defaults, population)
      {
        if k in Settings(check, defaults, population) {
          var p :| p in population && FateOf(check, defaults, p) == Qualifies && check(p.solution).knobs == k;
          var e :| e in best && Represents(check, e, p);
        }
      }
    }
  }

  lemma ChosenAreFinalists(check: Checker, defaults: Knobs, population: seq<Program>, best: seq<Entry>, k: int)
    requires IsBest(check, defaults, population, best)
    ensures AreFinalists(check, defaults, population, Slice(Rank(best), k))
    ensures k >= 0 ==> |Slice(Rank(best), k)| == if k < |best| then k else |best|
  {
    hide Rank, Beats, Slice;
    var ranked := Rank(best);
    var out := Slice(ranked, k);
    RankIsRanked(best);
    RankKeepsMembers(best);
    RankKeepsKnobsApart(best);
    forall e | e in out
      ensures e in best
    {
      var i :| 0 <= i < |out| && out[i] == e;
      assert ranked[i] == e && e in ranked;
    }
    forall e | e in out
      ensures e.knobs != defaults && BestOfItsKnobs(check, defaults, population, e)
    {
      RepresentativeIsBest(check, defaults, population, best, e);
    }
    forall p, e | p in population && FateOf(check, defaults, p) == Qualifies && e in out
                  && !Among(out, check(p.solution).knobs)
      ensures !Beats(p, e.program)
    {
      var r :| r in best && Represents(check, r, p);
      LaterRanksBelow(ranked, out, e, r);
      RankIsTotal(e.program, r.program, p);
    }
  }

  lemma RepresentativeIsBest(check: Checker, defaults: Knobs, population: seq<Program>, best: seq<Entry>, e: Entry)
    requires IsBest(check, defaults, population, best) && e in best
    ensures e.knobs != defaults && BestOfItsKnobs(check, defaults, population, e)
  {
    hide Beats;
    forall p | p in population && FateOf(check, defaults, p) == Qualifies && check(p.solution).knobs == e.knobs
      ensures !Beats(p, e.program)
    {
      var r :| r in best && Represents(check, r, p);
      OnlyOne(best, r, e);
    }
  }

  lemma OnlyOne(best: seq<Entry>, a: Entry, b: Entry)
    requires OnePerKnobs(best) && a in best && b in best && a.knobs == b.knobs
    ensures a == b
  {
    var i :| 0 <= i < |best| && best[i] == a;
    var j :| 0 <= j < |best| && best[j] == b;
  }

  lemma LaterRanksBelow(ranked: seq<Entry>, out: seq<Entry>, e: Entry, r: Entry)
    requires Ranked(ranked) && out <= ranked && e in out && r in ranked && !Among(out, r.knobs)
    ensures !Beats(r.program, e.program)
  {
    hide Beats;
    var i :| 0 <= i < |out| && out[i] == e;
    var j :| 0 <= j < |ranked| && ranked[j] == r;
    if j < |out| {
      FrontIsAmong(ranked, out, j);
    }
  }

  lemma FrontIsAmong(ranked: seq<Entry>, out: seq<Entry>, j: nat)
    requires out <= ranked && j < |out|
    ensures Among(out, ranked[j].knobs)
  {
    assert out[j] in out;
  }

  /** The program was scored, passes the checks, and is no copy of the defaults. */
  predicate InTheRunning(check: Checker, defaults: Knobs, p: Program) {
    p.screen.Some? && check(p.solution).ok && check(p.solution).knobs != defaults
  }

  /** No finalist is screened worse than a later one: of two, the first has the lower value, or at the same value was found
      earlier, or in the same iteration was evaluated no later. */
  ghost predicate BestFirst(out: seq<Entry>) {
    forall i, j :: 0 <= i < j < |out| ==>
      && out[i].program.screen.Some? && out[j].program.screen.Some?
      && out[i].program.screen.value <= out[j].program.screen.value
      && (out[i].program.screen.value == out[j].program.screen.value ==>
            out[i].program.found <= out[j].program.found &&
            (out[i].program.found == out[j].program.found ==> out[i].program.evaluation <= out[j].program.evaluation))
  }

  /** A program in the running that could have been in a finalist's stead, of its setting or of one left out, is screened no
      better than the finalist, and at the same value was not found earlier, nor in the same iteration evaluated earlier. */
  ghost predicate NoneBetter(check: Checker, defaults: Knobs, population: seq<Program>, out: seq<Entry>) {
    forall p, e :: p in population && InTheRunning(check, defaults, p) && e in out &&
                   (check(p.solution).knobs == e.knobs || forall f :: f in out ==> f.knobs != check(p.solution).knobs) ==>
      && e.program.screen.Some?
      && e.program.screen.value <= p.screen.value
      && (e.program.screen.value == p.screen.value ==>
            e.program.found <= p.found && (e.program.found == p.found ==> e.program.evaluation <= p.evaluation))
  }

  /** Each finalist is a program in the running with its own setting and bits, and no two share a setting. */
  ghost predicate FromTheRunning(check: Checker, defaults: Knobs, population: seq<Program>, out: seq<Entry>) {
    (forall e :: e in out ==>
       e.program in population && InTheRunning(check, defaults, e.program)
       && e.knobs == check(e.program.solution).knobs && e.bits == check(e.program.solution).bits) &&
    forall i, j :: 0 <= i < j < |out| ==> out[i].knobs != out[j].knobs
  }

  lemma FinalistsByFields(check: Checker, defaults: Knobs, population: seq<Program>, out: seq<Entry>)
    requires AreFinalists(check, defaults, population, out)
    ensures FromTheRunning(check, defaults, population, out)
    ensures BestFirst(out) && NoneBetter(check, defaults, population, out)
  {
    assert FromTheRunning(check, defaults, population, out);
    forall i | 0 <= i < |out|
      ensures out[i].program.screen.Some?
    {
      assert out[i] in out;
    }
    forall p, e | p in population && InTheRunning(check, defaults, p) && e in out &&
                  (check(p.solution).knobs == e.knobs || forall f :: f in out ==> f.knobs != check(p.solution).knobs)
      ensures !Beats(p, e.program)
    {
      if check(p.solution).knobs == e.knobs {
        assert BestOfItsKnobs(check, defaults, population, e);
      } else {
        assert !Among(out, check(p.solution).knobs);
      }
    }
  }

  /** `select_finalists`: every program of the population is a finalist's setting, another surviving setting, or
      counted under the reason it was passed over. The finalists are the best of the running, best first: the lower
      screening value, then the earlier find. */
  method SelectFinalists(population: seq<Program>, check: Checker, defaults: Knobs, topK: int)
    returns (finalists: seq<Entry>, passed: Passed)
    ensures AreFinalists(check, defaults, population, finalists)
    ensures FromTheRunning(check, defaults, population, finalists)
    ensures BestFirst(finalists) && NoneBetter(check, defaults, population, finalists)
    ensures exists best :: IsBest(check, defaults, population, best) && finalists == Slice(Rank(best), topK)
    ensures var settings := |Settings(check, defaults, population)|;
            && passed.notScored + passed.failsStatic + passed.defaults + passed.duplicate + settings == |population|
            && (topK >= 0 ==> |finalists| == if topK < settings then topK else settings)
    ensures passed.notScored == CountFate(check, defaults, population, NotScored)
    ensures passed.failsStatic == CountFate(check, defaults, population, FailsStatic)
    ensures passed.defaults == CountFate(check, defaults, population, IsDefaults)
  {
    hide IsBest, AreFinalists, Beats, Settings, Rank, Slice, IndexOf, FromTheRunning, BestFirst, NoneBetter;
    var best: seq<Entry> := [];
    passed := Passed(0, 0, 0, 0);
    NoneYet(check, defaults);
    assert population[..0] == [];
    for n := 0 to |population|
      invariant IsBest(check, defaults, population[..n], best)
      invariant Counted(check, defaults, population[..n], best, passed)
    {
      var p := population[n];
      Extend(population, n);
      if p.screen == None {
        Skipped(check, defaults, population, n, best);
        passed := passed.(notScored := passed.notScored + 1);
      } else if !check(p.solution).ok {
        Skipped(check, defaults, population, n, best);
        passed := passed.(failsStatic := passed.failsStatic + 1);
      } else if check(p.solution).knobs == defaults {
        Skipped(check, defaults, population, n, best);
        passed := passed.(defaults := passed.defaults + 1);
      } else {
        var at := IndexOf(best, check(p.solution).knobs);
        if at == None {
          Fresh(check, defaults, population, n, best);
          best := best + [EntryOf(check, p)];
        } else {
          passed := passed.(duplicate := passed.duplicate + 1);
          if !Beats(p, best[at.value].program) {
            Worse(check, defaults, population, n, best, at.value);
          } else {
            Better(check, defaults, population, n, best, at.value);
            best := best[at.value := EntryOf(check, p)];
          }
        }
      }
    }
    assert population[..|population|] == population;
    EveryoneCounted(check, defaults, population);
    BestIsSettings(check, defaults, population, best);
    ChosenAreFinalists(check, defaults, population, best, topK);
    FinalistsByFields(check, defaults, population, Slice(Rank(best), topK));
    finalists := Slice(Rank(best), topK);
  }

  lemma NoneYet(check: Checker, defaults: Knobs)
    ensures IsBest(check, defaults, [], []) && Counted(check, defaults, [], [], Passed(0, 0, 0, 0))
  {
  }

  /* ------------------------------------------------------------ the order of the population */

  datatype RankKey = RankKey(score: real, found: nat, evaluation: nat)

  function KeyOf(e: Entry): RankKey {
    RankKey(Score(e.program), e.program.found, e.program.evaluation)
  }

  function Keys(entries: seq<Entry>): (out: seq<RankKey>)
    ensures |out| == |entries| && forall i :: 0 <= i < |out| ==> out[i] == KeyOf(entries[i])
  {
    if entries == [] then [] else Keys(entries[..|entries| - 1]) + [KeyOf(entries[|entries| - 1])]
  }

  predicate Lower(a: RankKey, b: RankKey) {
    a.score < b.score || (a.score == b.score && (a.found < b.found || (a.found == b.found && a.evaluation < b.evaluation)))
  }

  ghost predicate Ascending(keys: seq<RankKey>) {
    forall i, j :: 0 <= i < j < |keys| ==> !Lower(keys[j], keys[i])
  }

  lemma {:induction false} PlaceKeys(sorted: seq<Entry>, e: Entry)
    ensures multiset(Keys(Place(sorted, e))) == multiset(Keys(sorted)) + multiset{KeyOf(e)}
  {
    hide Beats, KeyOf;
    if sorted != [] {
      var last := |sorted| - 1;
      if Beats(e.program, sorted[last].program) {
        PlaceKeys(sorted[..last], e);
        var front := Place(sorted[..last], e);
        assert (front + [sorted[last]])[..|front|] == front;
      } else {
        assert (sorted + [e])[..|sorted|] == sorted;
      }
    }
  }

  lemma {:induction false} RankKeys(entries: seq<Entry>)
    ensures multiset(Keys(Rank(entries))) == multiset(Keys(entries))
  {
    hide KeyOf, Place;
    if entries != [] {
      var last := |entries| - 1;
      RankKeys(entries[..last]);
      PlaceKeys(Rank(entries[..last]), entries[last]);
    }
  }

  lemma {:induction false} AscendingIsUnique(a: seq<RankKey>, b: seq<RankKey>)
    requires Ascending(a) && Ascending(b) && multiset(a) == multiset(b)
    ensures a == b
  {
    SameSize(a, b);
    if a != [] {
      var last := |a| - 1;
      LastIsGreatest(a, b);
      LastIsGreatest(b, a);
      assert a[last] == b[last];
      assert a == a[..last] + [a[last]] && b == b[..last] + [b[last]];
      CancelKey(multiset(a[..last]), multiset(b[..last]), a[last]);
      AscendingIsUnique(a[..last], b[..last]);
    }
  }

  lemma SameSize(a: seq<RankKey>, b: seq<RankKey>)
    requires multiset(a) == multiset(b)
    ensures |a| == |b|
  {
    assert |multiset(a)| == |a| && |multiset(b)| == |b|;
  }

  lemma LastIsGreatest(a: seq<RankKey>, b: seq<RankKey>)
    requires Ascending(b) && multiset(a) == multiset(b) && a != []
    ensures b != [] && !Lower(b[|b| - 1], a[|a| - 1])
  {
    SameSize(a, b);
    assert a[|a| - 1] in multiset(a);
    var i :| 0 <= i < |b| && b[i] == a[|a| - 1];
  }

  lemma CancelKey(x: multiset<RankKey>, y: multiset<RankKey>, k: RankKey)
    requires x + multiset{k} == y + multiset{k}
    ensures x == y
  {
    assert x == (x + multiset{k}) - multiset{k};
    assert y == (y + multiset{k}) - multiset{k};
  }

  /** Every entry of `a` has one in `b` with its knobs and its rank. */
  ghost predicate Mirrors(a: seq<Entry>, b: seq<Entry>) {
    forall i :: 0 <= i < |a| ==> HasMirror(b, a[i])
  }

  ghost predicate HasMirror(b: seq<Entry>, e: Entry) {
    exists j :: 0 <= j < |b| && b[j].knobs == e.knobs && KeyOf(b[j]) == KeyOf(e)
  }

  lemma {:induction false} MirroredKeys(a: seq<Entry>, b: seq<Entry>)
    requires OnePerKnobs(a) && OnePerKnobs(b) && Mirrors(a, b) && Mirrors(b, a)
    ensures multiset(Keys(a)) == multiset(Keys(b))
    decreases |a|
  {
    hide KeyOf;
    if a == [] {
      if b != [] {
        MirrorIsNotEmpty(b, a);
      }
    } else {
      var last := |a| - 1;
      assert HasMirror(b, a[last]);
      var j :| 0 <= j < |b| && b[j].knobs == a[last].knobs && KeyOf(b[j]) == KeyOf(a[last]);
      var rest := b[..j] + b[j + 1..];
      WithoutMirrored(a, b, j);
      MirroredKeys(a[..last], rest);
      KeysWithout(b, j);
    }
  }

  lemma MirrorIsNotEmpty(a: seq<Entry>, b: seq<Entry>)
    requires Mirrors(a, b) && a != []
    ensures b != []
  {
    hide KeyOf;
    assert HasMirror(b, a[0]);
  }

  lemma WithoutAt(b: seq<Entry>, j: nat)
    requires j < |b|
    ensures var rest := b[..j] + b[j + 1..];
            |rest| == |b| - 1 && forall k :: 0 <= k < |rest| ==> rest[k] == b[if k < j then k else k + 1]
  {
  }

  lemma FrontMirrors(a: seq<Entry>, b: seq<Entry>, j: nat, i: nat)
    requires OnePerKnobs(a) && Mirrors(a, b) && i < |a| - 1 && j < |b| && b[j].knobs == a[|a| - 1].knobs
    ensures HasMirror(b[..j] + b[j + 1..], a[i])
  {
    hide KeyOf;
    var rest := b[..j] + b[j + 1..];
    WithoutAt(b, j);
    assert HasMirror(b, a[i]);
    var k :| 0 <= k < |b| && b[k].knobs == a[i].knobs && KeyOf(b[k]) == KeyOf(a[i]);
    assert a[i].knobs != a[|a| - 1].knobs;
    assert rest[if k < j then k else k - 1] == b[k];
  }

  lemma RestMirrors(a: seq<Entry>, b: seq<Entry>, j: nat, at: nat)
    requires OnePerKnobs(b) && Mirrors(b, a) && a != [] && j < |b| && at < |b| && at != j
    requires b[j].knobs == a[|a| - 1].knobs
    ensures HasMirror(a[..|a| - 1], b[at])
  {
    hide KeyOf;
    var front := a[..|a| - 1];
    assert HasMirror(a, b[at]);
    var i :| 0 <= i < |a| && a[i].knobs == b[at].knobs && KeyOf(a[i]) == KeyOf(b[at]);
    assert b[at].knobs != b[j].knobs;
    assert front[i] == a[i];
  }

  lemma WithoutMirrored(a: seq<Entry>, b: seq<Entry>, j: nat)
    requires OnePerKnobs(a) && OnePerKnobs(b) && Mirrors(a, b) && Mirrors(b, a) && a != [] && j < |b|
    requires b[j].knobs == a[|a| - 1].knobs
    ensures var front, rest := a[..|a| - 1], b[..j] + b[j + 1..];
            OnePerKnobs(front) && OnePerKnobs(rest) && Mirrors(front, rest) && Mirrors(rest, front)
  {
    hide KeyOf;
    var last := |a| - 1;
    var front, rest := a[..last], b[..j] + b[j + 1..];
    WithoutAt(b, j);
    forall i | 0 <= i < |front|
      ensures HasMirror(rest, front[i])
    {
      FrontMirrors(a, b, j, i);
    }
    forall k | 0 <= k < |rest|
      ensures HasMirror(front, rest[k])
    {
      RestMirrors(a, b, j, if k < j then k else k + 1);
    }
  }

  lemma KeysWithout(b: seq<Entry>, j: nat)
    requires j < |b|
    ensures multiset(Keys(b)) == multiset(Keys(b[..j] + b[j + 1..])) + multiset{KeyOf(b[j])}
  {
    hide KeyOf, Keys;
    var ks := Keys(b);
    WithoutAt(b, j);
    assert Keys(b[..j] + b[j + 1..]) == ks[..j] + ks[j + 1..];
    DropKey(ks, j);
  }

  lemma DropKey(ks: seq<RankKey>, j: nat)
    requires j < |ks|
    ensures multiset(ks) == multiset(ks[..j] + ks[j + 1..]) + multiset{ks[j]}
  {
    assert ks == ks[..j] + [ks[j]] + ks[j + 1..];
  }

  lemma BestsMirror(check: Checker, defaults: Knobs, a: seq<Program>, b: seq<Program>, x: seq<Entry>, y: seq<Entry>)
    requires multiset(a) == multiset(b) && IsBest(check, defaults, a, x) && IsBest(check, defaults, b, y)
    ensures Mirrors(x, y)
  {
    hide Beats;
    forall i | 0 <= i < |x|
      ensures HasMirror(y, x[i])
    {
      assert x[i] in x && x[i].program in multiset(a);
      assert x[i].program in b;
      var e :| e in y && Represents(check, e, x[i].program);
      var j :| 0 <= j < |y| && y[j] == e;
      RepresentativeIsBest(check, defaults, a, x, x[i]);
      assert e.program in multiset(b);
      assert e.program in a;
      RankIsTotal(x[i].program, e.program, e.program);
    }
  }

  /** Shuffling the population changes no finalist, except among candidates of one rank: the two choices have the
      same ranks in the same places. */
  lemma OrderOnlyBreaksTies(check: Checker, defaults: Knobs, a: seq<Program>, b: seq<Program>,
                            x: seq<Entry>, y: seq<Entry>, k: int)
    requires multiset(a) == multiset(b) && IsBest(check, defaults, a, x) && IsBest(check, defaults, b, y)
    ensures Keys(Slice(Rank(x), k)) == Keys(Slice(Rank(y), k))
  {
    hide IsBest, KeyOf, Rank, Slice;
    BestsMirror(check, defaults, a, b, x, y);
    BestsMirror(check, defaults, b, a, y, x);
    assert OnePerKnobs(x) && OnePerKnobs(y) by { BestApart(check, defaults, a, x); BestApart(check, defaults, b, y); }
    MirroredKeys(x, y);
    RankKeys(x);
    RankKeys(y);
    RankedKeysAscend(x);
    RankedKeysAscend(y);
    AscendingIsUnique(Keys(Rank(x)), Keys(Rank(y)));
    SliceKeys(Rank(x), k);
    SliceKeys(Rank(y), k);
  }

  lemma BestApart(check: Checker, defaults: Knobs, a: seq<Program>, x: seq<Entry>)
    requires IsBest(check, defaults, a, x)
    ensures OnePerKnobs(x)
  {
  }

  lemma RankedKeysAscend(x: seq<Entry>)
    ensures Ascending(Keys(Rank(x)))
  {
    hide Rank;
    RankIsRanked(x);
  }

  function SliceOf(keys: seq<RankKey>, k: int): seq<RankKey> {
    if k >= |keys| then keys
    else if k >= 0 then keys[..k]
    else if |keys| + k > 0 then keys[..|keys| + k] else []
  }

  lemma SliceKeys(entries: seq<Entry>, k: int)
    ensures Keys(Slice(entries, k)) == SliceOf(Keys(entries), k)
  {
    hide KeyOf;
  }

  /** With no ties the choice is one and the same. */
  lemma NoTiesOneChoice(check: Checker, defaults: Knobs, a: seq<Program>, b: seq<Program>,
                        x: seq<Entry>, y: seq<Entry>, k: int)
    requires multiset(a) == multiset(b) && IsBest(check, defaults, a, x) && IsBest(check, defaults, b, y)
    requires forall p, q :: p in a && q in a && SameRank(p, q) ==> p == q
    ensures Slice(Rank(x), k) == Slice(Rank(y), k)
  {
    hide Rank, Slice, IsBest, FateOf, Keys;
    OrderOnlyBreaksTies(check, defaults, a, b, x, y, k);
    var out, other := Slice(Rank(x), k), Slice(Rank(y), k);
    assert |out| == |Keys(out)| && |other| == |Keys(other)|;
    forall i | 0 <= i < |out|
      ensures out[i] == other[i]
    {
      SliceFrom(check, defaults, a, x, k, i);
      SliceFrom(check, defaults, b, y, k, i);
      assert other[i].program in multiset(b);
      assert other[i].program in a;
      assert Keys(out)[i] == Keys(other)[i];
    }
  }

  lemma SliceFrom(check: Checker, defaults: Knobs, a: seq<Program>, x: seq<Entry>, k: int, i: nat)
    requires IsBest(check, defaults, a, x) && i < |Slice(Rank(x), k)|
    ensures Slice(Rank(x), k)[i].program in a
    ensures Slice(Rank(x), k)[i] == EntryOf(check, Slice(Rank(x), k)[i].program)
  {
    hide Rank, Slice, Beats;
    RankKeepsMembers(x);
    assert Rank(x)[i] in Rank(x);
  }
}
