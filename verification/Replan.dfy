/** The re-plan loop (loop/replan.py): after an escalation stage 2 runs again inside the job, and the port tree is
    kept or laid fresh according to what the new plan changed. Both stages are arbitrary. */
module Replan {
  import opened Wrappers
  import opened Json
  import opened Strings
  import PlanGuard

  type Pair = PlanGuard.Pair

  /* ------------------------------------------------------------ the design of a port plan */

  function HookSites(port: Json): set<(Json, Json, Json)> {
    set h | h in Items(port, "hook_points") :: (Get(h, "file"), Get(h, "symbol"), Get(h, "action"))
  }

  /** `{r["spec_pointer"]: r["status"]}`, the later entry of a repeated pointer winning. */
  function ResolutionStatus(entries: seq<Json>): map<Json, Json> {
    if entries == [] then map[]
    else
      var last := entries[|entries| - 1];
      ResolutionStatus(entries[..|entries| - 1])[Get(last, "spec_pointer") := Get(last, "status")]
  }

  function Enable(port: Json): (Json, Json, Json) {
    var e := Get(port, "feature_enable");
    (Get(e, "name"), Get(e, "macro"), Get(e, "binding"))
  }

  function KnobMacros(port: Json): set<(Json, Json)> {
    set k | k in Items(port, "knobs") :: (Get(k, "macro"), Get(k, "binding"))
  }

  function HostKnobSites(port: Json): set<(Json, Json, Json)> {
    set k | k in Items(port, "host_knobs") :: (Get(k, "macro"), Get(k, "file"), Get(k, "host_symbol"))
  }

  /** `design_changes`. */
  function DesignChanges(before: Json, after: Json): (names: seq<string>)
    ensures names == [] <==> SameDesign(before, after)
  {
    (if Get(Get(before, "structure"), "choice") != Get(Get(after, "structure"), "choice") then ["structure.choice"] else []) +
    (if HookSites(before) != HookSites(after) then ["hook_points"] else []) +
    (if Statuses(before) != Statuses(after) then ["interface_resolutions.status"] else []) +
    (if Enable(before) != Enable(after) then ["feature_enable"] else []) +
    (if KnobMacros(before) != KnobMacros(after) then ["knobs"] else []) +
    (if HostKnobSites(before) != HostKnobSites(after) then ["host_knobs"] else [])
  }

  function Statuses(port: Json): map<Json, Json> {
    ResolutionStatus(Items(port, "interface_resolutions"))
  }

  predicate SameDesign(a: Json, b: Json) {
    && Get(Get(a, "structure"), "choice") == Get(Get(b, "structure"), "choice")
    && HookSites(a) == HookSites(b) && Statuses(a) == Statuses(b) && Enable(a) == Enable(b)
    && KnobMacros(a) == KnobMacros(b) && HostKnobSites(a) == HostKnobSites(b)
  }

  /** Every entry of the one list has an entry of the other that agrees with it in these fields. */
  ghost predicate Matched(xs: seq<Json>, ys: seq<Json>, fields: seq<string>) {
    forall x :: x in xs ==> exists y :: y in ys && Agree(x, y, fields)
  }

  ghost predicate Agree(x: Json, y: Json, fields: seq<string>) {
    forall f :: f in fields ==> Get(x, f) == Get(y, f)
  }

  ghost predicate MatchedBothWays(xs: seq<Json>, ys: seq<Json>, fields: seq<string>) {
    Matched(xs, ys, fields) && Matched(ys, xs, fields)
  }

  /** The last entry for this pointer has this status. */
  ghost predicate HasStatus(entries: seq<Json>, pointer: Json, status: Json) {
    exists i: nat :: IsLastFor(entries, i, pointer, status)
  }

  ghost predicate IsLastFor(entries: seq<Json>, i: nat, pointer: Json, status: Json) {
    && i < |entries| && Get(entries[i], "spec_pointer") == pointer && Get(entries[i], "status") == status
    && forall j :: i < j < |entries| ==> Get(entries[j], "spec_pointer") != pointer
  }

  ghost predicate SameStatuses(xs: seq<Json>, ys: seq<Json>) {
    forall pointer, status :: HasStatus(xs, pointer, status) <==> HasStatus(ys, pointer, status)
  }

  lemma {:induction false} StatusIff(entries: seq<Json>, pointer: Json, status: Json)
    ensures HasStatus(entries, pointer, status) <==>
            pointer in ResolutionStatus(entries) && ResolutionStatus(entries)[pointer] == status
  {
    hide HasStatus, Get;
    if entries == [] {
      NoStatus(pointer, status);
    } else {
      var last := |entries| - 1;
      StatusIff(entries[..last], pointer, status);
      assert entries == entries[..last] + [entries[last]];
      StatusSteps(entries[..last], entries[last], pointer, status);
    }
  }

  lemma NoStatus(pointer: Json, status: Json)
    ensures !HasStatus([], pointer, status)
  {
  }

  lemma StatusSteps(front: seq<Json>, e: Json, pointer: Json, status: Json)
    ensures HasStatus(front + [e], pointer, status) <==>
            if Get(e, "spec_pointer") == pointer then Get(e, "status") == status else HasStatus(front, pointer, status)
  {
    hide Get, IsLastFor;
    var entries := front + [e];
    forall i: nat
      ensures IsLastFor(entries, i, pointer, status) <==>
              if i == |front| then Get(e, "spec_pointer") == pointer && Get(e, "status") == status
              else IsLastFor(front, i, pointer, status) && Get(e, "spec_pointer") != pointer
      ensures IsLastFor(front, i, pointer, status) ==> i < |front|
    {
      LastForSteps(front, e, i, pointer, status);
    }
    assert IsLastFor(entries, |front|, pointer, status) <==> Get(e, "spec_pointer") == pointer && Get(e, "status") == status;
    if Get(e, "spec_pointer") != pointer && HasStatus(front, pointer, status) {
      var i: nat :| IsLastFor(front, i, pointer, status);
      assert IsLastFor(entries, i, pointer, status);
    }
  }

  lemma LastForSteps(front: seq<Json>, e: Json, i: nat, pointer: Json, status: Json)
    ensures IsLastFor(front + [e], i, pointer, status) <==>
            if i == |front| then Get(e, "spec_pointer") == pointer && Get(e, "status") == status
            else IsLastFor(front, i, pointer, status) && Get(e, "spec_pointer") != pointer
    ensures IsLastFor(front, i, pointer, status) ==> i < |front|
  {
    hide Get;
    var entries := front + [e];
    if i < |front| {
      assert entries[i] == front[i] && entries[|front|] == e;
      assert forall j :: i < j < |front| ==> entries[j] == front[j];
    }
  }

  lemma StatusesIff(xs: seq<Json>, ys: seq<Json>)
    ensures ResolutionStatus(xs) == ResolutionStatus(ys) <==> SameStatuses(xs, ys)
  {
    var a, b := ResolutionStatus(xs), ResolutionStatus(ys);
    forall pointer, status
      ensures HasStatus(xs, pointer, status) <==> pointer in a && a[pointer] == status
      ensures HasStatus(ys, pointer, status) <==> pointer in b && b[pointer] == status
    {
      StatusIff(xs, pointer, status);
      StatusIff(ys, pointer, status);
    }
    if SameStatuses(xs, ys) {
      forall pointer
        ensures pointer in a <==> pointer in b
        ensures pointer in a && pointer in b ==> a[pointer] == b[pointer]
      {
        if pointer in a {
          assert HasStatus(xs, pointer, a[pointer]);
        }
        if pointer in b {
          assert HasStatus(ys, pointer, b[pointer]);
        }
      }
    }
  }

  lemma SitesIff(a: Json, b: Json)
    ensures HookSites(a) == HookSites(b) <==>
            MatchedBothWays(Items(a, "hook_points"), Items(b, "hook_points"), ["file", "symbol", "action"])
    ensures KnobMacros(a) == KnobMacros(b) <==> MatchedBothWays(Items(a, "knobs"), Items(b, "knobs"), ["macro", "binding"])
    ensures HostKnobSites(a) == HostKnobSites(b) <==>
            MatchedBothWays(Items(a, "host_knobs"), Items(b, "host_knobs"), ["macro", "file", "host_symbol"])
  {
    HooksMatch(a, b);
    HooksMatch(b, a);
    KnobsMatch(a, b);
    KnobsMatch(b, a);
    HostKnobsMatch(a, b);
    HostKnobsMatch(b, a);
  }

  lemma HooksMatch(a: Json, b: Json)
    ensures HookSites(a) <= HookSites(b) <==> Matched(Items(a, "hook_points"), Items(b, "hook_points"), ["file", "symbol", "action"])
  {
    hide Get, Items;
    var fields := ["file", "symbol", "action"];
    forall x, y
      ensures Agree(x, y, fields) <==>
              (Get(x, "file"), Get(x, "symbol"), Get(x, "action")) == (Get(y, "file"), Get(y, "symbol"), Get(y, "action"))
    {
      assert fields[0] in fields && fields[1] in fields && fields[2] in fields;
    }
    if HookSites(a) <= HookSites(b) {
      forall x | x in Items(a, "hook_points")
        ensures exists y :: y in Items(b, "hook_points") && Agree(x, y, fields)
      {
        assert (Get(x, "file"), Get(x, "symbol"), Get(x, "action")) in HookSites(a);
      }
    }
  }

  lemma KnobsMatch(a: Json, b: Json)
    ensures KnobMacros(a) <= KnobMacros(b) <==> Matched(Items(a, "knobs"), Items(b, "knobs"), ["macro", "binding"])
  {
    hide Get, Items;
    var fields := ["macro", "binding"];
    forall x, y
      ensures Agree(x, y, fields) <==> (Get(x, "macro"), Get(x, "binding")) == (Get(y, "macro"), Get(y, "binding"))
    {
      assert fields[0] in fields && fields[1] in fields;
    }
    if KnobMacros(a) <= KnobMacros(b) {
      forall x | x in Items(a, "knobs")
        ensures exists y :: y in Items(b, "knobs") && Agree(x, y, fields)
      {
        assert (Get(x, "macro"), Get(x, "binding")) in KnobMacros(a);
      }
    }
  }

  lemma HostKnobsMatch(a: Json, b: Json)
    ensures HostKnobSites(a) <= HostKnobSites(b) <==>
            Matched(Items(a, "host_knobs"), Items(b, "host_knobs"), ["macro", "file", "host_symbol"])
  {
    hide Get, Items;
    var fields := ["macro", "file", "host_symbol"];
    forall x, y
      ensures Agree(x, y, fields) <==>
              (Get(x, "macro"), Get(x, "file"), Get(x, "host_symbol")) == (Get(y, "macro"), Get(y, "file"), Get(y, "host_symbol"))
    {
      assert fields[0] in fields && fields[1] in fields && fields[2] in fields;
    }
    if HostKnobSites(a) <= HostKnobSites(b) {
      forall x | x in Items(a, "host_knobs")
        ensures exists y :: y in Items(b, "host_knobs") && Agree(x, y, fields)
      {
        assert (Get(x, "macro"), Get(x, "file"), Get(x, "host_symbol")) in HostKnobSites(a);
      }
    }
  }

  /** What a re-plan changed of the design, named part by part. */
  lemma ChangesAre(a: Json, b: Json, name: string)
    ensures name in DesignChanges(a, b) <==>
            || (name == "structure.choice" && Get(Get(a, "structure"), "choice") != Get(Get(b, "structure"), "choice"))
            || (name == "hook_points" &&
                !MatchedBothWays(Items(a, "hook_points"), Items(b, "hook_points"), ["file", "symbol", "action"]))
            || (name == "interface_resolutions.status" &&
                !SameStatuses(Items(a, "interface_resolutions"), Items(b, "interface_resolutions")))
            || (name == "feature_enable" &&
                !Agree(Get(a, "feature_enable"), Get(b, "feature_enable"), ["name", "macro", "binding"]))
            || (name == "knobs" && !MatchedBothWays(Items(a, "knobs"), Items(b, "knobs"), ["macro", "binding"]))
            || (name == "host_knobs" &&
                !MatchedBothWays(Items(a, "host_knobs"), Items(b, "host_knobs"), ["macro", "file", "host_symbol"]))
  {
    hide Get, Items, MatchedBothWays, SameStatuses, HookSites, KnobMacros, HostKnobSites, ResolutionStatus, Enable, Agree;
    SitesIff(a, b);
    StatusesIff(Items(a, "interface_resolutions"), Items(b, "interface_resolutions"));
    EnableIff(a, b);
  }

  lemma EnableIff(a: Json, b: Json)
    ensures Enable(a) == Enable(b) <==> Agree(Get(a, "feature_enable"), Get(b, "feature_enable"), ["name", "macro", "binding"])
  {
    hide Get;
    var fields := ["name", "macro", "binding"];
    assert fields[0] in fields && fields[1] in fields && fields[2] in fields;
  }

  /* ------------------------------------------------------------ the loop */

  const NEEDS_REPLAN: string := "needs_replan"
  const REPLAN_FAILED: string := "replan_failed"

  /** What stage 2 did when it was asked again: refused (or died), or wrote a pair. */
  datatype Reply = Refused(error: string) | Wrote(pair: Pair)

  datatype Answer = NotAsked | Failed(error: string) | Replanned(changes: seq<string>, clean: bool)

  datatype Round = Round(prefix: string, pair: Pair, clean: Option<bool>, status: string, answer: Answer)

  /** Stage 3's status in round n, on the pair and the tree setting it was given. */
  type Stage3 = (nat, Pair, Option<bool>) -> string

  function PrefixOf(base: string, n: nat): string {
    if n == 0 then base else base + ("replan" + NatToStr(n) + "_")
  }

  /** The first k rounds, each but the last answered by a plan that the next one runs under. */
  ghost predicate Chained(base: string, first: Pair, integrate: Stage3, plan: nat -> Reply, rounds: seq<Round>) {
    && (forall k: nat :: k < |rounds| ==>
          rounds[k].prefix == PrefixOf(base, k) && rounds[k].status == integrate(k, rounds[k].pair, rounds[k].clean))
    && (rounds != [] ==> rounds[0].pair == first && rounds[0].clean == None)
    && forall k: nat :: 0 < k < |rounds| ==> Follows(plan, k, rounds[k - 1], rounds[k])
  }

  /** Round k runs because the one before escalated and stage 2 wrote its pair; the tree is laid fresh exactly
      when the design changed. */
  ghost predicate Follows(plan: nat -> Reply, k: nat, before: Round, after: Round) {
    && before.status == NEEDS_REPLAN && plan(k) == Wrote(after.pair)
    && after.clean == Some(!SameDesign(before.pair.port, after.pair.port))
    && before.answer == Replanned(DesignChanges(before.pair.port, after.pair.port), after.clean.value)
  }

  /** Why the rounds ended. */
  ghost predicate Ended(budget: int, plan: nat -> Reply, rounds: seq<Round>, status: Option<string>) {
    if budget < 0 then rounds == [] && status == None
    else
      && 0 < |rounds| <= budget + 1
      && var last := rounds[|rounds| - 1];
         if last.status != NEEDS_REPLAN || |rounds| == budget + 1
         then last.answer == NotAsked && status == Some(last.status)
         else plan(|rounds|).Refused? && last.answer == Failed(plan(|rounds|).error) && status == Some(REPLAN_FAILED)
  }

  function Asked(rounds: seq<Round>): nat {
    if rounds == [] then 0 else Asked(rounds[..|rounds| - 1]) + (if rounds[|rounds| - 1].answer != NotAsked then 1 else 0)
  }

  lemma OneMoreRound(base: string, first: Pair, integrate: Stage3, plan: nat -> Reply, rounds: seq<Round>, round: Round)
    requires Chained(base, first, integrate, plan, rounds)
    requires round.prefix == PrefixOf(base, |rounds|) && round.status == integrate(|rounds|, round.pair, round.clean)
    requires if rounds == [] then round.pair == first && round.clean == None
             else Follows(plan, |rounds|, rounds[|rounds| - 1], round)
    ensures Chained(base, first, integrate, plan, rounds + [round])
  {
    hide PrefixOf, Follows;
  }

  lemma NoRounds(base: string, first: Pair, integrate: Stage3, plan: nat -> Reply)
    ensures Chained(base, first, integrate, plan, [])
  {
  }

  /** `integrate_with_replans`. */
  method IntegrateWithReplans(base: string, first: Pair, budget: int, integrate: Stage3, plan: nat -> Reply)
    returns (rounds: seq<Round>, status: Option<string>, saved: seq<string>)
    ensures Chained(base, first, integrate, plan, rounds) && Ended(budget, plan, rounds, status)
    ensures |saved| == |rounds| && forall k :: 0 <= k < |rounds| ==> saved[k] == rounds[k].prefix
  {
    hide DesignChanges, SameDesign, PrefixOf, Chained;
    rounds, status, saved := [], None, [];
    NoRounds(base, first, integrate, plan);
    var pair, clean, n := first, None, 0;
    while n < budget + 1
      invariant n == |rounds| == |saved| && (if budget < 0 then n == 0 && status == None else n <= budget)
      invariant forall k :: 0 <= k < n ==> saved[k] == rounds[k].prefix
      invariant Chained(base, first, integrate, plan, rounds)
      invariant if n == 0 then pair == first && clean == None
                else clean.Some? && Follows(plan, n, rounds[n - 1], Round("", pair, clean, "", NotAsked))
      decreases budget + 1 - n
    {
      var prefix := PrefixOf(base, n);
      var s := integrate(n, pair, clean);
      saved := saved + [prefix];
      status := Some(s);
      if s != NEEDS_REPLAN || n == budget {
        OneMoreRound(base, first, integrate, plan, rounds, Round(prefix, pair, clean, s, NotAsked));
        rounds := rounds + [Round(prefix, pair, clean, s, NotAsked)];
        return;
      }
      match plan(n + 1)
      case Refused(error) =>
        OneMoreRound(base, first, integrate, plan, rounds, Round(prefix, pair, clean, s, Failed(error)));
        rounds := rounds + [Round(prefix, pair, clean, s, Failed(error))];
        status := Some(REPLAN_FAILED);
        return;
      case Wrote(next) =>
        var changes := DesignChanges(pair.port, next.port);
        var round := Round(prefix, pair, clean, s, Replanned(changes, changes != []));
        OneMoreRound(base, first, integrate, plan, rounds, round);
        rounds := rounds + [round];
        pair, clean := next, Some(changes != []);
        n := n + 1;
    }
  }

  /* ------------------------------------------------------------ what the loop promises */

  /** A job that still needs a re-plan has spent its whole budget on re-plans that all produced one. */
  lemma NeedsReplanSpendsBudget(base: string, first: Pair, budget: nat, integrate: Stage3, plan: nat -> Reply,
                                rounds: seq<Round>, status: Option<string>)
    requires Chained(base, first, integrate, plan, rounds) && Ended(budget, plan, rounds, status)
    ensures |rounds| <= budget + 1 && Asked(rounds) <= budget
    ensures status == Some(NEEDS_REPLAN) ==> |rounds| == budget + 1 && Asked(rounds) == budget
    ensures status == Some(NEEDS_REPLAN) ==> forall k :: 1 <= k <= budget ==> plan(k).Wrote?
  {
    hide SameDesign, DesignChanges, Chained, Asked;
    AskedBeforeLast(base, first, integrate, plan, rounds, |rounds| - 1);
    if status == Some(NEEDS_REPLAN) {
      forall k | 1 <= k <= budget
        ensures plan(k).Wrote?
      {
        Link(base, first, integrate, plan, rounds, k);
      }
    }
  }

  lemma Link(base: string, first: Pair, integrate: Stage3, plan: nat -> Reply, rounds: seq<Round>, k: nat)
    requires Chained(base, first, integrate, plan, rounds) && 0 < k < |rounds|
    ensures Follows(plan, k, rounds[k - 1], rounds[k]) && plan(k).Wrote? && rounds[k - 1].answer != NotAsked
  {
    hide SameDesign, DesignChanges, PrefixOf;
    assert Follows(plan, k, rounds[k - 1], rounds[k]);
  }

  lemma {:induction false} AskedBeforeLast(base: string, first: Pair, integrate: Stage3, plan: nat -> Reply,
                                           rounds: seq<Round>, n: nat)
    requires Chained(base, first, integrate, plan, rounds) && n < |rounds|
    ensures Asked(rounds[..n]) == n
    ensures Asked(rounds) == Asked(rounds[..|rounds| - 1]) + (if rounds[|rounds| - 1].answer != NotAsked then 1 else 0)
  {
    hide SameDesign, DesignChanges, Chained, Follows;
    if n > 0 {
      AskedBeforeLast(base, first, integrate, plan, rounds, n - 1);
      assert rounds[..n][..n - 1] == rounds[..n - 1];
      Link(base, first, integrate, plan, rounds, n);
    }
  }

  /** The round whose tree round k builds on: itself when its tree was laid fresh, else the round before's. */
  function LaidIn(rounds: seq<Round>, k: nat): (j: nat)
    requires k < |rounds|
    ensures j <= k
  {
    if k == 0 || rounds[k].clean == Some(true) then k else LaidIn(rounds, k - 1)
  }

  /** A tree is never reused for a different design: the plan a round runs under has the design of the plan its
      tree was laid for. */
  lemma {:induction false} TreeFitsDesign(base: string, first: Pair, integrate: Stage3, plan: nat -> Reply,
                                          rounds: seq<Round>, k: nat)
    requires Chained(base, first, integrate, plan, rounds) && k < |rounds|
    ensures SameDesign(rounds[k].pair.port, rounds[LaidIn(rounds, k)].pair.port)
    ensures forall j :: LaidIn(rounds, k) < j <= k ==> rounds[j].clean == Some(false)
  {
    hide HookSites, Statuses, Enable, KnobMacros, HostKnobSites, DesignChanges, Chained;
    if k > 0 && rounds[k].clean != Some(true) {
      TreeFitsDesign(base, first, integrate, plan, rounds, k - 1);
      Link(base, first, integrate, plan, rounds, k);
    }
  }

  /* ------------------------------------------------------------ artifact names */

  lemma DigitsEndFirst(a: string, b: string, x: string, y: string)
    requires IsDigits(b) && a + "_" + x == b + "_" + y
    ensures |b| <= |a|
  {
    assert (a + "_" + x)[|a|] == '_';
    assert forall i :: 0 <= i < |b| ==> (b + "_" + y)[i] == b[i] && b[i] != '_';
  }

  lemma DigitsEndOnce(a: string, b: string, x: string, y: string)
    requires IsDigits(a) && IsDigits(b) && a + "_" + x == b + "_" + y
    ensures a == b
  {
    DigitsEndFirst(a, b, x, y);
    DigitsEndFirst(b, a, y, x);
    assert (a + "_" + x)[..|a|] == a && (b + "_" + y)[..|b|] == b;
  }

  /** Two re-plan rounds never write one file, whatever they call their artifacts. */
  lemma RoundsWriteApart(base: string, i: nat, j: nat, x: string, y: string)
    requires 0 < i && 0 < j && PrefixOf(base, i) + x == PrefixOf(base, j) + y
    ensures i == j && x == y
  {
    hide NatToStr, ParseNat;
    var a, b := NatToStr(i), NatToStr(j);
    assert (base + ("replan" + a + "_") + x)[|base| + 6..] == a + "_" + x;
    assert (base + ("replan" + b + "_") + y)[|base| + 6..] == b + "_" + y;
    DigitsEndOnce(a, b, x, y);
    ParsePrinted(i);
    ParsePrinted(j);
    assert (a + "_" + x)[|a| + 1..] == x && (b + "_" + y)[|b| + 1..] == y;
  }

  /** The first round's files meet a later round's only when the job names one `replan<n>_...` itself. */
  lemma FirstRoundWritesApart(base: string, n: nat, x: string, y: string)
    requires 0 < n && PrefixOf(base, 0) + x == PrefixOf(base, n) + y
    ensures x == "replan" + NatToStr(n) + "_" + y
  {
    assert (base + x)[|base|..] == x;
    assert (base + ("replan" + NatToStr(n) + "_") + y)[|base|..] == "replan" + NatToStr(n) + "_" + y;
  }
}
