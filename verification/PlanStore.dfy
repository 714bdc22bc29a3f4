/** The numbered plan store (loop/plan_revision.py) and the door into it (loop/adopt_a_paper_loop.py). Stage 2
    writes a pair, stage 3 commits numbered revisions beside it, a crash may fall between a revision's two
    writes, and a re-plan retires every revision. */
module PlanStore {
  import opened Wrappers
  import opened Json
  import opened PlanGuard

  /** The two files of one version of a plan; either may be missing. */
  datatype Slot = Slot(port: Option<Json>, tests: Option<Json>)

  datatype Kind = PortFile | TestsFile

  /** A retired file's name under superseded/. */
  datatype Retired = Retired(stamp: string, index: nat, kind: Kind)

  datatype Escalation = Escalation(entry: Json, resolved: Option<string>)

  datatype Disk = Disk(
    base: Slot,
    rev: map<nat, Slot>,
    superseded: map<Retired, Json>,
    escalations: seq<Escalation>)

  /** The pair a port is judged against, and that pair's number. */
  datatype InForce = InForce(pair: Pair, revision: nat)

  function Both(p: Pair): Slot {
    Slot(Some(p.port), Some(p.tests))
  }

  predicate Complete(rev: map<nat, Slot>, i: nat) {
    i in rev && rev[i].port.Some? && rev[i].tests.Some?
  }

  predicate Present(rev: map<nat, Slot>, i: nat) {
    i in rev && (rev[i].port.Some? || rev[i].tests.Some?)
  }

  function Above(rev: map<nat, Slot>, index: nat): set<nat> {
    set i | i in rev && i > index
  }

  lemma AboveShrinks(rev: map<nat, Slot>, index: nat)
    requires index + 1 in rev
    ensures |Above(rev, index + 1)| < |Above(rev, index)|
  {
    assert Above(rev, index) == Above(rev, index + 1) + {index + 1};
  }

  /** How many complete revisions follow `index` without a gap. */
  function CountFrom(rev: map<nat, Slot>, index: nat): (n: nat)
    ensures index <= n && !Complete(rev, n + 1)
    ensures forall i :: index < i <= n ==> Complete(rev, i)
    decreases |Above(rev, index)|
  {
    if Complete(rev, index + 1) then
      AboveShrinks(rev, index);
      CountFrom(rev, index + 1)
    else index
  }

  /** The pair in force and its number; None when a file stage 3 needs is missing. */
  function LatestOf(disk: Disk): Option<InForce> {
    var n := CountFrom(disk.rev, 0);
    var slot := if n == 0 then disk.base else (assert Complete(disk.rev, n); disk.rev[n]);
    if slot.port.Some? && slot.tests.Some? then Some(InForce(Pair(slot.port.value, slot.tests.value), n)) else None
  }

  function MoveSlot(slot: Slot, index: nat, stamp: string, into: map<Retired, Json>): map<Retired, Json> {
    var withPort := if slot.port.Some? then into[Retired(stamp, index, PortFile) := slot.port.value] else into;
    if slot.tests.Some? then withPort[Retired(stamp, index, TestsFile) := slot.tests.value] else withPort
  }

  /** Moving out revisions index + 1, index + 2, ... up to the first with no file: what is left beside the plan,
      and what superseded/ then holds. */
  function RetireFrom(rev: map<nat, Slot>, index: nat, stamp: string, into: map<Retired, Json>)
    : (map<nat, Slot>, map<Retired, Json>)
    decreases |rev|
  {
    if Present(rev, index + 1) then
      RetireFrom(rev - {index + 1}, index + 1, stamp, MoveSlot(rev[index + 1], index + 1, stamp, into))
    else (rev, into)
  }

  predicate Open(e: Escalation) {
    e.resolved == None
  }

  function OpenOf(escalations: seq<Escalation>): seq<Json> {
    if escalations == [] then []
    else
      var last := escalations[|escalations| - 1];
      OpenOf(escalations[..|escalations| - 1]) + (if Open(last) then [last.entry] else [])
  }

  function Answered(escalations: seq<Escalation>, stamp: string): (out: seq<Escalation>)
    ensures |out| == |escalations|
    ensures forall i :: 0 <= i < |out| ==>
              out[i] == (if Open(escalations[i]) then escalations[i].(resolved := Some(stamp)) else escalations[i])
  {
    if escalations == [] then []
    else
      var last := escalations[|escalations| - 1];
      Answered(escalations[..|escalations| - 1], stamp) + [if Open(last) then last.(resolved := Some(stamp)) else last]
  }

  /** A commit, or as much of it as a crash between its two writes leaves. */
  function CommitTo(disk: Disk, index: nat, p: Pair, crashed: bool): Disk {
    var slot := if index in disk.rev then disk.rev[index] else Slot(None, None);
    disk.(rev := disk.rev[index := if crashed then slot.(port := Some(p.port)) else Both(p)])
  }

  function RetireTo(disk: Disk, stamp: string): Disk {
    var (left, superseded) := RetireFrom(disk.rev, 0, stamp, disk.superseded);
    disk.(rev := left, superseded := superseded)
  }

  /** A completed stage-2 write: the pair, then the retirement, then the answers. */
  function ReplanTo(disk: Disk, p: Pair, stamp: string): Disk {
    var retired := RetireTo(disk.(base := Both(p)), stamp);
    retired.(escalations := Answered(retired.escalations, stamp))
  }

  ghost predicate FiledAs(r: Retired, content: Option<Json>, superseded: map<Retired, Json>) {
    content.Some? ==> r in superseded && superseded[r] == content.value
  }

  ghost predicate Filed(slot: Slot, index: nat, stamp: string, superseded: map<Retired, Json>) {
    FiledAs(Retired(stamp, index, PortFile), slot.port, superseded) &&
    FiledAs(Retired(stamp, index, TestsFile), slot.tests, superseded)
  }

  /** What superseded/ holds under another stamp, or an index already passed, is still there after a retirement. */
  lemma {:induction false} RetireKeepsSuperseded(rev: map<nat, Slot>, index: nat, stamp: string,
                                                 into: map<Retired, Json>, r: Retired)
    requires r in into && (r.stamp != stamp || r.index <= index)
    ensures r in RetireFrom(rev, index, stamp, into).1 && RetireFrom(rev, index, stamp, into).1[r] == into[r]
    decreases |rev|
  {
    if Present(rev, index + 1) {
      RetireKeepsSuperseded(rev - {index + 1}, index + 1, stamp, MoveSlot(rev[index + 1], index + 1, stamp, into), r);
    }
  }

  /** Retiring deletes nothing: a revision it reaches is filed under its own name, and one past the first gap
      stays where it is. */
  lemma {:induction false} RetireKeepsFiles(rev: map<nat, Slot>, index: nat, stamp: string,
                                            into: map<Retired, Json>, i: nat)
    requires i in rev
    ensures i > index && (forall j :: index < j <= i ==> Present(rev, j)) ==>
              i !in RetireFrom(rev, index, stamp, into).0 &&
              Filed(rev[i], i, stamp, RetireFrom(rev, index, stamp, into).1)
    ensures i <= index || (exists j :: index < j <= i && !Present(rev, j)) ==>
              i in RetireFrom(rev, index, stamp, into).0 && RetireFrom(rev, index, stamp, into).0[i] == rev[i]
    decreases |rev|
  {
    if Present(rev, index + 1) {
      var rest, moved := rev - {index + 1}, MoveSlot(rev[index + 1], index + 1, stamp, into);
      if i == index + 1 {
        RetireLeavesGone(rest, index + 1, stamp, moved, i);
        if rev[i].port.Some? {
          RetireKeepsSuperseded(rest, index + 1, stamp, moved, Retired(stamp, i, PortFile));
        }
        if rev[i].tests.Some? {
          RetireKeepsSuperseded(rest, index + 1, stamp, moved, Retired(stamp, i, TestsFile));
        }
      } else {
        RetireKeepsFiles(rest, index + 1, stamp, moved, i);
        assert forall j :: j != index + 1 ==> (Present(rest, j) <==> Present(rev, j));
      }
    }
  }

  lemma {:induction false} RetireLeavesGone(rev: map<nat, Slot>, index: nat, stamp: string, into: map<Retired, Json>, i: nat)
    requires i !in rev
    ensures i !in RetireFrom(rev, index, stamp, into).0
    decreases |rev|
  {
    if Present(rev, index + 1) {
      RetireLeavesGone(rev - {index + 1}, index + 1, stamp, MoveSlot(rev[index + 1], index + 1, stamp, into), i);
    }
  }

  /* ------------------------------------------------------------ the store on disk */

  datatype Reply = Proposes(pair: Pair, otherErrors: bool) | Escalates | Silent

  /** The reply proposes a pair, and neither the guard nor the other checks have anything against it. */
  ghost predicate Passes(inForce: Pair, reply: Reply) {
    reply.Proposes? && !reply.otherErrors && Allows(inForce, reply.pair)
  }

  /** Every reply before this one proposes a pair that does not pass. */
  ghost predicate Asked(inForce: Pair, replies: seq<Reply>, turn: nat)
    requires turn <= |replies|
  {
    forall k :: 0 <= k < turn ==> replies[k].Proposes? && !Passes(inForce, replies[k])
  }

  class Store {
    const maxRevisions: nat
    const repairTurns: nat
    var base: Slot
    var rev: map<nat, Slot>
    var superseded: map<Retired, Json>
    var escalations: seq<Escalation>

    ghost function OnDisk(): Disk
      reads this
    {
      Disk(base, rev, superseded, escalations)
    }

    constructor (maxRevisions: nat, repairTurns: nat)
      ensures OnDisk() == Disk(Slot(None, None), map[], map[], [])
      ensures this.maxRevisions == maxRevisions && this.repairTurns == repairTurns
    {
      this.maxRevisions, this.repairTurns := maxRevisions, repairTurns;
      base, rev, superseded, escalations := Slot(None, None), map[], map[], [];
    }

    /** `count`. */
    method Count() returns (index: nat)
      ensures index == CountFrom(rev, 0)
    {
      index := 0;
      while Complete(rev, index + 1)
        invariant CountFrom(rev, 0) == CountFrom(rev, index)
        decreases |Above(rev, index)|
      {
        AboveShrinks(rev, index);
        index := index + 1;
      }
    }

    /** `latest`. */
    method Latest() returns (found: Option<InForce>)
      ensures found == LatestOf(OnDisk())
    {
      var index := Count();
      assert index > 0 ==> Complete(rev, index);
      var slot := if index == 0 then base else rev[index];
      found := if slot.port.Some? && slot.tests.Some? then Some(InForce(Pair(slot.port.value, slot.tests.value), index)) else None;
    }

    /** `commit`, which a crash may cut after its first write. */
    method Commit(index: nat, p: Pair, crash: bool)
      modifies this
      ensures OnDisk() == CommitTo(old(OnDisk()), index, p, crash)
    {
      var slot := if index in rev then rev[index] else Slot(None, None);
      rev := rev[index := slot.(port := Some(p.port))];
      if crash {
        return;
      }
      rev := rev[index := rev[index].(tests := Some(p.tests))];
    }

    /** `retire`: two renames per revision, until an index has no file at all. */
    method Retire(stamp: string)
      modifies this
      ensures OnDisk() == RetireTo(old(OnDisk()), stamp)
    {
      var index := 0;
      while Present(rev, index + 1)
        invariant base == old(base) && escalations == old(escalations)
        invariant RetireFrom(rev, index, stamp, superseded) == RetireFrom(old(rev), 0, stamp, old(superseded))
        decreases |rev|
      {
        index := index + 1;
        if rev[index].port.Some? {
          superseded := superseded[Retired(stamp, index, PortFile) := rev[index].port.value];
        }
        if rev[index].tests.Some? {
          superseded := superseded[Retired(stamp, index, TestsFile) := rev[index].tests.value];
        }
        rev := rev - {index};
      }
    }

    /** `record_escalation`. */
    method RecordEscalation(entry: Json)
      modifies this
      ensures OnDisk() == old(OnDisk()).(escalations := old(escalations) + [Escalation(entry, None)])
    {
      escalations := escalations + [Escalation(entry, None)];
    }

    /** `open_escalations`. */
    method OpenEscalations() returns (entries: seq<Json>)
      ensures entries == OpenOf(escalations)
    {
      entries := [];
      for i := 0 to |escalations|
        invariant entries == OpenOf(escalations[..i])
      {
        assert escalations[..i + 1][..i] == escalations[..i];
        if Open(escalations[i]) {
          entries := entries + [escalations[i].entry];
        }
      }
      assert escalations[..|escalations|] == escalations;
    }

    /** `clear_escalations`. */
    method ClearEscalations(stamp: string)
      modifies this
      ensures OnDisk() == old(OnDisk()).(escalations := Answered(old(escalations), stamp))
    {
      var entries := escalations;
      for i := 0 to |entries|
        invariant |entries| == |escalations| && OnDisk() == old(OnDisk())
        invariant forall k :: 0 <= k < |entries| ==>
                    entries[k] == if k < i && Open(escalations[k]) then escalations[k].(resolved := Some(stamp))
                                  else escalations[k]
      {
        if Open(entries[i]) {
          entries := entries[i := entries[i].(resolved := Some(stamp))];
        }
      }
      assert entries == Answered(escalations, stamp);
      escalations := entries;
    }

    /** Stage 2's write of an accepted plan. */
    method Replan(p: Pair, stamp: string)
      modifies this
      ensures OnDisk() == ReplanTo(old(OnDisk()), p, stamp)
    {
      base := Both(p);
      Retire(stamp);
      ClearEscalations(stamp);
    }

    /** The guard and the other checks have nothing against this revision. */
    static method Judge(inForce: Pair, reply: Reply) returns (accepted: bool)
      requires reply.Proposes?
      ensures accepted <==> !reply.otherErrors && Allows(inForce, reply.pair)
    {
      hide Allows, Blocking;
      var findings := Guard(inForce, reply.pair);
      accepted := !reply.otherErrors && Blocking(findings) == [];
    }

    /** `_consider_revision`: at most one commit, of a pair the guard allows against the pair in force, and never
        past the revision budget. `replies` are the debug turn and the repair turns it may buy. */
    method ConsiderRevision(inForce: Pair, revision: nat, replies: seq<Reply>)
      returns (pair: Pair, number: nat, escalated: bool)
      requires |replies| == repairTurns + 1
      modifies this
      ensures if number == revision then pair == inForce && OnDisk() == old(OnDisk())
              else number == revision + 1 && revision < maxRevisions && Allows(inForce, pair) && !escalated
                   && OnDisk() == CommitTo(old(OnDisk()), number, pair, false)
      ensures number == revision + 1 <==>
              revision < maxRevisions && exists i :: 0 <= i <= repairTurns && Asked(inForce, replies, i) && Passes(inForce, replies[i])
      ensures forall i :: 0 <= i <= repairTurns && Asked(inForce, replies, i) && Passes(inForce, replies[i]) && revision < maxRevisions ==>
                pair == replies[i].pair
      ensures escalated <==>
              revision < maxRevisions && exists i :: 0 < i <= repairTurns && Asked(inForce, replies, i) && replies[i].Escalates?
    {
      hide Allows, CommitTo;
      pair, number, escalated := inForce, revision, false;
      if !replies[0].Proposes? || revision >= maxRevisions {
        return;
      }
      var index := revision + 1;
      var reply := replies[0];
      ghost var disk := OnDisk();
      for turn := 0 to repairTurns + 1
        invariant reply.Proposes? && OnDisk() == old(OnDisk())
        invariant turn <= repairTurns ==> reply == replies[turn]
        invariant Asked(inForce, replies, turn)
      {
        var accepted := Judge(inForce, reply);
        if accepted {
          Commit(index, reply.pair, false);
          return reply.pair, index, false;
        }
        if turn == repairTurns {
          return;
        }
        reply := replies[turn + 1];
        if reply.Escalates? {
          escalated := true;
          return;
        }
        if !reply.Proposes? {
          return;
        }
      }
    }
  }

  /* ------------------------------------------------------------ every run of stages 2 and 3 */

  /** The disk and the running stage, and what has happened since: the last pair stage 2 wrote, the revisions
      committed and the escalations recorded since then. */
  datatype World = World(
    disk: Disk,
    session: Option<InForce>,
    stage2: Option<Pair>,
    committed: seq<Pair>,
    raised: seq<Json>)

  datatype Event =
    | Replanned(pair: Pair, stamp: string)
    | Started
    | Revised(pair: Pair)
    | CommitCrashed(pair: Pair)
    | Escalated(entry: Json)
    | Ended

  const EMPTY: World := World(Disk(Slot(None, None), map[], map[], []), None, None, [], [])

  /** A revision the door lets through: inside the budget, and allowed against the pair in force. */
  ghost predicate Accepts(budget: nat, w: World, p: Pair) {
    w.session.Some? && w.session.value.revision < budget && Allows(w.session.value.pair, p)
  }

  /** One step; None when the event cannot happen in this state. */
  ghost function Step(budget: nat, w: World, ev: Event): Option<World> {
    match ev
    case Replanned(p, stamp) =>
      if w.session.Some? then None
      else Some(World(ReplanTo(w.disk, p, stamp), None, Some(p), [], []))
    case Started =>
      (match LatestOf(w.disk)
       case None => None
       case Some(latest) => Some(w.(session := Some(latest))))
    case Revised(p) =>
      if !Accepts(budget, w, p) then None
      else
        var n := w.session.value.revision + 1;
        Some(w.(disk := CommitTo(w.disk, n, p, false), session := Some(InForce(p, n)), committed := w.committed + [p]))
    case CommitCrashed(p) =>
      if !Accepts(budget, w, p) then None
      else Some(w.(disk := CommitTo(w.disk, w.session.value.revision + 1, p, true), session := None))
    case Escalated(entry) =>
      if w.session == None then None
      else Some(w.(disk := w.disk.(escalations := w.disk.escalations + [Escalation(entry, None)]),
                   session := None, raised := w.raised + [entry]))
    case Ended => Some(w.(session := None))
  }

  /** The state after a sequence of events from an empty disk; None when one of them could not happen. */
  ghost function Run(budget: nat, events: seq<Event>): Option<World> {
    if events == [] then Some(EMPTY)
    else
      match Run(budget, events[..|events| - 1])
      case None => None
      case Some(before) => Step(budget, before, events[|events| - 1])
  }

  /** The pairs stage 3 has been judged against since stage 2 last wrote, in order. */
  ghost function History(w: World): seq<Pair>
    requires w.stage2.Some?
  {
    [w.stage2.value] + w.committed
  }

  ghost predicate RevisionsStored(w: World) {
    var k, rev := |w.committed|, w.disk.rev;
    && (forall i :: i in rev ==> 1 <= i <= k + 1)
    && (forall i :: 1 <= i <= k ==> i in rev && rev[i] == Both(w.committed[i - 1]))
    && (k + 1 in rev ==> rev[k + 1].port.Some? && rev[k + 1].tests == None)
  }

  ghost predicate Inv(budget: nat, w: World) {
    && (w.stage2 == None ==> w == EMPTY)
    && (w.stage2.Some? ==>
          && w.disk.base == Both(w.stage2.value)
          && Chain(History(w))
          && (w.session.Some? ==> w.session.value == InForce(History(w)[|w.committed|], |w.committed|)))
    && RevisionsStored(w)
    && |w.committed| <= budget
    && OpenOf(w.disk.escalations) == w.raised
  }

  lemma CountsCommitted(budget: nat, w: World)
    requires Inv(budget, w)
    ensures CountFrom(w.disk.rev, 0) == |w.committed|
  {
    var n, k := CountFrom(w.disk.rev, 0), |w.committed|;
    assert !Complete(w.disk.rev, k + 1) && !Complete(w.disk.rev, n + 1);
    assert forall i :: 1 <= i <= k ==> Complete(w.disk.rev, i);
  }

  lemma {:induction false} AnsweredLeavesNoneOpen(escalations: seq<Escalation>, stamp: string)
    ensures OpenOf(Answered(escalations, stamp)) == []
  {
    if escalations != [] {
      AnsweredLeavesNoneOpen(escalations[..|escalations| - 1], stamp);
      var out := Answered(escalations, stamp);
      assert out[..|out| - 1] == Answered(escalations[..|escalations| - 1], stamp);
    }
  }

  lemma ReplanClears(budget: nat, w: World, p: Pair, stamp: string)
    requires Inv(budget, w)
    ensures ReplanTo(w.disk, p, stamp).rev == map[]
    ensures OpenOf(ReplanTo(w.disk, p, stamp).escalations) == []
  {
    var left := RetireFrom(w.disk.rev, 0, stamp, w.disk.superseded).0;
    forall i
      ensures i !in left
    {
      if i in w.disk.rev {
        RetireKeepsFiles(w.disk.rev, 0, stamp, w.disk.superseded, i);
        assert forall j :: 0 < j <= i ==> Present(w.disk.rev, j);
      } else {
        RetireLeavesGone(w.disk.rev, 0, stamp, w.disk.superseded, i);
      }
    }
    AnsweredLeavesNoneOpen(w.disk.escalations, stamp);
  }

  lemma ReplannedKeepsInv(budget: nat, w: World, p: Pair, stamp: string)
    requires Inv(budget, w) && Step(budget, w, Replanned(p, stamp)).Some?
    ensures Inv(budget, Step(budget, w, Replanned(p, stamp)).value)
  {
    hide Allows, RetireFrom, Answered;
    ReplanClears(budget, w, p, stamp);
  }

  lemma CommitKeepsInv(budget: nat, w: World, p: Pair)
    requires Inv(budget, w) && Step(budget, w, Revised(p)).Some?
    ensures Inv(budget, Step(budget, w, Revised(p)).value)
  {
    hide Allows, OpenOf;
    var next := Step(budget, w, Revised(p)).value;
    var h := History(w);
    assert History(next) == h + [p];
    assert Allows(h[|h| - 1], p);
    assert Chain(h + [p]);
    assert RevisionsStored(next);
  }

  lemma CrashKeepsInv(budget: nat, w: World, p: Pair)
    requires Inv(budget, w) && Step(budget, w, CommitCrashed(p)).Some?
    ensures Inv(budget, Step(budget, w, CommitCrashed(p)).value)
  {
    hide Allows, OpenOf;
  }

  lemma EscalationKeepsInv(budget: nat, w: World, entry: Json)
    requires Inv(budget, w) && Step(budget, w, Escalated(entry)).Some?
    ensures Inv(budget, Step(budget, w, Escalated(entry)).value)
  {
    hide Allows;
    var e := Step(budget, w, Escalated(entry)).value.disk.escalations;
    assert e[..|e| - 1] == w.disk.escalations;
  }

  lemma StepKeepsInv(budget: nat, w: World, ev: Event)
    requires Inv(budget, w) && Step(budget, w, ev).Some?
    ensures Inv(budget, Step(budget, w, ev).value)
  {
    hide Allows, OpenOf;
    match ev
    case Replanned(p, stamp) => ReplannedKeepsInv(budget, w, p, stamp);
    case Started => CountsCommitted(budget, w);
    case Revised(p) => CommitKeepsInv(budget, w, p);
    case CommitCrashed(p) => CrashKeepsInv(budget, w, p);
    case Escalated(entry) => EscalationKeepsInv(budget, w, entry);
    case Ended =>
  }

  lemma {:induction false} ReachableInv(budget: nat, events: seq<Event>, w: World)
    requires Run(budget, events) == Some(w)
    ensures Inv(budget, w)
  {
    if events != [] {
      var before := Run(budget, events[..|events| - 1]).value;
      ReachableInv(budget, events[..|events| - 1], before);
      StepKeepsInv(budget, before, events[|events| - 1]);
    }
  }

  /** Over every run, in every state after stage 2's first write: the pair in force is the last one committed, it
      is allowed against the pair stage 2 wrote, revisions are numbered without a gap and stay inside the budget,
      and the open escalations are exactly those recorded since stage 2 last wrote. */
  lemma StoreIsSafe(budget: nat, events: seq<Event>, w: World)
    requires Run(budget, events) == Some(w) && w.stage2.Some?
    ensures LatestOf(w.disk) == Some(InForce(History(w)[|w.committed|], |w.committed|))
    ensures Allows(w.stage2.value, History(w)[|w.committed|])
    ensures |w.committed| <= budget
    ensures OpenOf(w.disk.escalations) == w.raised
    ensures w.session.Some? ==> LatestOf(w.disk) == w.session
  {
    hide Allows;
    ReachableInv(budget, events, w);
    CountsCommitted(budget, w);
    ChainAllows(History(w));
  }
}
