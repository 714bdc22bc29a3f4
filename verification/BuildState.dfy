/** The executors' build state (hosts/gem5/adapter.py, `Gem5Executor`; hosts/cbp2025/adapter.py, `CBP2025Executor`):
    which states a binary is held for, and which state the tree itself was built for. Compilers, commands and
    workloads are arbitrary. */
module BuildState {
  import opened Wrappers

  /** A binary, with the state it was compiled for. */
  datatype Binary = Binary(key: bool, bytes: string)

  /** What the n-th compile did: it left this binary in the tree, or it failed and left whatever state it left. */
  datatype Compile = Built(bytes: string, log: string) | Broke(log: string, left: Option<bool>)

  datatype Outcome = Outcome(ok: bool, log: string, handle: Option<Binary>)

  /** A trace run: every named trace on one binary, or every one reported failed. */
  datatype Traces = Ran(binary: Binary) | NotRun(failed: seq<string>, error: string)

  /** The compiler, the settings an executor is made with, and whether it refuses to run nothing: gem5's does. */
  datatype Host = Host(compile: (nat, bool) -> Compile, perState: bool, undeliverable: bool, refusesNothing: bool)

  /** `_build_key`. */
  function KeyFor(h: Host, on: bool): bool {
    if h.perState then on else false
  }

  const UNSET := "the host cannot set this binding"

  class Executor {
    const host: Host
    var binaries: map<bool, Binary>
    var logs: map<bool, string>
    var treeState: Option<bool>
    var lastError: string
    var compiles: nat
    /** What the tree holds in fact; nothing in the executor reads it. */
    ghost var holds: Option<bool>

    ghost predicate Valid()
      reads this
    {
      && binaries.Keys == logs.Keys
      && (forall k :: k in binaries ==> binaries[k].key == k)
      && (treeState.Some? ==> holds == treeState && treeState.value in binaries)
      && (!host.perState ==> true !in binaries)
    }

    constructor (host: Host, ghost holds: Option<bool>)
      ensures Valid() && this.host == host && binaries == map[] && treeState == None && compiles == 0
    {
      this.host, binaries, logs, treeState, lastError, compiles := host, map[], map[], None, "", 0;
      this.holds := holds;
    }

    predicate Cached(force: bool, state: Option<bool>, on: bool) {
      !force && state == Some(KeyFor(host, on))
    }

    /** `build`. */
    method Build(on: bool, force: bool) returns (out: Outcome)
      requires Valid()
      modifies this
      ensures Valid() && lastError == old(lastError)
      ensures out.ok ==> out.handle.Some? && out.handle.value.key == KeyFor(host, on)
                         && treeState == Some(KeyFor(host, on)) && holds == treeState
                         && KeyFor(host, on) in binaries && binaries[KeyFor(host, on)] == out.handle.value
      ensures !out.ok ==> binaries == old(binaries) && out.handle == None
                          && (if host.undeliverable then treeState == old(treeState) && holds == old(holds) else treeState == None)
      ensures out.ok <==> !host.undeliverable && (Cached(force, old(treeState), on) || host.compile(old(compiles), KeyFor(host, on)).Built?)
      ensures out.ok && Cached(force, old(treeState), on) ==> binaries == old(binaries) && logs == old(logs) && out.log == logs[KeyFor(host, on)]
      ensures out.ok && !Cached(force, old(treeState), on) ==>
                var key, made := KeyFor(host, on), host.compile(old(compiles), KeyFor(host, on));
                binaries == old(binaries)[key := Binary(key, made.bytes)] && logs == old(logs)[key := made.log] && out.log == made.log
      ensures host.undeliverable ==> out.log == UNSET
      ensures !out.ok && !host.undeliverable ==> out.log == host.compile(old(compiles), KeyFor(host, on)).log && logs == old(logs)
      ensures !out.ok && !host.undeliverable ==> holds == host.compile(old(compiles), KeyFor(host, on)).left
      ensures compiles == old(compiles) + if host.undeliverable || Cached(force, old(treeState), on) then 0 else 1
      ensures forall k :: k in old(binaries) ==> k in binaries
      ensures forall k :: k in old(binaries) && k != KeyFor(host, on) ==> binaries[k] == old(binaries)[k]
    {
      if host.undeliverable {
        return Outcome(false, UNSET, None);
      }
      var key := KeyFor(host, on);
      if !force && key in binaries && treeState == Some(key) {
        return Outcome(true, logs[key], Some(binaries[key]));
      }
      var result := host.compile(compiles, key);
      compiles := compiles + 1;
      match result
      case Broke(log, left) =>
        treeState := None;
        holds := left;
        out := Outcome(false, log, None);
      case Built(bytes, log) =>
        binaries := binaries[key := Binary(key, bytes)];
        logs := logs[key := log];
        treeState := Some(key);
        holds := Some(key);
        out := Outcome(true, log, Some(binaries[key]));
    }

    /** The tree is in the state asked for, or the next compile puts it there. */
    predicate Delivers(state: Option<bool>, n: nat, on: bool) {
      state == Some(on) || (!host.undeliverable && host.compile(n, on).Built?)
    }

    /** `_ensure_tree_state`: nothing here looks at whether the rebuild worked. */
    method EnsureTreeState(on: bool) returns (ghost ok: bool)
      requires Valid()
      modifies this
      ensures Valid()
      ensures !host.perState ==> ok && binaries == old(binaries) && treeState == old(treeState) && holds == old(holds)
      ensures host.perState && ok ==> holds == Some(on) && treeState == Some(on)
      ensures host.perState && !ok && host.compile(old(compiles), on).Broke? && !host.undeliverable ==>
                holds == host.compile(old(compiles), on).left
      ensures host.perState ==> (ok <==> Delivers(old(treeState), old(compiles), on))
      ensures old(treeState) == Some(KeyFor(host, on)) ==> compiles == old(compiles)
    {
      var key := KeyFor(host, on);
      if !host.perState || treeState == Some(key) {
        return true;
      }
      var out := Build(on, true);
      ok := out.ok;
    }

    /** The binary there already is for this state, or the one the next compile makes, if it makes one. */
    function Delivered(binaries: map<bool, Binary>, n: nat, on: bool): Option<Binary> {
      if KeyFor(host, on) in binaries then Some(binaries[KeyFor(host, on)])
      else match host.compile(n, KeyFor(host, on))
           case Built(bytes, _) => if host.undeliverable then None else Some(Binary(KeyFor(host, on), bytes))
           case Broke(_, _) => None
    }

    /** `_binary_for`. */
    method BinaryFor(on: bool) returns (binary: Option<Binary>)
      requires Valid()
      modifies this
      ensures Valid()
      ensures binary.Some? ==> binary.value.key == KeyFor(host, on)
      ensures binary == Delivered(old(binaries), old(compiles), on)
      ensures lastError == if binary.Some? then old(lastError)
                           else if host.undeliverable then UNSET else host.compile(old(compiles), KeyFor(host, on)).log
      ensures KeyFor(host, on) in old(binaries) ==>
                binary == Some(old(binaries)[KeyFor(host, on)]) && compiles == old(compiles) && treeState == old(treeState)
                && holds == old(holds)
    {
      var key := KeyFor(host, on);
      if key !in binaries {
        var out := Build(on, false);
        if !out.ok {
          lastError := out.log;
        }
      }
      binary := if key in binaries then Some(binaries[key]) else None;
    }

    /** `shell`, up to the command: the state of the tree it runs in. A command that rebuilds the tree is not
        modelled. */
    method Shell(on: bool) returns (ghost ranIn: Option<bool>, ghost ready: bool)
      requires Valid()
      modifies this
      ensures Valid() && ranIn == holds
      ensures host.perState && ready ==> ranIn == Some(on)
      ensures host.perState && !ready && host.compile(old(compiles), on).Broke? && !host.undeliverable ==>
                ranIn == host.compile(old(compiles), on).left
      ensures host.perState ==> (ready <==> Delivers(old(treeState), old(compiles), on))
      ensures old(treeState) == Some(KeyFor(host, on)) ==> ready && ranIn == old(holds)
    {
      ready := EnsureTreeState(on);
      ranIn := holds;
    }

    /** `run_traces`: an empty binary counts as none. */
    method RunTraces(traces: seq<string>, on: bool) returns (out: Traces)
      requires Valid()
      modifies this
      ensures Valid()
      ensures match out
              case Ran(binary) =>
                (traces != [] || !host.refusesNothing) && binary.key == KeyFor(host, on) && binary.bytes != ""
              case NotRun(failed, _) => failed == traces
      ensures out.Ran? <==> !(traces == [] && host.refusesNothing)
                            && exists bytes :: bytes != "" && Delivered(old(binaries), old(compiles), on) == Some(Binary(KeyFor(host, on), bytes))
      ensures out.Ran? ==> Delivered(old(binaries), old(compiles), on) == Some(out.binary)
      ensures out.NotRun? && !(traces == [] && host.refusesNothing) ==> out.error == lastError
      ensures out.NotRun? && Delivered(old(binaries), old(compiles), on) == None && !host.undeliverable && traces != [] ==>
                out.error == host.compile(old(compiles), KeyFor(host, on)).log
      ensures traces == [] && host.refusesNothing ==> compiles == old(compiles)
      ensures KeyFor(host, on) in old(binaries) ==> compiles == old(compiles)
    {
      if host.refusesNothing && traces == [] {
        return NotRun([], "no workloads were named");
      }
      var binary := BinaryFor(on);
      if binary == None || binary.value.bytes == "" {
        return NotRun(traces, lastError);
      }
      out := Ran(binary.value);
    }
  }

  /* ------------------------------------------------------------ every session */

  datatype Call = DoBuild(on: bool, force: bool) | DoShell(on: bool) | DoTraces(traces: seq<string>, on: bool)

  /** What a call was seen to do. */
  datatype Seen = SawBuild(out: Outcome) | SawShell(ranIn: Option<bool>, ready: bool) | SawTraces(ran: Traces)

  ghost predicate Right(h: Host, call: Call, seen: Seen) {
    match call
    case DoBuild(on, _) =>
      seen.SawBuild? && (seen.out.ok ==> seen.out.handle.Some? && seen.out.handle.value.key == KeyFor(h, on))
    case DoShell(on) =>
      seen.SawShell? && (h.perState && seen.ready ==> seen.ranIn == Some(on))
    case DoTraces(traces, on) =>
      seen.SawTraces? && (match seen.ran
                          case Ran(binary) => binary.key == KeyFor(h, on)
                          case NotRun(failed, _) => failed == traces)
  }

  /** Any sequence of builds, commands and trace runs: nothing is ever measured on a binary of the other state, and a
      command runs in the state it asked for unless the rebuild for it failed. */
  method Session(host: Host, ghost holds: Option<bool>, calls: seq<Call>) returns (ghost seen: seq<Seen>, e: Executor)
    ensures fresh(e) && e.Valid() && e.host == host
    ensures |seen| == |calls| && forall i :: 0 <= i < |calls| ==> Right(host, calls[i], seen[i])
  {
    hide KeyFor;
    e := new Executor(host, holds);
    seen := [];
    for n := 0 to |calls|
      invariant fresh(e) && e.Valid() && e.host == host && |seen| == n
      invariant forall i :: 0 <= i < n ==> Right(host, calls[i], seen[i])
    {
      match calls[n]
      case DoBuild(on, force) =>
        var out := e.Build(on, force);
        seen := seen + [SawBuild(out)];
      case DoShell(on) =>
        ghost var ranIn, ready := e.Shell(on);
        seen := seen + [SawShell(ranIn, ready)];
      case DoTraces(traces, on) =>
        var out := e.RunTraces(traces, on);
        seen := seen + [SawTraces(out)];
    }
  }

  /** A per-state port that builds with the feature off and not on: the command of an `on` entry still runs, in the
      tree the failed rebuild left, which may be the off one. */
  method FailedRebuildStillRuns(off: string, log: string) returns (ghost ranIn: Option<bool>, e: Executor)
    ensures fresh(e) && e.Valid() && e.host.perState
    ensures ranIn == Some(false)
  {
    var host := Host((n: nat, key: bool) => if key then Broke(log, Some(false)) else Built(off, log), true, false, false);
    e := new Executor(host, None);
    var built := e.Build(false, false);
    ghost var ready;
    ranIn, ready := e.Shell(true);
  }
}
