/** Installing the run scripts on a gem5 node (hosts/gem5/adapter.py, `install_run_dir`): unpack beside the old
    tree, drop the marker, swap entry by entry, write the marker last. Any file operation may raise or kill the
    task, and anyone may edit the directory between installs. */
module RunDirInstall {
  import opened Wrappers

  /** A path relative to the run dir, by its components; directories are where files are. */
  type Path = seq<string>

  type Files = map<Path, string>

  /** What an install records. A digest stands for what it was taken of. */
  datatype Marker = Marker(payload: Files, entries: set<string>, digests: Files)

  const RUNS: string := "runs"
  const PAYLOAD_MARKER: string := ".p2p_payload.json"
  const CACHE: string := "__pycache__"

  /** `_install_scratch`. */
  predicate Scratch(name: string) {
    ".staging-" <= name || ".replaced-" <= name || "." + PAYLOAD_MARKER + "." <= name
  }

  /** `_not_payload`. */
  predicate NotPayload(name: string) {
    name == RUNS || name == PAYLOAD_MARKER || Scratch(name)
  }

  /** The names no payload owns: runs/, the marker, and whatever an install in progress writes. */
  lemma PrivateIff(name: string)
    ensures NotPayload(name) <==>
            || name == "runs" || name == ".p2p_payload.json"
            || (exists rest: string :: name == ".staging-" + rest)
            || (exists rest: string :: name == ".replaced-" + rest)
            || (exists rest: string :: name == "..p2p_payload.json." + rest)
  {
    assert "." + PAYLOAD_MARKER + "." == "..p2p_payload.json.";
    BeginsIff(".staging-", name);
    BeginsIff(".replaced-", name);
    BeginsIff("..p2p_payload.json.", name);
  }

  lemma BeginsIff(start: string, name: string)
    ensures start <= name <==> exists rest: string :: name == start + rest
  {
    if start <= name {
      assert name == start + name[|start|..];
    }
  }

  /** A place a payload can own. */
  predicate Ownable(p: Path) {
    p != [] && !NotPayload(p[0])
  }

  /** Below some __pycache__ directory. */
  predicate Cached(p: Path) {
    exists i :: 0 <= i < |p| - 1 && p[i] == CACHE
  }

  function Tops(files: Files): set<string> {
    set p | p in files && p != [] :: p[0]
  }

  function MarkerOf(payload: Files): Marker {
    Marker(payload, Tops(payload), payload)
  }

  /** Two trees hold the same files under this top-level name. */
  ghost predicate Same(a: Files, b: Files, name: string) {
    forall p: Path :: p != [] && p[0] == name ==> (p in a <==> p in b) && (p in a && p in b ==> a[p] == b[p])
  }

  /** The directory is exactly the payload, outside runs/, the marker and install scratch. */
  ghost predicate Equals(files: Files, payload: Files) {
    forall name: string :: !NotPayload(name) ==> Same(files, payload, name)
  }

  /* ------------------------------------------------------------ file operations */

  /** `_remove_tree`. */
  function Remove(files: Files, dir: Path): (out: Files)
    ensures forall p :: p in out <==> p in files && !(dir < p)
    ensures forall p :: p in out ==> out[p] == files[p]
  {
    map p | p in files && !(dir < p) :: files[p]
  }

  /** `os.rename(root / name, trash / name)`. */
  function MoveOut(files: Files, name: string, trash: string): (out: Files)
    requires name != trash
    ensures forall p: Path :: p != [] && p[0] == name ==> p !in out
    ensures forall other: string :: other != name && other != trash ==> Same(out, files, other)
    ensures forall p: Path :: p != [] && p[0] == name && p in files ==> [trash] + p in out && out[[trash] + p] == files[p]
    ensures forall q: Path :: q != [] && q[0] == trash && (q in files || q in out) && !(q[1..] in files && |q| >= 2 && q[1] == name) ==>
              q in out && q in files && out[q] == files[q]
  {
    assert forall p: Path :: ([trash] + p)[1..] == p;
    var moved := set p | p in files && p != [] && p[0] == name :: [trash] + p;
    map p | p in files.Keys + moved && !(p != [] && p[0] == name) :: if p in moved then files[p[1..]] else files[p]
  }

  /** What waits in the staging directory under this name. */
  ghost predicate Staged(files: Files, staging: string, payload: Files, name: string) {
    forall p: Path :: p != [] && p[0] == name ==>
      ([staging] + p in files <==> p in payload) && (p in payload && [staging] + p in files ==> files[[staging] + p] == payload[p])
  }

  /** `os.rename(staging / name, root / name)`, onto a free name. */
  function MoveIn(files: Files, name: string, staging: string): (out: Files)
    requires name != staging
    ensures forall p: Path :: p != [] && p[0] == name ==> (p in out <==> [staging] + p in files || p in files)
    ensures forall p: Path :: p != [] && p[0] == name && [staging] + p in files ==> p in out && out[p] == files[[staging] + p]
    ensures forall other: string :: other != name && other != staging ==> Same(out, files, other)
    ensures forall p: Path :: p != [] && p[0] != name ==>
              ([staging] + p in out <==> [staging] + p in files)
              && ([staging] + p in out && [staging] + p in files ==> out[[staging] + p] == files[[staging] + p])
    ensures forall p: Path :: p != [] && p[0] == name ==> [staging] + p !in out
  {
    NamedMoves(files, name, staging);
    NoneWaits(files, name, staging);
    OthersStay(files, name, staging);
    Renamed(files, name, staging)
  }

  /** The staged paths under one name, without the staging directory. */
  function Arriving(files: Files, name: string, staging: string): set<Path> {
    set p | p in files && |p| >= 2 && p[0] == staging && p[1] == name :: p[1..]
  }

  function Renamed(files: Files, name: string, staging: string): Files
    requires name != staging
  {
    map p | p in files.Keys + Arriving(files, name, staging) && !(|p| >= 2 && p[0] == staging && p[1] == name) ::
      if p in Arriving(files, name, staging) then (ArrivesFrom(files, name, staging, p); files[[staging] + p]) else files[p]
  }

  lemma ArrivesFrom(files: Files, name: string, staging: string, p: Path)
    ensures p in Arriving(files, name, staging) <==> p != [] && p[0] == name && [staging] + p in files
  {
    var whole := [staging] + p;
    assert whole[1..] == p;
    if p in Arriving(files, name, staging) {
      var q :| q in files && |q| >= 2 && q[0] == staging && q[1] == name && q[1..] == p;
      assert q == [q[0]] + q[1..] == whole;
    }
  }

  lemma NamedMoves(files: Files, name: string, staging: string)
    requires name != staging
    ensures var out := Renamed(files, name, staging);
            && (forall p: Path :: p != [] && p[0] == name ==> (p in out <==> [staging] + p in files || p in files))
            && (forall p: Path :: p != [] && p[0] == name && [staging] + p in files ==> p in out && out[p] == files[[staging] + p])
  {
    hide Arriving;
    forall p: Path | p != [] && p[0] == name
      ensures p in Arriving(files, name, staging) <==> [staging] + p in files
    {
      ArrivesFrom(files, name, staging, p);
    }
  }

  lemma NoneWaits(files: Files, name: string, staging: string)
    requires name != staging
    ensures forall p: Path :: p != [] && p[0] == name ==> [staging] + p !in Renamed(files, name, staging)
  {
    hide Arriving;
    forall p: Path | p != [] && p[0] == name
      ensures [staging] + p !in Renamed(files, name, staging)
    {
      var whole := [staging] + p;
      assert whole[0] == staging && whole[1] == name && |whole| >= 2;
    }
  }

  lemma OthersStay(files: Files, name: string, staging: string)
    requires name != staging
    ensures var out := Renamed(files, name, staging);
            && (forall other: string :: other != name && other != staging ==> Same(out, files, other))
            && (forall p: Path :: p != [] && p[0] != name ==>
                  ([staging] + p in out <==> [staging] + p in files)
                  && ([staging] + p in out && [staging] + p in files ==> out[[staging] + p] == files[[staging] + p]))
  {
    hide Arriving;
    forall p: Path | p != [] && p[0] != name
      ensures p !in Arriving(files, name, staging)
    {
      ArrivesFrom(files, name, staging, p);
    }
  }

  /* ------------------------------------------------------------ what an install checks */

  function NoCaches(files: Files): Files {
    map p | p in files && !(Ownable(p) && Cached(p)) :: files[p]
  }

  /** The two hold the same files of any payload, but for caches. */
  ghost predicate CachesApart(a: Files, b: Files) {
    forall p :: Ownable(p) && !Cached(p) ==> (p in a <==> p in b) && (p in a && p in b ==> a[p] == b[p])
  }

  /** Nothing is left under the scratch directories. */
  ghost predicate Swept(files: Files, tag: string) {
    forall p :: p in files ==> !([".staging-" + tag] < p) && !([".replaced-" + tag] < p)
  }

  /** Apart from scratch, the two hold the same files. */
  ghost predicate ScratchApart(a: Files, b: Files, staging: string, trash: string) {
    forall name: string :: name != staging && name != trash ==> Same(a, b, name)
  }

  lemma ScratchIsNoPayload(a: Files, b: Files, staging: string, trash: string)
    requires Scratch(staging) && Scratch(trash) && ScratchApart(a, b, staging, trash)
    ensures CachesApart(a, b)
  {
    hide Scratch, Cached;
    forall p | Ownable(p) && !Cached(p)
      ensures (p in a <==> p in b) && (p in a && p in b ==> a[p] == b[p])
    {
      assert p[0] != staging && p[0] != trash;
      assert Same(a, b, p[0]);
    }
  }

  /** `_present_files`. */
  function Present(files: Files): set<Path> {
    set p | p in files && Ownable(p) && !Cached(p)
  }

  /** `any(_drift(root, previous).values())`. */
  predicate Drifted(files: Files, m: Marker) {
    || (exists p :: p in m.digests && (p !in files || files[p] != m.digests[p]))
    || (exists e :: e in m.entries && e !in Tops(files))
    || !(Present(files) <= m.digests.Keys)
  }

  /** A marker an install wrote, and the payload it could have been for. */
  ghost predicate Genuine(marker: Option<Marker>) {
    marker.Some? ==> marker.value == MarkerOf(marker.value.payload) && Carriable(marker.value.payload)
  }

  predicate Carriable(payload: Files) {
    RUNS !in Tops(payload) && PAYLOAD_MARKER !in Tops(payload)
  }

  /** Nothing of the payload goes under this top-level name. */
  ghost predicate Leaves(payload: Files, name: string) {
    forall p :: p in payload && p != [] ==> p[0] != name
  }

  lemma LeavesIff(payload: Files, name: string)
    ensures Leaves(payload, name) <==> name !in Tops(payload)
  {
  }

  lemma CarriableIff(payload: Files)
    ensures Carriable(payload) <==> Leaves(payload, "runs") && Leaves(payload, ".p2p_payload.json")
  {
  }

  /** With a genuine marker, no drift means the directory is the payload. */
  lemma NoDriftIsEqual(files: Files, payload: Files)
    requires !Drifted(NoCaches(files), MarkerOf(payload))
    ensures Equals(NoCaches(files), payload)
  {
    hide Tops, Cached, NotPayload;
    var kept := NoCaches(files);
    forall name: string | !NotPayload(name)
      ensures Same(kept, payload, name)
    {
      forall p: Path | p != [] && p[0] == name
        ensures p in kept <==> p in payload
      {
        if p in kept {
          assert p in Present(kept);
        }
      }
    }
  }

  /** When an install of the same payload rests: exactly when the payload carries no __pycache__ of its own. The
      purge deletes what the payload put there, and the check then misses it. */
  lemma RestsIffNoCache(files: Files, payload: Files)
    requires Equals(files, payload) && forall p :: p in payload ==> Ownable(p)
    ensures Drifted(NoCaches(files), MarkerOf(payload)) <==> exists p :: p in payload && Cached(p)
  {
    hide Cached, NotPayload;
    var kept := NoCaches(files);
    forall p | p in payload
      ensures p in files && files[p] == payload[p]
    {
      assert Same(files, payload, p[0]);
    }
    forall p | p in Present(kept)
      ensures p in payload
    {
      assert Same(files, payload, p[0]);
    }
    forall e | e in Tops(payload)
      ensures (forall p :: p in payload ==> !Cached(p)) ==> e in Tops(kept)
    {
      var p :| p in payload && p != [] && p[0] == e;
      assert !Cached(p) ==> p in kept;
    }
  }

  /* ------------------------------------------------------------ the directory */

  datatype Fault = Fine | Raises | Dies

  datatype Result = NoOp | Installed | Refused | Died

  ghost predicate Installable(payload: Files, tag: string) {
    && Leaves(payload, "runs") && Leaves(payload, ".p2p_payload.json")
    && Leaves(payload, ".staging-" + tag) && Leaves(payload, ".replaced-" + tag)
  }

  /** No plain file stands where the scratch directories go. */
  predicate NoScratchFile(files: Files, tag: string) {
    [".staging-" + tag] !in files && [".replaced-" + tag] !in files
  }

  lemma PurgeKeepsNames(files: Files, tag: string)
    ensures NoScratchFile(files, tag) ==> NoScratchFile(NoCaches(files), tag)
  {
  }

  class RunDir {
    /** What befalls the n-th file operation ever made here. */
    const fault: nat -> Fault
    var files: Files
    var marker: Option<Marker>
    var ops: nat

    constructor (fault: nat -> Fault, files: Files)
      ensures this.fault == fault && this.files == files && marker == None
    {
      this.fault, this.files, marker, ops := fault, files, None, 0;
    }

    /** No file operation fails. */
    ghost predicate Healthy() {
      forall n: nat :: fault(n) == Fine
    }

    /** How a run of file operations went: well when each did, and it ends with the first that did not. */
    ghost predicate Went(f: Fault, start: nat, end: nat) {
      && start <= end
      && (forall n: nat :: start <= n < end && f != Dies ==> fault(n) != Dies)
      && (forall n: nat :: start <= n < end && f == Fine ==> fault(n) == Fine)
      && (f == Dies ==> start < end && fault(end - 1) == Dies)
    }

    /** A refusal that is no file operation's. */
    lemma MayRefuse(start: nat, end: nat)
      ensures Went(Fine, start, end) ==> Went(Raises, start, end)
    {
    }

    lemma NothingYet(start: nat)
      ensures Went(Fine, start, start)
    {
    }

    method Attempt(ghost start: nat) returns (f: Fault)
      requires Went(Fine, start, ops)
      modifies this`ops
      ensures f == fault(old(ops)) && ops == old(ops) + 1
      ensures Went(f, start, ops)
    {
      f := fault(ops);
      ops := ops + 1;
    }

    /** `_purge_caches`. */
    method PurgeCaches(ghost start: nat) returns (f: Fault)
      requires Went(Fine, start, ops)
      modifies this`files, this`ops
      ensures Same(files, old(files), RUNS)
      ensures f == Fine ==> files == NoCaches(old(files))
      ensures CachesApart(files, old(files))
      ensures Went(f, start, ops)
      ensures Healthy() ==> f == Fine
    {
      hide NotPayload;
      while exists p :: p in files && Ownable(p) && Cached(p)
        invariant forall p :: p in files ==> p in old(files) && files[p] == old(files)[p]
        invariant forall p :: p in old(files) && !(Ownable(p) && Cached(p)) ==> p in files
        invariant Went(Fine, start, ops)
        decreases |files|
      {
        var p :| p in files && Ownable(p) && Cached(p);
        var i :| 0 <= i < |p| - 1 && p[i] == CACHE;
        f := Attempt(start);
        if f != Fine {
          RunsAreKept(old(files), files);
          return;
        }
        RemoveShrinks(files, p[..i + 1], p);
        BelowIsCached(p, i);
        files := Remove(files, p[..i + 1]);
      }
      f := Fine;
      RunsAreKept(old(files), files);
    }

    /** `_extract_payload` into the empty staging directory. */
    method Extract(payload: Files, staging: string, ghost start: nat) returns (f: Fault)
      requires [] !in payload && forall p :: p in files && p != [] ==> p[0] != staging
      requires Went(Fine, start, ops)
      modifies this`files, this`ops
      ensures Went(f, start, ops)
      ensures Healthy() ==> f == Fine
      ensures OthersSame(files, old(files), staging)
      ensures f == Fine ==> forall name: string :: Staged(files, staging, payload, name)
    {
      var rest := payload.Keys;
      while rest != {}
        invariant rest <= payload.Keys
        invariant OthersSame(files, old(files), staging)
        invariant forall p: Path :: [staging] + p in files <==> p in payload && p !in rest
        invariant forall p: Path :: p in payload && p !in rest && [staging] + p in files ==> files[[staging] + p] == payload[p]
        invariant Went(Fine, start, ops)
        decreases |rest|
      {
        var p :| p in rest;
        f := Attempt(start);
        if f != Fine {
          return;
        }
        AtStaging(staging, p);
        PutKeepsOthers(files, old(files), staging, p, payload[p]);
        files := files[[staging] + p := payload[p]];
        rest := rest - {p};
      }
      f := Fine;
    }

    /** The swap: each entry and each stale name out, each entry in. */
    method Swap(payload: Files, stale: set<string>, staging: string, trash: string, ghost start: nat) returns (f: Fault)
      requires staging != trash && Scratch(staging) && Scratch(trash) && Carriable(payload)
      requires forall name :: name in stale ==> !NotPayload(name)
      requires Swapping(files, payload, files, Tops(payload) + stale, staging)
      requires Went(Fine, start, ops)
      modifies this`files, this`ops
      ensures Same(files, old(files), RUNS)
      ensures f == Fine ==> Equals(files, payload)
      ensures Went(f, start, ops)
      ensures Healthy() && staging !in Tops(payload) + stale && trash !in Tops(payload) + stale ==> f == Fine
    {
      hide Same, Scratch, Tops, Swapping, Free, Equals, Went;
      var entries := Tops(payload);
      var rest := entries + stale;
      while rest != {}
        invariant rest <= entries + stale && Swapping(files, payload, old(files), rest, staging)
        invariant Went(Fine, start, ops)
        decreases |rest|
      {
        SwappingKeepsRuns(files, payload, old(files), rest, staging);
        var name :| name in rest;
        assert name != RUNS;
        if name == staging || name == trash {
          MayRefuse(start, ops);
          return Raises;
        }
        if name in Tops(files) {
          f := Attempt(start);
          if f != Fine {
            return;
          }
          OutOf(files, payload, old(files), rest, name, staging, trash);
          files := MoveOut(files, name, trash);
        } else {
          NotTopIsFree(files, name);
        }
        SwappingKeepsRuns(files, payload, old(files), rest, staging);
        if name in entries {
          f := Attempt(start);
          if f != Fine {
            return;
          }
          InTo(files, payload, old(files), rest, name, staging);
          files := MoveIn(files, name, staging);
        } else {
          StaleIsGone(files, payload, old(files), rest, name, staging);
        }
        rest := rest - {name};
      }
      f := Fine;
      SwappingKeepsRuns(files, payload, old(files), rest, staging);
      SwappedIsEqual(files, payload, old(files), rest, staging);
    }

    /** `install_run_dir`. `tag` is the digest and process id its scratch names end in. */
    method Install(payload: Files, tag: string) returns (r: Result)
      requires Genuine(marker) && [] !in payload
      modifies this
      ensures Genuine(marker)
      ensures Same(files, old(files), RUNS)
      ensures r == NoOp || r == Installed ==> Equals(files, payload)
      ensures r == Installed ==> marker == Some(MarkerOf(payload))
      ensures r == NoOp ==> marker == old(marker) == Some(MarkerOf(payload)) && files == NoCaches(old(files))
      ensures r == NoOp || r == Installed ==>
                (r == NoOp <==> old(marker) == Some(MarkerOf(payload)) && payload != map[]
                                && !Drifted(NoCaches(old(files)), MarkerOf(payload)))
      ensures r == NoOp || r == Installed ==> Leaves(payload, "runs") && Leaves(payload, ".p2p_payload.json")
      ensures r == Installed ==> Swept(files, tag)
      ensures r == Refused || r == Died ==>
                marker == None || (marker == old(marker) && CachesApart(files, old(files)))
      ensures Went(if r == Died then Dies else if r == Refused then Raises else Fine, old(ops), ops)
      ensures Healthy() && Installable(payload, tag) && NoScratchFile(old(files), tag) ==> r == NoOp || r == Installed
    {
      hide Drifted, Same, Staged, Scratch, Equals, MarkerOf, NoCaches, Tops, Swapping, NotPayload, CachesApart, Swept, Ownable, Cached, Went;
      ghost var start := ops;
      NothingYet(start);
      var f := PurgeCaches(start);
      if f != Fine {
        return Fail(f);
      }
      PurgeKeepsNames(old(files), tag);
      MarkerSays(marker, payload);
      CarriableIff(payload);
      if marker.Some? && marker.value.payload == payload && payload != map[] && !Drifted(files, marker.value) {
        NoDriftIsEqual(old(files), payload);
        return NoOp;
      }
      ghost var purged := files;
      f := Replace(payload, tag, start);
      SameTrans(files, purged, old(files), RUNS);
      CachesApartTrans(files, purged, old(files));
      r := if f == Fine then Installed else Fail(f);
    }

    /** The rest of it: stage, drop the marker, swap, write the marker, and clean up unless the task died. */
    method Replace(payload: Files, tag: string, ghost start: nat) returns (f: Fault)
      requires Genuine(marker) && [] !in payload
      requires Went(Fine, start, ops)
      modifies this
      ensures Genuine(marker)
      ensures Same(files, old(files), RUNS)
      ensures f == Fine ==> Equals(files, payload) && marker == Some(MarkerOf(payload))
      ensures f == Fine ==> Carriable(payload)
      ensures f != Dies ==> Swept(files, tag)
      ensures f != Fine ==> marker == None || (marker == old(marker) && CachesApart(files, old(files)))
      ensures Went(f, start, ops)
      ensures Healthy() && Installable(payload, tag) && NoScratchFile(old(files), tag) ==> f == Fine
    {
      hide Same, Staged, Scratch, Equals, MarkerOf, Tops, Swapping, NotPayload, CachesApart, ScratchApart, Ownable, Cached, Went;
      var staging, trash := ".staging-" + tag, ".replaced-" + tag;
      ScratchNames(tag);
      CarriableIff(payload);
      LeavesIff(payload, staging);
      LeavesIff(payload, trash);
      f := Prepare(staging, trash, start);
      ghost var prepared := files;
      SameSelf(files, RUNS);
      PreparedApart(files, old(files), staging, trash);
      if f == Fine {
        f := Extract(payload, staging, start);
      }
      SameTrans(files, prepared, old(files), RUNS);
      StagingApart(files, prepared, old(files), staging, trash);
      ghost var staged := files;
      if f == Fine && !Carriable(payload) {
        MayRefuse(start, ops);
        f := Raises;
      }
      if f == Fine {
        var stale := set name | name in Tops(files) && name !in Tops(payload) && !NotPayload(name);
        f := Attempt(start);
        if f == Fine {
          marker := None;
          f := Attempt(start);
        }
        if f == Fine {
          ReadyToSwap(files, payload, stale, staging);
          ScratchIsNotRuns(staging);
          ScratchIsNotRuns(trash);
          f := Swap(payload, stale, staging, trash, start);
          SameTrans(files, staged, old(files), RUNS);
        }
        if f == Fine {
          f := Attempt(start);
        }
        if f == Fine {
          f := Attempt(start);
        }
        if f == Fine {
          marker := Some(MarkerOf(payload));
          MarkerIsGenuine(payload);
        }
      }
      if f != Dies {
        CleanKeeps(files, payload, old(files), staging, trash);
        CleanIsApart(files, old(files), staging, trash);
        files := Remove(Remove(files, [staging]), [trash]);
      }
      if f != Fine && marker != None {
        ScratchIsNoPayload(files, old(files), staging, trash);
      }
    }

    function Fail(f: Fault): Result {
      if f == Dies then Died else Refused
    }

    /** runs/ and the two empty scratch directories. */
    method Prepare(staging: string, trash: string, ghost start: nat) returns (f: Fault)
      requires Scratch(staging) && Scratch(trash)
      requires Went(Fine, start, ops)
      modifies this`files, this`ops
      ensures forall name: string :: name != staging && name != trash ==> Same(files, old(files), name)
      ensures f == Fine ==> forall p :: p in files && p != [] ==> p[0] != staging && p[0] != trash
      ensures Went(f, start, ops)
      ensures Healthy() && [staging] !in old(files) && [trash] !in old(files) ==> f == Fine
    {
      hide Same, Went;
      RemovedElsewhere(files, staging, trash);
      f := Attempt(start);
      if f == Fine {
        f := Attempt(start);
        if f == Fine && [staging] in files {
          MayRefuse(start, ops);
          f := Raises;
        }
      }
      if f == Fine {
        RemovedTop(files, staging);
        files := Remove(files, [staging]);
        f := Attempt(start);
        if f == Fine && [trash] in files {
          MayRefuse(start, ops);
          f := Raises;
        }
      }
      if f == Fine {
        RemovedTop(files, trash);
        files := Remove(files, [trash]);
        f := Attempt(start);
      }
    }
  }

  /** What the swap keeps: runs/ as it was, every waiting entry staged, every finished name as in the payload. */
  ghost predicate Swapping(files: Files, payload: Files, before: Files, rest: set<string>, staging: string) {
    && Same(files, before, RUNS)
    && (forall name: string :: name in rest ==> Staged(files, staging, payload, name))
    && (forall name: string :: name !in rest && !NotPayload(name) ==> Same(files, payload, name))
  }

  ghost predicate Free(files: Files, name: string) {
    forall p: Path :: p != [] && p[0] == name ==> p !in files
  }

  lemma NotTopIsFree(files: Files, name: string)
    requires name !in Tops(files)
    ensures Free(files, name)
  {
  }

  lemma SwappingKeepsRuns(files: Files, payload: Files, before: Files, rest: set<string>, staging: string)
    requires Swapping(files, payload, before, rest, staging)
    ensures Same(files, before, RUNS)
  {
    hide Same, Staged, NotPayload;
  }

  lemma SwappedIsEqual(files: Files, payload: Files, before: Files, rest: set<string>, staging: string)
    requires Swapping(files, payload, before, rest, staging) && rest == {}
    ensures Equals(files, payload)
  {
    hide Same, Staged, NotPayload;
  }

  lemma StagedFollows(a: Files, b: Files, staging: string, payload: Files, name: string)
    requires Same(a, b, staging) && Staged(b, staging, payload, name)
    ensures Staged(a, staging, payload, name)
  {
    forall p: Path | p != [] && p[0] == name
      ensures [staging] + p in a <==> [staging] + p in b
      ensures [staging] + p in a && [staging] + p in b ==> a[[staging] + p] == b[[staging] + p]
    {
      var whole := [staging] + p;
      assert whole[0] == staging;
    }
  }

  lemma SameTrans(a: Files, b: Files, c: Files, name: string)
    requires Same(a, b, name) && Same(b, c, name)
    ensures Same(a, c, name)
  {
  }

  lemma OutOf(files: Files, payload: Files, before: Files, rest: set<string>, name: string, staging: string, trash: string)
    requires Swapping(files, payload, before, rest, staging) && name in rest && name != staging && name != trash
    requires name != RUNS && staging != trash && Scratch(staging) && Scratch(trash)
    ensures Swapping(MoveOut(files, name, trash), payload, before, rest, staging)
    ensures Free(MoveOut(files, name, trash), name)
  {
    hide Same, Staged, MoveOut, Scratch;
    var after := MoveOut(files, name, trash);
    ScratchIsNotRuns(trash);
    SameTrans(after, files, before, RUNS);
    forall n: string | n in rest
      ensures Staged(after, staging, payload, n)
    {
      StagedFollows(after, files, staging, payload, n);
    }
    forall n: string | n !in rest && !NotPayload(n)
      ensures Same(after, payload, n)
    {
      SameTrans(after, files, payload, n);
    }
  }

  lemma ScratchIsNotRuns(name: string)
    requires Scratch(name)
    ensures name != RUNS && NotPayload(name)
  {
  }

  lemma InTo(files: Files, payload: Files, before: Files, rest: set<string>, name: string, staging: string)
    requires Swapping(files, payload, before, rest, staging) && name in rest && name != staging && name != RUNS
    requires Free(files, name) && Scratch(staging)
    ensures Swapping(MoveIn(files, name, staging), payload, before, rest - {name}, staging)
  {
    hide Same, MoveIn, Scratch, Swapping;
    ScratchIsNotRuns(staging);
    var after := MoveIn(files, name, staging);
    InToName(files, payload, rest, before, name, staging);
    forall n: string | n in rest - {name}
      ensures Staged(after, staging, payload, n)
    {
      InToOther(files, payload, rest, before, name, staging, n);
    }
    forall n: string | n !in rest && !NotPayload(n)
      ensures Same(after, payload, n)
    {
      SwappingDone(files, payload, before, rest, staging, n);
      SameTrans(after, files, payload, n);
    }
    SwappingKeepsRuns(files, payload, before, rest, staging);
    SameTrans(after, files, before, RUNS);
    SwappingOf(after, payload, before, rest - {name}, staging);
  }

  lemma SwappingOf(files: Files, payload: Files, before: Files, rest: set<string>, staging: string)
    requires Same(files, before, RUNS)
    requires forall name: string :: name in rest ==> Staged(files, staging, payload, name)
    requires forall name: string :: name !in rest && !NotPayload(name) ==> Same(files, payload, name)
    ensures Swapping(files, payload, before, rest, staging)
  {
    hide Same, Staged, NotPayload;
  }

  lemma SwappingDone(files: Files, payload: Files, before: Files, rest: set<string>, staging: string, n: string)
    requires Swapping(files, payload, before, rest, staging)
    ensures n !in rest && !NotPayload(n) ==> Same(files, payload, n)
    ensures n in rest ==> Staged(files, staging, payload, n)
  {
    hide Same, Staged, NotPayload;
  }

  lemma InToName(files: Files, payload: Files, rest: set<string>, before: Files, name: string, staging: string)
    requires Swapping(files, payload, before, rest, staging) && name in rest && name != staging && Free(files, name)
    ensures Same(MoveIn(files, name, staging), payload, name)
  {
    hide MoveIn, Swapping;
    SwappingDone(files, payload, before, rest, staging, name);
  }

  lemma InToOther(files: Files, payload: Files, rest: set<string>, before: Files, name: string, staging: string, n: string)
    requires Swapping(files, payload, before, rest, staging) && n in rest && n != name && name != staging
    ensures Staged(MoveIn(files, name, staging), staging, payload, n)
  {
    hide MoveIn, Swapping;
    SwappingDone(files, payload, before, rest, staging, n);
  }

  lemma StaleIsGone(files: Files, payload: Files, before: Files, rest: set<string>, name: string, staging: string)
    requires Swapping(files, payload, before, rest, staging) && Free(files, name) && name !in Tops(payload)
    ensures Swapping(files, payload, before, rest - {name}, staging)
  {
    hide NotPayload, Staged, Swapping;
    assert Same(files, payload, name);
    forall n: string | n !in rest - {name} && !NotPayload(n)
      ensures Same(files, payload, n)
    {
      SwappingDone(files, payload, before, rest, staging, n);
    }
    forall n: string | n in rest - {name}
      ensures Staged(files, staging, payload, n)
    {
      SwappingDone(files, payload, before, rest, staging, n);
    }
    SwappingKeepsRuns(files, payload, before, rest, staging);
    SwappingOf(files, payload, before, rest - {name}, staging);
  }

  lemma ReadyToSwap(files: Files, payload: Files, stale: set<string>, staging: string)
    requires forall name: string :: Staged(files, staging, payload, name)
    requires stale == set name | name in Tops(files) && name !in Tops(payload) && !NotPayload(name)
    ensures Swapping(files, payload, files, Tops(payload) + stale, staging)
    ensures forall name :: name in stale ==> !NotPayload(name)
  {
    hide NotPayload, Staged;
    SameSelf(files, RUNS);
    forall name: string | name !in Tops(payload) + stale && !NotPayload(name)
      ensures Same(files, payload, name)
    {
      NotTopIsFree(payload, name);
      NotTopIsFree(files, name);
    }
  }

  lemma MarkerSays(marker: Option<Marker>, payload: Files)
    requires Genuine(marker)
    ensures marker.Some? && marker.value.payload == payload <==> marker == Some(MarkerOf(payload)) && Carriable(payload)
    ensures marker == Some(MarkerOf(payload)) ==> Carriable(payload)
  {
  }

  lemma MarkerIsGenuine(payload: Files)
    requires Carriable(payload)
    ensures Genuine(Some(MarkerOf(payload)))
  {
  }

  lemma ScratchNames(tag: string)
    ensures var staging, trash := ".staging-" + tag, ".replaced-" + tag;
            Scratch(staging) && Scratch(trash) && staging != trash && staging != RUNS && trash != RUNS
  {
    var staging, trash := ".staging-" + tag, ".replaced-" + tag;
    assert staging[1] == 's' && trash[1] == 'r';
  }

  lemma CleanKeeps(files: Files, payload: Files, before: Files, staging: string, trash: string)
    requires Scratch(staging) && Scratch(trash)
    ensures var after := Remove(Remove(files, [staging]), [trash]);
            && (Same(files, before, RUNS) ==> Same(after, before, RUNS))
            && (Equals(files, payload) ==> Equals(after, payload))
  {
    hide Scratch, NotPayload, Remove;
    ScratchIsNotRuns(staging);
    ScratchIsNotRuns(trash);
    var after := Remove(Remove(files, [staging]), [trash]);
    forall name: string | name != staging && name != trash
      ensures Same(after, files, name)
    {
    }
    if Equals(files, payload) {
      forall name: string | !NotPayload(name)
        ensures Same(after, payload, name)
      {
        SameTrans(after, files, payload, name);
      }
    }
  }

  lemma CachesApartTrans(a: Files, b: Files, c: Files)
    ensures CachesApart(a, b) && CachesApart(b, c) ==> CachesApart(a, c)
  {
    hide Ownable, Cached;
  }

  lemma PreparedApart(a: Files, b: Files, staging: string, trash: string)
    requires forall name: string :: name != staging && name != trash ==> Same(a, b, name)
    ensures ScratchApart(a, b, staging, trash) && OthersSame(a, a, staging)
  {
  }

  lemma StagingApart(a: Files, b: Files, c: Files, staging: string, trash: string)
    requires OthersSame(a, b, staging) && ScratchApart(b, c, staging, trash)
    ensures ScratchApart(a, c, staging, trash)
  {
    hide Same;
    forall name: string | name != staging && name != trash
      ensures Same(a, c, name)
    {
      assert Same(a, b, name) && Same(b, c, name);
      SameTrans(a, b, c, name);
    }
  }

  lemma CleanIsApart(files: Files, before: Files, staging: string, trash: string)
    ensures var after := Remove(Remove(files, [staging]), [trash]);
            && (forall p :: p in after ==> !([staging] < p) && !([trash] < p))
            && (ScratchApart(files, before, staging, trash) ==> ScratchApart(after, before, staging, trash))
  {
    hide Remove;
    var after := Remove(Remove(files, [staging]), [trash]);
    RemovedElsewhere(files, staging, trash);
    if ScratchApart(files, before, staging, trash) {
      forall name: string | name != staging && name != trash
        ensures Same(after, before, name)
      {
        assert Same(after, files, name) && Same(files, before, name);
        SameTrans(after, files, before, name);
      }
    }
  }

  lemma SameSelf(files: Files, name: string)
    ensures Same(files, files, name)
  {
  }

  lemma RunsAreKept(before: Files, after: Files)
    requires forall p :: p in after ==> p in before && after[p] == before[p]
    requires forall p :: p in before && !(Ownable(p) && Cached(p)) ==> p in after
    ensures Same(after, before, RUNS)
  {
  }

  lemma RemoveShrinks(files: Files, dir: Path, p: Path)
    requires p in files && dir < p
    ensures |Remove(files, dir)| < |files|
  {
    assert Remove(files, dir).Keys < files.Keys;
    assert |Remove(files, dir).Keys| < |files.Keys| by { Fewer(Remove(files, dir).Keys, files.Keys); }
  }

  lemma Fewer(a: set<Path>, b: set<Path>)
    requires a < b
    ensures |a| < |b|
  {
    var x :| x in b && x !in a;
    assert a <= b - {x};
    NoMore(a, b - {x});
  }

  lemma {:induction false} NoMore(a: set<Path>, b: set<Path>)
    requires a <= b
    ensures |a| <= |b|
  {
    if a != {} {
      var x :| x in a;
      NoMore(a - {x}, b - {x});
    }
  }

  lemma BelowIsCached(p: Path, i: nat)
    requires i < |p| - 1 && p[i] == CACHE && Ownable(p)
    ensures forall q: Path :: p[..i + 1] < q ==> Ownable(q) && Cached(q)
  {
    forall q: Path | p[..i + 1] < q
      ensures Ownable(q) && Cached(q)
    {
      assert q[i] == p[..i + 1][i] && q[0] == p[..i + 1][0];
    }
  }

  lemma PutKeepsOthers(files: Files, before: Files, staging: string, p: Path, content: string)
    requires OthersSame(files, before, staging)
    ensures OthersSame(files[[staging] + p := content], before, staging)
  {
    var whole := [staging] + p;
    var after := files[whole := content];
    assert whole[0] == staging;
    forall name: string | name != staging
      ensures Same(after, before, name)
    {
      assert Same(files, before, name);
    }
  }

  ghost predicate OthersSame(a: Files, b: Files, top: string) {
    forall name: string :: name != top ==> Same(a, b, name)
  }

  lemma RemovedElsewhere(files: Files, staging: string, trash: string)
    ensures forall name: string :: Same(files, files, name)
    ensures forall name: string :: name != staging ==> Same(Remove(files, [staging]), files, name)
    ensures forall name: string :: name != staging && name != trash ==> Same(Remove(Remove(files, [staging]), [trash]), files, name)
  {
  }

  lemma RemovedTop(files: Files, top: string)
    requires [top] !in files
    ensures forall p :: p in Remove(files, [top]) && p != [] ==> p[0] != top
  {
    forall p: Path | p in files && p != [] && p[0] == top
      ensures [top] < p
    {
      assert p != [top];
      assert p[..1] == [top];
    }
  }

  lemma AtStaging(staging: string, p: Path)
    ensures forall q: Path :: [staging] + q == [staging] + p ==> q == p
  {
    forall q: Path | [staging] + q == [staging] + p
      ensures q == p
    {
      assert ([staging] + q)[1..] == q && ([staging] + p)[1..] == p;
    }
  }

  /* ------------------------------------------------------------ every history */

  datatype Event = Edit(files: Files) | Install(payload: Files, tag: string)

  datatype Step = Step(event: Event, result: Result, before: Files, after: Files)

  /** What every step of every history keeps: an install never touches runs/, and one that reports ok leaves exactly
      its payload. */
  ghost predicate Safe(s: Step) {
    match s.event
    case Edit(files) => s.after == files
    case Install(payload, _) =>
      Same(s.after, s.before, RUNS) && (s.result == NoOp || s.result == Installed ==> Equals(s.after, payload))
  }

  ghost predicate Chained(start: Files, log: seq<Step>) {
    forall i: nat :: i < |log| ==> log[i].before == Now(start, log[..i])
  }

  function Now(start: Files, log: seq<Step>): Files {
    if log == [] then start else log[|log| - 1].after
  }

  lemma NoSteps(start: Files)
    ensures Chained(start, [])
  {
  }

  lemma OneMoreStep(start: Files, log: seq<Step>, step: Step)
    requires Chained(start, log) && step.before == Now(start, log)
    ensures Chained(start, log + [step]) && Now(start, log + [step]) == step.after
  {
    var all := log + [step];
    forall i: nat | i < |all|
      ensures all[i].before == Now(start, all[..i])
    {
      assert all[..i] == log[..i];
      if i < |log| {
        assert log[i].before == Now(start, log[..i]);
      } else {
        assert log[..i] == log;
      }
    }
  }

  /** Installs, edits in between, and a fault or a death at any file operation. */
  method History(dir: RunDir, events: seq<Event>) returns (log: seq<Step>)
    requires Genuine(dir.marker) && forall e :: e in events && e.Install? ==> [] !in e.payload
    modifies dir
    ensures Genuine(dir.marker) && |log| == |events|
    ensures forall i :: 0 <= i < |log| ==> log[i].event == events[i] && Safe(log[i])
    ensures Chained(old(dir.files), log) && dir.files == Now(old(dir.files), log)
  {
    hide Same, Equals, Genuine, MarkerOf, Drifted, NoCaches, Installable, NoScratchFile, Chained;
    NoSteps(dir.files);
    log := [];
    for n := 0 to |events|
      invariant Genuine(dir.marker) && |log| == n
      invariant forall i :: 0 <= i < n ==> log[i].event == events[i] && Safe(log[i])
      invariant Chained(old(dir.files), log) && dir.files == Now(old(dir.files), log)
    {
      var before := dir.files;
      match events[n]
      case Edit(files) =>
        dir.files := files;
        OneMoreStep(old(dir.files), log, Step(events[n], NoOp, before, dir.files));
        log := log + [Step(events[n], NoOp, before, dir.files)];
      case Install(payload, tag) =>
        var result := dir.Install(payload, tag);
        OneMoreStep(old(dir.files), log, Step(events[n], result, before, dir.files));
        log := log + [Step(events[n], result, before, dir.files)];
    }
  }
}
