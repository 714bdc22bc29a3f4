/** One round through the schema drop (loop/spec_review.py, `_drop_schema_breaking_patches`): it tests one document and
    returns another, which fails a schema that counts equal elements. */
module FailingRound {
  import opened Wrappers
  import opened Json
  import opened JsonPointer
  import opened Strings
  import opened Patches
  import opened SharedValues
  import opened RecordPaths
  import opened PlacedValues
  import opened SpecSchema
  import opened OrderlyRounds
  import opened DropPasses

  function Spec(): Json {
    Obj(map["a" := Null, "b" := Num(0.0)])
  }

  /** A patch to `/b`, which the schema below refuses. */
  function Breaking(): Patch {
    Patch(1, Replace, "/b", Num(1.0))
  }

  /** An append to a list inside what the rewrite of `/a` places. */
  function Appended(v: Json): Patch {
    Patch(2, Add, "/a/l/-", v)
  }

  function Round(v: Json): seq<Patch> {
    [Rewrite(), Breaking(), Appended(v)]
  }

  function ListLength(doc: Json): nat {
    var l := Get(Get(doc, "a"), "l");
    if l.Arr? then |l.items| else 0
  }

  /** `/b` must stay, and the list holds `limit` elements at most. */
  function CountErrors(limit: nat, doc: Json): nat {
    (if Get(doc, "b") == Num(0.0) then 0 else 1) + (if ListLength(doc) > limit then 1 else 0)
  }

  /** The records after the append was written `n` times. */
  function Written(v: Json, n: nat): Records {
    Records(map[0 := ["a"], 1 := ["b"], 2 := ["a", "l", "-"]],
            map[0 := Holding(Times(n)), 1 := Tag(Num(1.0)), 2 := Tag(v)])
  }

  function Times(n: nat): (items: seq<Tree>)
    ensures |items| == n && forall i :: 0 <= i < n ==> items[i] == Ref(2)
  {
    seq(n, i => Ref(2))
  }

  function Doc(a: Tree, b: Tree): Tree {
    Dict(map["a" := a, "b" := b])
  }

  /* ------------------------------------------------------------ its steps */

  lemma PlacesRead(v: Json)
    ensures PtrSplit("/a") == Some(["a"]) && PtrSplit("/b") == Some(["b"]) && PtrSplit("/a/l/-") == Some(["a", "l", "-"])
    ensures PlaceOf(Rewrite()) == ["a"] && PlaceOf(Breaking()) == ["b"] && PlaceOf(Appended(v)) == ["a", "l", "-"]
  {
    hide PtrSplit, Render;
    PointersRead();
    assert Render(["b"]) == "/b" by { OneToken("b"); }
    SplitInvertsRender(["b"]);
  }

  lemma OneToken(token: string)
    requires Escape(token) == token
    ensures Render([token]) == "/" + token
  {
    hide Escape;
    assert [token][1..] == [] && Render([]) == "";
  }

  lemma SpecTree()
    ensures Tag(Spec()) == Doc(Leaf(Null), Leaf(Num(0.0)))
  {
    assert Tag(Spec()).fields == map["a" := Leaf(Null), "b" := Leaf(Num(0.0))];
  }

  lemma StepRewrite(a: Tree, b: Tree, r: Records)
    ensures Step(State(Doc(a, b), r, []), Rewrite()) == State(Doc(Ref(0), b), r, [])
  {
    hide PtrSplit;
    PlacesRead(Null);
    assert map["a" := a, "b" := b]["a" := Ref(0)] == map["a" := Ref(0), "b" := b];
  }

  lemma StepBreaking(a: Tree, b: Tree, r: Records)
    ensures Step(State(Doc(a, b), r, []), Breaking()) == State(Doc(a, Ref(1)), r, [])
  {
    hide PtrSplit;
    PlacesRead(Null);
    assert map["a" := a, "b" := b]["b" := Ref(1)] == map["a" := a, "b" := Ref(1)];
  }

  /** Where the rewrite was placed, the append goes into its record. */
  lemma StepInside(v: Json, n: nat, b: Tree)
    ensures Step(State(Doc(Ref(0), b), Written(v, n), []), Appended(v)) == State(Doc(Ref(0), b), Written(v, n + 1), [])
  {
    hide PtrSplit, Tag, Times;
    PlacesRead(v);
    var r, doc, tokens, items := Written(v, n), Doc(Ref(0), b), ["a", "l", "-"], Times(n);
    assert tokens[1..] == ["l", "-"] && ["l", "-"][1..] == ["-"];
    assert Enter(r, Holding(items), ["l", "-"]) == None by {
      assert Child(Holding(items), "l") == Some(List(items));
      assert Enter(r, List(items), ["-"]) == None;
    }
    assert Enter(r, Ref(0), ["l", "-"]) == Some(Entry(0, ["l", "-"]));
    assert Child(doc, "a") == Some(Ref(0));
    assert Enter(r, doc, tokens) == Some(Entry(0, ["l", "-"]));
    PutOneMore(items);
    assert Times(n + 1) == items + [Ref(2)];
    assert r.values[0 := Holding(items + [Ref(2)])] == Written(v, n + 1).values;
  }

  lemma PutOneMore(items: seq<Tree>)
    ensures Put(Holding(items), ["l", "-"], Ref(2), Add) == Some(Holding(items + [Ref(2)]))
  {
    assert ["l", "-"][1..] == ["-"];
    assert map["l" := List(items)]["l" := List(items + [Ref(2)])] == map["l" := List(items + [Ref(2)])];
  }

  /** Where it was not, there is no list to append to. */
  lemma StepNowhere(v: Json, b: Tree, r: Records)
    ensures Step(State(Doc(Leaf(Null), b), r, []), Appended(v)) == State(Doc(Leaf(Null), b), r, [Appended(v)])
  {
    hide PtrSplit;
    PlacesRead(v);
    var doc, tokens := Doc(Leaf(Null), b), ["a", "l", "-"];
    assert tokens[1..] == ["l", "-"] && Child(doc, "a") == Some(Leaf(Null));
    assert Enter(r, doc, tokens) == None;
    assert Put(doc, tokens, Ref(2), Add) == None;
    assert [] + [Appended(v)] == [Appended(v)];
  }

  /* ------------------------------------------------------------ its attempts */

  lemma {:induction false} SortedStays(patches: seq<Patch>)
    requires Ordered(patches)
    ensures SortPatches(patches) == patches
  {
    hide Before;
    if patches != [] {
      var last := |patches| - 1;
      SortedStays(patches[..last]);
      assert patches == patches[..last] + [patches[last]];
    }
  }

  lemma InOrder(v: Json)
    ensures var a, b, m := Rewrite(), Breaking(), Appended(v);
            && SortPatches([a, b, m]) == [a, b, m] && SortPatches([a, m]) == [a, m]
            && SortPatches([b, m]) == [b, m] && SortPatches([a, b]) == [a, b]
  {
    hide SortPatches;
    var a, b, m := Rewrite(), Breaking(), Appended(v);
    assert !Less("/b", "/a") by { assert "/b"[1..] == "b" && "/a"[1..] == "a"; }
    assert !Before(b, a) && !Before(m, a) && !Before(m, b);
    SortedStays([a, b, m]);
    SortedStays([a, m]);
    SortedStays([b, m]);
    SortedStays([a, b]);
  }

  /** The document's own containers, with either patch's value in place or not. */
  function TreeWith(placed: bool, broken: bool): Tree {
    Doc(if placed then Ref(0) else Leaf(Null), if broken then Ref(1) else Leaf(Num(0.0)))
  }

  lemma Attempts(v: Json, n: nat)
    ensures After(Spec(), Written(v, n), [Rewrite(), Breaking(), Appended(v)]) == State(TreeWith(true, true), Written(v, n + 1), [])
    ensures After(Spec(), Written(v, n), [Rewrite(), Appended(v)]) == State(TreeWith(true, false), Written(v, n + 1), [])
    ensures After(Spec(), Written(v, n), [Breaking(), Appended(v)]) == State(TreeWith(false, true), Written(v, n), [Appended(v)])
    ensures After(Spec(), Written(v, n), [Rewrite(), Breaking()]) == State(TreeWith(true, true), Written(v, n), [])
  {
    hide Step, SortPatches, Tag, Written, Doc, Rewrite, Breaking, Appended, Apply;
    var a, b, m := Rewrite(), Breaking(), Appended(v);
    InOrder(v);
    Replaced(Written(v, n));
    assert [a, b, m][..2] == [a, b] && [a, m][..1] == [a] && [b, m][..1] == [b];
    StepInside(v, n, Ref(1));
    StepInside(v, n, Leaf(Num(0.0)));
    StepNowhere(v, Ref(1), Written(v, n));
    LastIsStep(Written(v, n), [a, b, m]);
    LastIsStep(Written(v, n), [a, m]);
    LastIsStep(Written(v, n), [b, m]);
  }

  lemma LastIsStep(r: Records, patches: seq<Patch>)
    requires patches != []
    ensures Apply(Spec(), r, patches) == Step(Apply(Spec(), r, patches[..|patches| - 1]), patches[|patches| - 1])
  {
    hide Step, Tag;
  }

  /** The replaces alone. */
  lemma Replaced(r: Records)
    ensures Apply(Spec(), r, [Rewrite()]) == State(TreeWith(true, false), r, [])
    ensures Apply(Spec(), r, [Breaking()]) == State(TreeWith(false, true), r, [])
    ensures Apply(Spec(), r, [Rewrite(), Breaking()]) == State(TreeWith(true, true), r, [])
  {
    hide Step, Tag, Doc, Rewrite, Breaking;
    var a, b := Rewrite(), Breaking();
    SpecTree();
    assert [a, b][..1] == [a] && [a][..0] == [] && [b][..0] == [];
    assert Apply(Spec(), r, []) == State(Doc(Leaf(Null), Leaf(Num(0.0))), r, []);
    StepRewrite(Leaf(Null), Leaf(Num(0.0)), r);
    StepBreaking(Ref(0), Leaf(Num(0.0)), r);
    StepBreaking(Leaf(Null), Leaf(Num(0.0)), r);
  }

  /** What the schema counts of a tree. */
  lemma Counted(v: Json, n: nat, limit: nat, placed: bool, broken: bool)
    ensures var doc := View(Written(v, n), TreeWith(placed, broken), 0);
            CountErrors(limit, doc) == (if broken then 1 else 0) + (if placed && n > limit then 1 else 0)
  {
    hide Tag;
    var r := Written(v, n);
    var a: Tree, b: Tree := if placed then Ref(0) else Leaf(Null), if broken then Ref(1) else Leaf(Num(0.0));
    ViewTag(r, Num(1.0), 1);
    assert View(r, Ref(1), 0) == Num(1.0);
    assert View(r, Ref(0), 0) == View(r, Holding(Times(n)), 1);
    assert View(r, Holding(Times(n)), 1).fields["l"] == View(r, List(Times(n)), 1);
    assert |View(r, List(Times(n)), 1).items| == n;
    var doc := View(r, Doc(a, b), 0);
    assert doc.fields["a"] == View(r, a, 0) && doc.fields["b"] == View(r, b, 0);
  }

  /* ------------------------------------------------------------ its drop */

  lemma LeavingOut(v: Json)
    ensures var a, b, m := Rewrite(), Breaking(), Appended(v);
            Without([a, b, m], a.id) == [b, m] && Without([a, b, m], b.id) == [a, m] && Without([a, b, m], m.id) == [a, b]
  {
    hide Without;
    var a, b, m := Rewrite(), Breaking(), Appended(v);
    assert [] + [a] == [a] && [a] + [b] == [a, b] && [a, b] + [m] == [a, b, m];
    ThreeLeft(a, b, m, a.id);
    ThreeLeft(a, b, m, b.id);
    ThreeLeft(a, b, m, m.id);
  }

  lemma ThreeLeft(a: Patch, b: Patch, m: Patch, id: nat)
    ensures Without([a, b, m], id) ==
            (if a.id == id then [] else [a]) + (if b.id == id then [] else [b]) + (if m.id == id then [] else [m])
  {
    hide Without;
    assert [] + [a] == [a] && [a] + [b] == [a, b] && [a, b] + [m] == [a, b, m];
    WithoutNone(id);
    WithoutLast([], a, id);
    WithoutLast([a], b, id);
    WithoutLast([a, b], m, id);
  }

  lemma WithoutNone(id: nat)
    ensures Without([], id) == []
  {
  }

  lemma WithoutLast(front: seq<Patch>, p: Patch, id: nat)
    ensures Without(front + [p], id) == Without(front, id) + (if p.id == id then [] else [p])
  {
    assert (front + [p])[..|front|] == front;
  }

  /** The records as the trials of the first turn leave them. */
  lemma TrialsWrite(v: Json, n: nat)
    ensures var r, keep := Written(v, n), Round(v);
            && |keep| == 3 && Tried(Spec(), r, keep, 0) == Tried(Spec(), r, keep, 1) == r
            && Tried(Spec(), r, keep, 2) == Tried(Spec(), r, keep, 3) == Written(v, n + 1)
  {
    hide After, Written, TreeWith, Without;
    LeavingOut(v);
    Attempts(v, n);
    Attempts(v, n + 1);
    assert Tried(Spec(), Written(v, n), Round(v), 0) == Written(v, n);
    assert Tried(Spec(), Written(v, n), Round(v), 1) == Written(v, n);
    assert Tried(Spec(), Written(v, n), Round(v), 2) == Written(v, n + 1);
  }

  /** What each trial shows the schema. */
  lemma TrialsCount(v: Json, n: nat, errors: Json -> nat)
    requires forall doc :: errors(doc) == CountErrors(n + 2, doc)
    ensures |Round(v)| == 3 && Trial(Spec(), Written(v, n), Round(v), errors, 0) == 1
    ensures Trial(Spec(), Written(v, n), Round(v), errors, 1) == 0
    ensures Trial(Spec(), Written(v, n), Round(v), errors, 2) == 1
  {
    hide After, Written, TreeWith, CountErrors, View, Tried, Without;
    TrialsWrite(v, n);
    LeavingOut(v);
    Attempts(v, n);
    Attempts(v, n + 1);
    Counted(v, n, n + 2, false, true);
    Counted(v, n + 1, n + 2, true, false);
    Counted(v, n + 1, n + 2, true, true);
  }

  /** The first turn, from records in which the append was written `n` times: only leaving out the patch to `/b` helps. */
  lemma FirstTurn(v: Json, n: nat, errors: Json -> nat)
    requires forall doc :: errors(doc) == CountErrors(n + 2, doc)
    ensures |Round(v)| == 3 && Tried(Spec(), Written(v, n), Round(v), 3) == Written(v, n + 1)
    ensures Best(Spec(), Written(v, n), Round(v), errors, 1, 3) == Some(1)
  {
    hide Written, CountErrors, Trial, Tried, Round;
    TrialsWrite(v, n);
    TrialsCount(v, n, errors);
    assert Best(Spec(), Written(v, n), Round(v), errors, 1, 0) == None;
    assert Best(Spec(), Written(v, n), Round(v), errors, 1, 1) == None;
    assert Best(Spec(), Written(v, n), Round(v), errors, 1, 2) == Some(1);
  }

  /** The records of the round, before anything was applied. */
  lemma WrittenNever(v: Json)
    ensures Written(v, 0) == Fresh(Round(v))
  {
    hide PtrSplit;
    PlacesRead(v);
    var a, b, m := Rewrite(), Breaking(), Appended(v);
    assert [a, b, m][..2] == [a, b] && [a, b][..1] == [a] && [a][..0] == [];
    TagHolding();
    assert Fresh([a]) == Records(map[0 := ["a"]], map[0 := Holding([])]);
    assert Fresh([a, b]) == Records(map[0 := ["a"], 1 := ["b"]], map[0 := Holding([]), 1 := Tag(Num(1.0))]);
  }

  /** With a limit of `n + 3`, from records in which the append was written `n` times: the drop leaves out the patch to `/b`,
      finds nothing wrong with what that leaves, and returns it applied once more, one element too long. The records are the
      round's fresh ones for `n` of 0, and those `apply_patches` comes to the drop with for `n` of 1. */
  lemma SchemaDropFails(v: Json, n: nat, errors: Json -> nat)
    requires forall doc :: errors(doc) == CountErrors(n + 3, doc)
    ensures var out := SchemaDrop(Spec(), Written(v, n), Round(v), errors);
            && out == Dropping(Written(v, n + 3), Written(v, n + 4), [Rewrite(), Appended(v)], [Breaking()])
            && errors(Shown(Spec(), out.tested, out.keep)) == 0
            && errors(Shown(Spec(), out.after, out.keep)) == 1
            && !NoneWithin(Spec(), out.keep) && !IgnoresRepeats(errors)
    ensures Written(v, 0) == Fresh(Round(v)) && Written(v, 1) == After(Spec(), Fresh(Round(v)), Round(v)).records
  {
    hide After, Written, CountErrors, SchemaDrop, Shown, NoneWithin, IgnoresRepeats, Round;
    SchemaDropRuns(v, n, errors);
    ErrorsShown(v, n + 3, n + 3, errors);
    ErrorsShown(v, n + 4, n + 3, errors);
    OneInside(v);
    CountsRepeats(n + 3, errors);
    WrittenNever(v);
    AttemptAll(v, 0);
  }

  lemma AttemptAll(v: Json, n: nat)
    ensures After(Spec(), Written(v, n), Round(v)).records == Written(v, n + 1)
    ensures After(Spec(), Written(v, n), [Rewrite(), Appended(v)]).records == Written(v, n + 1)
  {
    hide After, Written;
    Attempts(v, n);
  }

  /** The schema's errors in the whole round's document, and in that without the patch to `/b`. */
  lemma ErrorsShown(v: Json, n: nat, limit: nat, errors: Json -> nat)
    requires forall doc :: errors(doc) == CountErrors(limit, doc)
    ensures errors(Shown(Spec(), Written(v, n), Round(v))) == 1 + (if n > limit then 1 else 0)
    ensures errors(Shown(Spec(), Written(v, n), [Rewrite(), Appended(v)])) == if n > limit then 1 else 0
  {
    hide Written, TreeWith, CountErrors, View, TreeAfter, Round;
    TreesAfter(v);
    Counted(v, n, limit, true, true);
    Counted(v, n, limit, true, false);
  }

  lemma SchemaDropRuns(v: Json, n: nat, errors: Json -> nat)
    requires forall doc :: errors(doc) == CountErrors(n + 3, doc)
    ensures SchemaDrop(Spec(), Written(v, n), Round(v), errors)
         == Dropping(Written(v, n + 3), Written(v, n + 4), [Rewrite(), Appended(v)], [Breaking()])
  {
    hide After, Written, CountErrors, Shown, Tried, Best, Turns, Round;
    var all, kept := Round(v), [Rewrite(), Appended(v)];
    AttemptAll(v, n);
    AttemptAll(v, n + 2);
    AttemptAll(v, n + 3);
    ErrorsShown(v, n + 1, n + 3, errors);
    ErrorsShown(v, n + 3, n + 3, errors);
    FirstTurn(v, n + 1, errors);
    RoundIs(v);
    TurnUnfolds(Spec(), all, Written(v, n + 1), all, [], errors);
    assert [] + [Breaking()] == [Breaking()];
    LastTurn(Spec(), all, Written(v, n + 3), kept, [Breaking()], errors);
  }

  lemma RoundIs(v: Json)
    ensures |Round(v)| == 3 && Round(v) != [] && Round(v)[1] == Breaking()
    ensures Without(Round(v), Round(v)[1].id) == [Rewrite(), Appended(v)]
  {
    hide Without;
    LeavingOut(v);
  }

  lemma TreesAfter(v: Json)
    ensures TreeAfter(Spec(), Round(v)) == TreeWith(true, true)
    ensures TreeAfter(Spec(), [Rewrite(), Appended(v)]) == TreeWith(true, false)
  {
    hide TreeOf, SortPatches, TreeWith, Apply, Written;
    Attempts(v, 0);
    TreeIsFixed(Spec(), Written(v, 0), SortPatches(Round(v)));
    TreeIsFixed(Spec(), Written(v, 0), SortPatches([Rewrite(), Appended(v)]));
  }

  /** The append goes inside what the rewrite placed. */
  lemma OneInside(v: Json)
    ensures !NoneWithin(Spec(), [Rewrite(), Appended(v)])
  {
    hide PtrSplit, SortPatches, Apply, TreeOf, Rewrite;
    PlacesRead(v);
    InOrder(v);
    var a, m := Rewrite(), Appended(v);
    TreeOfRewrite();
    assert [a, m][..1] == [a];
    assert ["a", "l", "-"][1..] == ["l", "-"];
    assert Child(Doc(Ref(0), Leaf(Num(0.0))), "a") == Some(Ref(0));
    assert Leaves(Doc(Ref(0), Leaf(Num(0.0))), ["a", "l", "-"]);
    assert IsInner(Spec(), [a, m], 1);
    assert Front(m) == ["a", "l"] && Front(m) + ["-"] == PlaceOf(m);
    assert Exact("a") && Exact("l");
    assert AppendsTo([a, m][1]);
  }

  lemma TreeOfRewrite()
    ensures TreeOf(Spec(), [Rewrite()]) == Doc(Ref(0), Leaf(Num(0.0)))
  {
    hide Step, Tag, Doc, Rewrite;
    var r := Records(map[], map[]);
    SpecTree();
    assert [Rewrite()][..0] == [];
    assert Apply(Spec(), r, []) == State(Doc(Leaf(Null), Leaf(Num(0.0))), r, []);
    StepRewrite(Leaf(Null), Leaf(Num(0.0)), r);
    TreeIsFixed(Spec(), r, [Rewrite()]);
  }

  /* ------------------------------------------------------------ it is an orderly round */

  lemma PointersAreWritten(v: Json)
    ensures Render(["a"]) == "/a" && Render(["b"]) == "/b" && Render(["a", "l", "-"]) == "/a/l/-"
  {
    OneToken("a");
    OneToken("b");
    assert ["a", "l", "-"][1..] == ["l", "-"] && ["l", "-"][1..] == ["-"] && ["-"][1..] == [];
  }

  lemma RoundIsTidy(v: Json)
    ensures TidyRound(Round(v)) && AppendsTo(Appended(v)) && Front(Appended(v)) == ["a", "l"]
    ensures !AppendsTo(Rewrite()) && !AppendsTo(Breaking())
  {
    hide PtrSplit, Render;
    PlacesRead(v);
    PointersAreWritten(v);
    var m := Appended(v);
    assert Front(m) == ["a", "l"] && Front(m) + ["-"] == PlaceOf(m);
    assert Exact("a") && Exact("b") && Exact("l");
    assert Tidy(Rewrite()) && Tidy(Breaking()) && Tidy(m);
    assert ["a"][0] != ["b"][0];
  }

  /** The append lands on the list the rewrite brings. */
  lemma FindsTheList(v: Json)
    ensures FindsList(Spec(), Round(v), 2)
  {
    hide Run, Resolves, ValueAt, Rewrite, Breaking, Appended, PtrSplit;
    RoundIsTidy(v);
    PlacesRead(v);
    assert Round(v)[..2] == [Rewrite(), Breaking()];
    ReplacesRun();
    ListIsBrought();
    assert Tokens(Appended(v)) == ["a", "l"] + ["-"] by { TokensAre(v); }
  }

  lemma TokensAre(v: Json)
    ensures Tokens(Appended(v)) == ["a", "l", "-"]
  {
    hide PtrSplit;
    PlacesRead(v);
  }

  function Brought(): Json {
    Obj(map["a" := Rewrite().value, "b" := Num(1.0)])
  }

  lemma ReplacesRun()
    ensures Run(Spec(), [Rewrite(), Breaking()]).doc == Brought()
  {
    hide PtrSplit;
    PlacesRead(Null);
    var a, b := Rewrite(), Breaking();
    assert [a, b][..1] == [a] && [a][..0] == [];
    assert Run(Spec(), []) == Applied(Spec(), []);
    var one := Spec().fields["a" := a.value];
    assert ApplyOne(Spec(), a) == Ok(Obj(one));
    assert Run(Spec(), [a]) == Applied(Obj(one), []);
    assert one["b" := b.value] == Brought().fields;
    assert ApplyOne(Obj(one), b) == Ok(Brought());
  }

  lemma ListIsBrought()
    ensures Resolves(Brought(), ["a", "l"]) && ValueAt(Brought(), ["a", "l"]) == Arr([])
  {
    assert ["a", "l"][1..] == ["l"] && ["l"][1..] == [];
    assert Resolves(Rewrite().value, ["l"]);
    assert ValueAt(Rewrite().value, ["l"]) == ValueAt(Arr([]), []);
  }

  lemma RoundSettles(v: Json)
    ensures Settles(Spec(), Round(v))
  {
    hide PtrSplit, SortPatches, Run, Places, AppendsTo, FindsList, Front, Rewrite, Breaking, Appended;
    RoundIsTidy(v);
    InOrder(v);
    FindsTheList(v);
    assert ["a", "l"][1..] == ["l"];
    assert Within(Spec(), ["a", "l"]);
  }

  /** From its first application on the round is orderly, so what holds of orderly rounds holds of it. */
  lemma {:induction false} RoundIsOrderly(v: Json, n: nat)
    ensures Orderly(Spec(), Written(v, n + 1), Round(v))
  {
    hide Written, Round, After, Orderly, Settles, ApplyTo;
    RoundIsDistinct(v);
    WrittenNever(v);
    AttemptAll(v, n);
    if n == 0 {
      RoundSettles(v);
      FirstAttemptIsPlain(Spec(), Round(v));
      NoneSetAside(v);
      FirstAttemptIsOrderly(Spec(), Round(v), Round(v));
    } else {
      RoundIsOrderly(v, n - 1);
      OrderlyAttempt(Spec(), Written(v, n), Round(v), Round(v));
    }
  }

  lemma NoneSetAside(v: Json)
    ensures After(Spec(), Written(v, 0), Round(v)).failed == []
  {
    hide After, Written;
    Attempts(v, 0);
  }

  /** Such a schema counts equal elements. */
  lemma CountsRepeats(limit: nat, errors: Json -> nat)
    requires forall doc :: errors(doc) == CountErrors(limit, doc)
    ensures limit > 0 ==> !IgnoresRepeats(errors)
  {
    if limit > 0 {
      var few, many := Arr(seq(limit, i => Null)), Arr(seq(limit + 1, i => Null));
      var a, b := Obj(map["a" := Obj(map["l" := few]), "b" := Num(0.0)]), Obj(map["a" := Obj(map["l" := many]), "b" := Num(0.0)]);
      assert many.items[limit] == many.items[..limit][0];
      assert Repeats(few, many);
      assert Repeats(Obj(map["l" := few]), Obj(map["l" := many]));
      assert Repeats(a, b);
      assert CountErrors(limit, a) == 0 && CountErrors(limit, b) == 1;
    }
  }

  /** The run itself: the method tests a document without errors and returns one with an error. */
  method RunFails(v: Json) returns (doc: Tree, after: Records, keep: seq<Patch>, dropped: seq<Patch>, ghost tested: Records)
    ensures keep == [Rewrite(), Appended(v)] && dropped == [Breaking()]
    ensures CountErrors(3, View(tested, doc, 0)) == 0 && CountErrors(3, View(after, doc, 0)) == 1
  {
    hide After, Written, Doc, CountErrors, View, Round, SchemaDrop, TreeAfter, Held, Kept;
    var errors := (doc: Json) => CountErrors(3, doc);
    SchemaDropFails(v, 0, errors);
    assert DistinctIds(Round(v)) by { RoundIsDistinct(v); }
    FirstAttemptIsPlain(Spec(), Round(v));
    doc, after, keep, dropped, tested := DropSchemaBreaking(Spec(), Fresh(Round(v)), Round(v), errors);
  }

  lemma RoundIsDistinct(v: Json)
    ensures DistinctIds(Round(v))
  {
  }
}
