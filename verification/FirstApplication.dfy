/** A round's first application, from records nothing was written into yet (loop/spec_review.py, `_apply_to`). Each
    record's object is then in the document at most once, so a write into one is a write at one place. */
module FirstApplication {
  import opened Wrappers
  import opened Json
  import opened JsonPointer
  import opened Patches
  import opened SharedValues

  /* ------------------------------------------------------------ what a reader comes upon */

  /** A reader of the tree comes upon record `k`. */
  ghost predicate Reads(r: Records, t: Tree, k: nat, d: nat)
    decreases Deeper(r, d), t
  {
    match t
    case Leaf(_) => false
    case List(items) => exists i :: 0 <= i < |items| && Reads(r, items[i], k, d)
    case Dict(fields) => exists f :: f in fields && Reads(r, fields[f], k, d)
    case Ref(j) =>
      j == k ||
      (j in r.values && j in Deeper(r, d) &&
       (assert Deeper(r, |r.names[j]|) <= Deeper(r, d) && j !in Deeper(r, |r.names[j]|);
        Reads(r, r.values[j], k, |r.names[j]|)))
  }

  ghost predicate Separate(r: Records, a: Tree, b: Tree, d: nat) {
    forall k :: Reads(r, a, k, d) ==> !Reads(r, b, k, d)
  }

  /** No record is come upon twice. */
  ghost predicate Once(r: Records, t: Tree, d: nat)
    decreases Deeper(r, d), t
  {
    match t
    case Leaf(_) => true
    case List(items) =>
      (forall i :: 0 <= i < |items| ==> Once(r, items[i], d)) &&
      forall i, j :: 0 <= i < |items| && 0 <= j < |items| && i != j ==> Separate(r, items[i], items[j], d)
    case Dict(fields) =>
      (forall f :: f in fields ==> Once(r, fields[f], d)) &&
      forall f, g :: f in fields && g in fields && f != g ==> Separate(r, fields[f], fields[g], d)
    case Ref(j) =>
      j in r.values && j in Deeper(r, d) ==>
        (assert Deeper(r, |r.names[j]|) <= Deeper(r, d) && j !in Deeper(r, |r.names[j]|);
         Once(r, r.values[j], |r.names[j]|))
  }

  /** A reader comes upon the same records in both. */
  ghost predicate ReadAlike(r: Records, q: Records, t: Tree, d: nat) {
    (Once(q, t, d) <==> Once(r, t, d)) && View(q, t, d) == View(r, t, d) &&
    forall k :: Reads(q, t, k, d) <==> Reads(r, t, k, d)
  }

  /** A record nobody comes upon may be rewritten unseen. */
  lemma {:induction false} UnreadChange(r: Records, k: nat, value: Tree, t: Tree, d: nat)
    requires k in r.values && !Reads(r, t, k, d)
    ensures ReadAlike(r, r.(values := r.values[k := value]), t, d)
    decreases Deeper(r, d), t
  {
    var q := r.(values := r.values[k := value]);
    match t
    case Leaf(_) =>
    case List(items) =>
      forall i | 0 <= i < |items| ensures ReadAlike(r, q, items[i], d) { UnreadChange(r, k, value, items[i], d); }
      ItemsAlike(r, q, items, d);
    case Dict(fields) =>
      forall f | f in fields ensures ReadAlike(r, q, fields[f], d) { UnreadChange(r, k, value, fields[f], d); }
      FieldsAlike(r, q, fields, d);
    case Ref(j) =>
      if j in r.values && j in Deeper(r, d) {
        assert j !in Deeper(r, |r.names[j]|) && Deeper(r, |r.names[j]|) <= Deeper(r, d);
        RefUnfolds(r, j, d);
        RefUnfolds(q, j, d);
        UnreadChange(r, k, value, r.values[j], |r.names[j]|);
      }
  }

  lemma ItemsAlike(r: Records, q: Records, items: seq<Tree>, d: nat)
    requires forall i :: 0 <= i < |items| ==> ReadAlike(r, q, items[i], d)
    ensures ReadAlike(r, q, List(items), d)
  {
    ItemsSeenAlike(r, q, items, d);
    ItemsOnceAlike(r, q, items, d);
  }

  lemma ItemsSeenAlike(r: Records, q: Records, items: seq<Tree>, d: nat)
    requires forall i :: 0 <= i < |items| ==> ReadAlike(r, q, items[i], d)
    ensures View(q, List(items), d) == View(r, List(items), d)
    ensures forall k :: Reads(q, List(items), k, d) <==> Reads(r, List(items), k, d)
  {
    hide Once;
  }

  lemma ItemsOnceAlike(r: Records, q: Records, items: seq<Tree>, d: nat)
    requires forall i :: 0 <= i < |items| ==> ReadAlike(r, q, items[i], d)
    ensures Once(q, List(items), d) <==> Once(r, List(items), d)
  {
    hide View, Reads, Separate;
    forall i, j | 0 <= i < |items| && 0 <= j < |items|
      ensures Separate(q, items[i], items[j], d) <==> Separate(r, items[i], items[j], d)
    {
      SeparateAlike(r, q, items[i], items[j], d);
    }
  }

  lemma FieldsAlike(r: Records, q: Records, fields: map<string, Tree>, d: nat)
    requires forall f :: f in fields ==> ReadAlike(r, q, fields[f], d)
    ensures ReadAlike(r, q, Dict(fields), d)
  {
    FieldsSeenAlike(r, q, fields, d);
    FieldsOnceAlike(r, q, fields, d);
  }

  lemma FieldsSeenAlike(r: Records, q: Records, fields: map<string, Tree>, d: nat)
    requires forall f :: f in fields ==> ReadAlike(r, q, fields[f], d)
    ensures View(q, Dict(fields), d) == View(r, Dict(fields), d)
    ensures forall k :: Reads(q, Dict(fields), k, d) <==> Reads(r, Dict(fields), k, d)
  {
    hide Once;
  }

  lemma FieldsOnceAlike(r: Records, q: Records, fields: map<string, Tree>, d: nat)
    requires forall f :: f in fields ==> ReadAlike(r, q, fields[f], d)
    ensures Once(q, Dict(fields), d) <==> Once(r, Dict(fields), d)
  {
    hide View, Reads, Separate;
    forall f, g | f in fields && g in fields
      ensures Separate(q, fields[f], fields[g], d) <==> Separate(r, fields[f], fields[g], d)
    {
      SeparateAlike(r, q, fields[f], fields[g], d);
    }
  }

  lemma SeparateAlike(r: Records, q: Records, a: Tree, b: Tree, d: nat)
    requires ReadAlike(r, q, a, d) && ReadAlike(r, q, b, d)
    ensures Separate(q, a, b, d) <==> Separate(r, a, b, d)
  {
    hide Reads, View, Once;
  }

  /** What takes the place of `t` holds no record twice, and none but `t`'s and the new one. */
  ghost predicate Grows(r: Records, t: Tree, q: Records, after: Tree, id: nat, d: nat) {
    Once(q, after, d) && forall k :: Reads(q, after, k, d) ==> Reads(r, t, k, d) || k == id
  }

  /** A list in which one item, the one at `at`, is new or new in part. */
  ghost predicate Placed(items: seq<Tree>, after: seq<Tree>, at: nat) {
    at < |after| && (|after| == |items| || |after| == |items| + 1) &&
    forall i :: 0 <= i < |after| && i != at ==> Origin(items, after, at, i) < |items| && after[i] == items[Origin(items, after, at, i)]
  }

  /** Where an item that is not the new one was. */
  function Origin(items: seq<Tree>, after: seq<Tree>, at: nat, i: nat): nat {
    if |after| == |items| || i < at || i == 0 then i else i - 1
  }

  lemma ItemsGrow(r: Records, q: Records, items: seq<Tree>, after: seq<Tree>, at: nat, id: nat, d: nat)
    requires Once(r, List(items), d) && !Reads(r, List(items), id, d) && Placed(items, after, at)
    requires forall i :: 0 <= i < |after| && i != at ==> ReadAlike(r, q, after[i], d)
    requires Once(q, after[at], d)
    requires forall k :: Reads(q, after[at], k, d) ==> k == id || (|after| == |items| && Reads(r, items[at], k, d))
    ensures Grows(r, List(items), q, List(after), id, d)
  {
    forall i, j | 0 <= i < |after| && 0 <= j < |after| && i != j
      ensures Separate(q, after[i], after[j], d)
    {
      if i != at && j != at {
        SeparateAlike(r, q, after[i], after[j], d);
        assert Separate(r, items[Origin(items, after, at, i)], items[Origin(items, after, at, j)], d);
      } else if i == at {
        NewApart(r, q, items, after, at, j, id, d);
      } else {
        NewApart(r, q, items, after, at, i, id, d);
      }
    }
    forall i | 0 <= i < |after|
      ensures Once(q, after[i], d) && forall k :: Reads(q, after[i], k, d) ==> Reads(r, List(items), k, d) || k == id
    {
      if i != at {
        assert Once(r, items[Origin(items, after, at, i)], d);
      }
    }
  }

  lemma NewApart(r: Records, q: Records, items: seq<Tree>, after: seq<Tree>, at: nat, i: nat, id: nat, d: nat)
    requires Once(r, List(items), d) && !Reads(r, List(items), id, d) && Placed(items, after, at)
    requires i < |after| && i != at && ReadAlike(r, q, after[i], d)
    requires forall k :: Reads(q, after[at], k, d) ==> k == id || (|after| == |items| && Reads(r, items[at], k, d))
    ensures Separate(q, after[at], after[i], d) && Separate(q, after[i], after[at], d)
  {
    var o := Origin(items, after, at, i);
    assert after[i] == items[o] && !Reads(r, items[o], id, d);
    if |after| == |items| {
      assert Separate(r, items[at], items[o], d);
    }
  }

  lemma FieldGrows(r: Records, q: Records, fields: map<string, Tree>, f: string, x: Tree, id: nat, d: nat)
    requires Once(r, Dict(fields), d) && !Reads(r, Dict(fields), id, d)
    requires forall g :: g in fields && g != f ==> ReadAlike(r, q, fields[g], d)
    requires Once(q, x, d)
    requires forall k :: Reads(q, x, k, d) ==> k == id || (f in fields && Reads(r, fields[f], k, d))
    ensures Grows(r, Dict(fields), q, Dict(fields[f := x]), id, d)
  {
    var after := fields[f := x];
    forall g, h | g in after && h in after && g != h
      ensures Separate(q, after[g], after[h], d)
    {
      if g != f && h != f {
        SeparateAlike(r, q, fields[g], fields[h], d);
        assert Separate(r, fields[g], fields[h], d);
      } else if g == f {
        NewFieldApart(r, q, fields, f, x, h, id, d);
      } else {
        NewFieldApart(r, q, fields, f, x, g, id, d);
      }
    }
    forall g | g in after
      ensures Once(q, after[g], d) && forall k :: Reads(q, after[g], k, d) ==> Reads(r, Dict(fields), k, d) || k == id
    {
      if g != f {
        assert Once(r, fields[g], d);
      }
    }
  }

  lemma NewFieldApart(r: Records, q: Records, fields: map<string, Tree>, f: string, x: Tree, g: string, id: nat, d: nat)
    requires Once(r, Dict(fields), d) && !Reads(r, Dict(fields), id, d)
    requires g in fields && g != f && ReadAlike(r, q, fields[g], d)
    requires forall k :: Reads(q, x, k, d) ==> k == id || (f in fields && Reads(r, fields[f], k, d))
    ensures Separate(q, x, fields[g], d) && Separate(q, fields[g], x, d)
  {
    assert !Reads(r, fields[g], id, d);
    if f in fields {
      assert Separate(r, fields[f], fields[g], d);
    }
  }

  lemma {:induction false} TagReadsNothing(r: Records, j: Json, d: nat)
    ensures Once(r, Tag(j), d) && forall k :: !Reads(r, Tag(j), k, d)
  {
    match j
    case Arr(items) =>
      forall i | 0 <= i < |items|
        ensures Once(r, Tag(items[i]), d) && forall k :: !Reads(r, Tag(items[i]), k, d)
      {
        TagReadsNothing(r, items[i], d);
      }
    case Obj(fields) =>
      forall f | f in fields
        ensures Once(r, Tag(fields[f]), d) && forall k :: !Reads(r, Tag(fields[f]), k, d)
      {
        TagReadsNothing(r, fields[f], d);
      }
    case _ =>
  }

  /** A record that holds no other. */
  ghost predicate Bare(r: Records, id: nat) {
    id in r.values && id in r.names && exists j :: r.values[id] == Tag(j)
  }

  lemma BareRef(r: Records, id: nat, d: nat)
    requires Bare(r, id)
    ensures Once(r, Ref(id), d) && forall k :: Reads(r, Ref(id), k, d) ==> k == id
  {
    hide Tag;
    var j :| r.values[id] == Tag(j);
    TagReadsNothing(r, j, |r.names[id]|);
  }

  lemma SelfAlike(r: Records, t: Tree, d: nat)
    ensures ReadAlike(r, r, t, d)
  {
  }

  lemma PutLastGrows(r: Records, t: Tree, last: string, id: nat, op: Op, d: nat)
    requires Once(r, t, d) && !Reads(r, t, id, d) && Bare(r, id) && PutLast(t, last, Ref(id), op).Some?
    ensures Grows(r, t, r, PutLast(t, last, Ref(id), op).value, id, d)
  {
    hide PyInt, Once, Reads, Bare, ReadAlike;
    BareRef(r, id, d);
    forall x: Tree ensures ReadAlike(r, r, x, d) { SelfAlike(r, x, d); }
    match t
    case Dict(fields) => FieldGrows(r, r, fields, last, Ref(id), id, d);
    case List(items) =>
      var after := PutLast(t, last, Ref(id), op).value.items;
      var at: nat := PlaceInList(items, last, op);
      ItemsGrow(r, r, items, after, at, id, d);
  }

  function PlaceInList(items: seq<Tree>, last: string, op: Op): (at: nat)
    requires PutLast(List(items), last, Ref(0), op).Some?
    ensures forall x :: PutLast(List(items), last, x, op).Some? && PutLast(List(items), last, x, op).value.List? &&
                        Placed(items, PutLast(List(items), last, x, op).value.items, at) &&
                        PutLast(List(items), last, x, op).value.items[at] == x
  {
    hide PyInt;
    if last == "-" then |items|
    else
      var i := PyInt(last).value;
      if op == Add then (if i < 0 then (if i + |items| < 0 then 0 else i + |items|) else if i > |items| then |items| else i)
      else Position(|items|, i).value
  }

  /** Writing into a child that comes once keeps the rest apart. */
  lemma ChildGrows(r: Records, q: Records, t: Tree, token: string, child: Tree, id: nat, d: nat)
    requires Once(r, t, d) && !Reads(r, t, id, d) && Child(t, token).Some?
    requires Grows(r, Child(t, token).value, q, child, id, d)
    requires SiblingsAlike(r, q, t, token, d)
    ensures Grows(r, t, q, WithChild(t, token, child), id, d)
  {
    hide PyInt, Once, Reads, ReadAlike;
    match t
    case Dict(fields) => FieldGrows(r, q, fields, token, child, id, d);
    case List(items) =>
      var at := Position(|items|, PyInt(token).value).value;
      ItemsGrow(r, q, items, items[at := child], at, id, d);
  }

  ghost predicate SiblingsAlike(r: Records, q: Records, t: Tree, token: string, d: nat)
    requires Child(t, token).Some?
  {
    match t
    case Dict(fields) => forall g :: g in fields && g != token ==> ReadAlike(r, q, fields[g], d)
    case List(items) =>
      forall i :: 0 <= i < |items| && i != Position(|items|, PyInt(token).value).value ==> ReadAlike(r, q, items[i], d)
    case _ => true
  }

  lemma ChildComesOnce(r: Records, t: Tree, token: string, d: nat)
    requires Once(r, t, d) && Child(t, token).Some?
    ensures Once(r, Child(t, token).value, d)
    ensures forall k :: Reads(r, Child(t, token).value, k, d) ==> Reads(r, t, k, d)
  {
    hide PyInt;
  }

  /** Within one object a write adds one record to what a reader comes upon. */
  lemma {:induction false} PutGrows(r: Records, t: Tree, tokens: seq<string>, id: nat, op: Op, d: nat)
    requires Once(r, t, d) && !Reads(r, t, id, d) && Bare(r, id) && Put(t, tokens, Ref(id), op).Some?
    ensures Grows(r, t, r, Put(t, tokens, Ref(id), op).value, id, d)
  {
    hide PyInt, Once, Reads, ReadAlike, Grows, Bare;
    if |tokens| == 1 {
      PutLastGrows(r, t, tokens[0], id, op, d);
    } else {
      ChildComesOnce(r, t, tokens[0], d);
      PutGrows(r, Child(t, tokens[0]).value, tokens[1..], id, op, d);
      forall x: Tree ensures ReadAlike(r, r, x, d) { SelfAlike(r, x, d); }
      ChildGrows(r, r, t, tokens[0], Put(Child(t, tokens[0]).value, tokens[1..], Ref(id), op).value, id, d);
    }
  }

  /** The record a walk ends in is one a reader comes upon. */
  lemma {:induction false} EnteredIsRead(r: Records, t: Tree, tokens: seq<string>, d: nat, depth: nat)
    requires Sound(r) && Fits(r.names, t, depth) && Seen(t, d, depth) && Enter(r, t, tokens).Some?
    ensures Reads(r, t, Enter(r, t, tokens).value.id, d)
    decreases |tokens|, if t.Ref? then 1 else 0
  {
    hide PyInt;
    if t.Ref? {
      if Enter(r, r.values[t.id], tokens).Some? {
        EnteredIsRead(r, r.values[t.id], tokens, |r.names[t.id]|, |r.names[t.id]|);
      }
    } else {
      ChildFits(r.names, t, tokens[0], depth);
      EnteredIsRead(r, Child(t, tokens[0]).value, tokens[1..], d, depth + 1);
    }
  }

  /** A write into a record that comes once is, to a reader of the whole, the value operation. */
  lemma {:induction false} WriteIsApply(r: Records, t: Tree, tokens: seq<string>, id: nat, op: Op, d: nat, depth: nat)
    requires Sound(r) && Fits(r.names, t, depth) && Seen(t, d, depth) && Once(r, t, d)
    requires !Reads(r, t, id, d) && Bare(r, id) && |r.names[id]| == depth + |tokens|
    requires Enter(r, t, tokens).Some? && Enter(r, t, tokens).value.id in r.values
    requires var e := Enter(r, t, tokens).value; Put(r.values[e.id], e.rest, Ref(id), op).Some?
    ensures var e := Enter(r, t, tokens).value;
            var q := r.(values := r.values[e.id := Put(r.values[e.id], e.rest, Ref(id), op).value]);
            && PtrApply(View(r, t, d), tokens, ValueOf(r, id), op) == Ok(View(q, t, d))
            && Grows(r, t, q, t, id, d)
    decreases |tokens|, if t.Ref? then 1 else 0
  {
    hide PyInt, ApplyLast, Bare, Grows, SiblingsAlike, Put, View, Once, Reads, PtrApply, Fits;
    BareIsNamed(r, id);
    FitsAtRef(r.names, t, depth);
    EnterAligned(r, t, tokens, depth);
    EnteredIsRead(r, t, tokens, d, depth);
    var e := Enter(r, t, tokens).value;
    var x := Put(r.values[e.id], e.rest, Ref(id), op).value;
    var q := r.(values := r.values[e.id := x]);
    if t.Ref? {
      RefUnfolds(r, t.id, d);
      RefUnfolds(q, t.id, d);
      if Enter(r, r.values[t.id], tokens).Some? {
        WriteIsApply(r, r.values[t.id], tokens, id, op, |r.names[t.id]|, |r.names[t.id]|);
        DeeperEntry(r, t.id, tokens, e.id, |r.names[t.id]|);
        RefGrows(r, q, t.id, r.values[t.id], id, d);
      } else {
        RecordIsApply(r, t.id, tokens, id, op);
        RefGrows(r, q, t.id, x, id, d);
      }
    } else {
      ChildFits(r.names, t, tokens[0], depth);
      ChildComesOnce(r, t, tokens[0], d);
      var child := Child(t, tokens[0]).value;
      EnteredIsRead(r, child, tokens[1..], d, depth + 1);
      WriteIsApply(r, child, tokens[1..], id, op, d, depth + 1);
      OthersAlike(r, t, tokens[0], e.id, x, d);
      ChildGrows(r, q, t, tokens[0], child, id, d);
      SameChild(t, tokens[0]);
      ChildIsApply(r, q, t, tokens, ValueOf(r, id), op, d);
    }
  }

  lemma BareIsNamed(r: Records, id: nat)
    requires Bare(r, id)
    ensures id in r.values && id in r.names
  {
  }

  lemma SameChild(t: Tree, token: string)
    requires Child(t, token).Some?
    ensures WithChild(t, token, Child(t, token).value) == t
  {
    hide PyInt;
    match t
    case List(items) =>
      var at := Position(|items|, PyInt(token).value).value;
      assert items[at := items[at]] == items;
    case Dict(fields) =>
      assert fields[token := fields[token]] == fields;
  }

  lemma RefUnfolds(r: Records, k: nat, d: nat)
    requires k in r.values && k in r.names && d < |r.names[k]|
    ensures View(r, Ref(k), d) == ValueOf(r, k)
    ensures Once(r, Ref(k), d) <==> Once(r, r.values[k], |r.names[k]|)
    ensures forall j :: Reads(r, Ref(k), j, d) <==> j == k || Reads(r, r.values[k], j, |r.names[k]|)
  {
  }

  lemma DeeperEntry(r: Records, k: nat, tokens: seq<string>, id: nat, depth: nat)
    requires Sound(r) && k in r.values && depth == |r.names[k]| && Enter(r, r.values[k], tokens).Some?
    requires id == Enter(r, r.values[k], tokens).value.id
    ensures id != k
  {
    hide Fits, Enter;
    EnterAligned(r, r.values[k], tokens, depth);
    EnterShorter(r, r.values[k], tokens, depth);
  }

  lemma EnterShorter(r: Records, t: Tree, tokens: seq<string>, depth: nat)
    requires Sound(r) && Fits(r.names, t, depth) && !t.Ref? && Enter(r, t, tokens).Some?
    ensures |Enter(r, t, tokens).value.rest| < |tokens|
  {
    hide PyInt;
    ChildFits(r.names, t, tokens[0], depth);
    EnterAligned(r, Child(t, tokens[0]).value, tokens[1..], depth + 1);
  }

  lemma RefGrows(r: Records, q: Records, k: nat, value: Tree, id: nat, d: nat)
    requires k in r.values && k in r.names && k in q.values && q.names == r.names && d < |r.names[k]|
    requires q.values[k] == value && Grows(r, r.values[k], q, value, id, |r.names[k]|)
    ensures Grows(r, Ref(k), q, Ref(k), id, d)
  {
    RefUnfolds(r, k, d);
    RefUnfolds(q, k, d);
  }

  /** The write, seen from the record it ends in. */
  lemma RecordIsApply(r: Records, k: nat, tokens: seq<string>, id: nat, op: Op)
    requires Sound(r) && k in r.values && id in r.names && id in r.values && |r.names[id]| == |r.names[k]| + |tokens|
    requires Enter(r, r.values[k], tokens) == None && Put(r.values[k], tokens, Ref(id), op).Some?
    requires Once(r, r.values[k], |r.names[k]|) && !Reads(r, r.values[k], id, |r.names[k]|) && Bare(r, id)
    ensures var x := Put(r.values[k], tokens, Ref(id), op).value;
            var q := r.(values := r.values[k := x]);
            && PtrApply(ValueOf(r, k), tokens, ValueOf(r, id), op) == Ok(ValueOf(q, k))
            && Grows(r, r.values[k], q, x, id, |r.names[k]|)
  {
    hide Put, Enter, Leaves, Once, Reads, Bare, View, PtrApply;
    var x := Put(r.values[k], tokens, Ref(id), op).value;
    var q, d := r.(values := r.values[k := x]), |r.names[k]|;
    EnterIffLeaves(r, r.values[k], tokens);
    PutSomewhere(r.values[k], tokens, Ref(id), op);
    RefUnfolds(r, id, d);
    PutIsApply(r, r.values[k], tokens, Ref(id), op, d);
    PutGrows(r, r.values[k], tokens, id, op, d);
    ReadsAgree(q, r, x, d);
  }

  /** Records that agree below a depth are come upon alike from there. */
  lemma {:induction false} ReadsAgree(r: Records, q: Records, t: Tree, d: nat)
    requires r.names == q.names
    requires forall k :: k in Deeper(r, d) ==> (k in r.values <==> k in q.values) && (k in r.values && k in q.values ==> r.values[k] == q.values[k])
    ensures ReadAlike(r, q, t, d)
    decreases Deeper(r, d), t
  {
    match t
    case Leaf(_) =>
    case List(items) =>
      forall i | 0 <= i < |items| ensures ReadAlike(r, q, items[i], d) { ReadsAgree(r, q, items[i], d); }
      ItemsAlike(r, q, items, d);
    case Dict(fields) =>
      forall f | f in fields ensures ReadAlike(r, q, fields[f], d) { ReadsAgree(r, q, fields[f], d); }
      FieldsAlike(r, q, fields, d);
    case Ref(k) =>
      if k in r.values && k in Deeper(r, d) {
        assert k !in Deeper(r, |r.names[k]|) && Deeper(r, |r.names[k]|) <= Deeper(r, d);
        ReadsAgree(r, q, r.values[k], |r.names[k]|);
      }
  }

  /** Beside the child that holds a record, nothing notices that record's change. */
  lemma OthersAlike(r: Records, t: Tree, token: string, k: nat, x: Tree, d: nat)
    requires Once(r, t, d) && Child(t, token).Some? && k in r.values && Reads(r, Child(t, token).value, k, d)
    ensures SiblingsAlike(r, r.(values := r.values[k := x]), t, token, d)
  {
    hide PyInt, Reads, View, ReadAlike;
    var q := r.(values := r.values[k := x]);
    match t
    case Dict(fields) =>
      forall g | g in fields && g != token
        ensures ReadAlike(r, q, fields[g], d)
      {
        assert Separate(r, fields[token], fields[g], d);
        UnreadChange(r, k, x, fields[g], d);
      }
    case List(items) =>
      var at := Position(|items|, PyInt(token).value).value;
      forall i | 0 <= i < |items| && i != at
        ensures ReadAlike(r, q, items[i], d)
      {
        assert Separate(r, items[at], items[i], d);
        UnreadChange(r, k, x, items[i], d);
      }
    case _ =>
  }

  lemma ChildIsApply(r: Records, q: Records, t: Tree, tokens: seq<string>, v: Json, op: Op, d: nat)
    requires |tokens| > 1 && Child(t, tokens[0]).Some? && SiblingsAlike(r, q, t, tokens[0], d)
    requires PtrApply(View(r, Child(t, tokens[0]).value, d), tokens[1..], v, op) == Ok(View(q, Child(t, tokens[0]).value, d))
    ensures PtrApply(View(r, t, d), tokens, v, op) == Ok(View(q, t, d))
  {
    hide PyInt, Once, Reads;
    ChildIsSeen(r, t, tokens[0], d);
    var child := Child(t, tokens[0]).value;
    match t
    case List(items) =>
      var at := Position(|items|, PyInt(tokens[0]).value).value;
      assert View(r, t, d).items[at := View(q, child, d)] == View(q, t, d).items;
    case Dict(fields) =>
      assert View(r, t, d).fields[tokens[0] := View(q, child, d)] == View(q, t, d).fields;
  }

  /** Between the first patch of a round and the last: each record comes once, those still to come are as they were, and
      a reader sees what the value model has. */
  ghost predicate FirstTime(r: Records, s: State, applied: seq<Patch>) {
    && s.records.names == r.names && s.records.values.Keys == r.values.Keys && Once(s.records, s.doc, 0)
    && (forall k :: Reads(s.records, s.doc, k, 0) ==> exists p :: p in applied && p.id == k)
    && (forall k :: k in r.values && (forall p :: p in applied ==> p.id != k) ==> s.records.values[k] == r.values[k])
  }

  ghost predicate AllBare(r: Records) {
    forall k :: k in r.values ==> Bare(r, k)
  }

  lemma StillBare(r: Records, s: State, applied: seq<Patch>, p: Patch)
    requires FirstTime(r, s, applied) && Sound(r) && AllBare(r) && Belongs(r, p) && forall q :: q in applied ==> q.id != p.id
    requires ValueOf(r, p.id) == p.value
    ensures Bare(s.records, p.id) && !Reads(s.records, s.doc, p.id, 0) && ValueOf(s.records, p.id) == p.value
  {
    hide Reads, View, Tag, Fits, Once;
    assert s.records.values[p.id] == r.values[p.id];
    assert Bare(r, p.id);
    var j :| r.values[p.id] == Tag(j);
    ViewTag(r, j, |r.names[p.id]|);
    ViewTag(s.records, j, |r.names[p.id]|);
  }

  lemma FirstStep(r: Records, s: State, applied: seq<Patch>, p: Patch)
    requires Sound(r) && FirstTime(r, s, applied) && Ready(s, p)
    requires Bare(s.records, p.id) && !Reads(s.records, s.doc, p.id, 0) && ValueOf(s.records, p.id) == p.value
    ensures FirstTime(r, Step(s, p), applied + [p])
    ensures AsValues(Step(s, p)) == match ApplyOne(View(s.records, s.doc, 0), p)
                                   case Failed => Applied(View(s.records, s.doc, 0), s.failed + [p])
                                   case Ok(doc) => Applied(doc, s.failed)
  {
    hide Put, Enter, View, PtrSplit, Fits, Reads, Once, Bare, Leaves, PtrApply;
    var q := s.records;
    MorePatches(r, s, applied, p);
    if PtrSplit(p.pointer).Some? {
      var tokens := PtrSplit(p.pointer).value;
      EnterIffLeaves(q, s.doc, tokens);
      if tokens == [] {
        NowhereToPut(q, s.doc, p);
      }
      match Enter(q, s.doc, tokens) {
        case None =>
          RefIsSeen(q, p.id, 0);
          PutIsApply(q, s.doc, tokens, Ref(p.id), p.op, 0);
          if Put(s.doc, tokens, Ref(p.id), p.op).Some? {
            PutGrows(q, s.doc, tokens, p.id, p.op, 0);
            GrowsIsFirst(r, s, applied, p, Step(s, p));
          }
        case Some(e) =>
          EnterAligned(q, s.doc, tokens, 0);
          EnteredIsRead(q, s.doc, tokens, 0, 0);
          if Put(q.values[e.id], e.rest, Ref(p.id), p.op).Some? {
            WriteIsApply(q, s.doc, tokens, p.id, p.op, 0, 0);
            GrowsIsFirst(r, s, applied, p, Step(s, p));
          } else {
            EnterIffLeaves(q, q.values[e.id], e.rest);
            RefIsSeen(q, p.id, |q.names[e.id]|);
            PutIsApply(q, q.values[e.id], e.rest, Ref(p.id), p.op, |q.names[e.id]|);
            ThroughRecord(q, s.doc, tokens, p.value, p.op, 0, 0);
          }
      }
    }
  }

  lemma MorePatches(r: Records, s: State, applied: seq<Patch>, p: Patch)
    requires FirstTime(r, s, applied)
    ensures FirstTime(r, s, applied + [p])
  {
    hide Reads, Once;
    assert forall q :: q in applied ==> q in applied + [p];
  }

  lemma GrowsIsFirst(r: Records, s: State, applied: seq<Patch>, p: Patch, after: State)
    requires FirstTime(r, s, applied) && Grows(s.records, s.doc, after.records, after.doc, p.id, 0)
    requires after.records.names == r.names && after.records.values.Keys == r.values.Keys
    requires forall k :: k in r.values && after.records.values[k] != s.records.values[k] ==> Reads(s.records, s.doc, k, 0)
    ensures FirstTime(r, after, applied + [p])
  {
    hide Reads, Once;
    assert p in applied + [p];
    forall k | k in r.values && forall q :: q in applied + [p] ==> q.id != k
      ensures after.records.values[k] == r.values[k]
    {
      assert forall q :: q in applied ==> q in applied + [p];
      assert forall q :: q in applied ==> q.id != k;
    }
  }

  /** The first application of a round is always the value model's, whatever its patches write into each other: the
      same document, and the same patches set aside. */
  lemma {:induction false} FirstApplicationIsPlain(spec: Json, r: Records, patches: seq<Patch>)
    requires Sound(r) && AllBelong(r, patches) && HoldValues(r, patches) && AllBare(r) && DistinctIds(patches)
    ensures AsValues(Apply(spec, r, patches)) == Run(spec, patches)
    ensures FirstTime(r, Apply(spec, r, patches), patches)
  {
    hide Step, Sound, Belongs, View, ApplyOne, Fits, Tag, AllBare, Reads, Once, FirstTime, Bare;
    if patches == [] {
      ViewTag(r, spec, 0);
      NothingYet(spec, r);
    } else {
      var last := |patches| - 1;
      var p, front := patches[last], patches[..last];
      assert patches == front + [p];
      assert forall i :: 0 <= i < last ==> patches[i].id != p.id;
      FirstApplicationIsPlain(spec, r, front);
      ApplySound(spec, r, front);
      var s := Apply(spec, r, front);
      assert p in patches;
      SameNamesBelong(r, s.records, p);
      StillBare(r, s, front, p);
      FirstStep(r, s, front, p);
    }
  }

  lemma NothingYet(spec: Json, r: Records)
    ensures FirstTime(r, State(Tag(spec), r, []), [])
  {
    hide Tag;
    TagReadsNothing(r, spec, 0);
  }

  /** So a second application is the value model's exactly when every record in the document reads as it did after the
      first: the round's writes into its own records then repeat nothing. */
  lemma ReapplyingIsPlainIff(spec: Json, r: Records, patches: seq<Patch>)
    requires Sound(r) && AllBelong(r, patches) && HoldValues(r, patches) && AllBare(r) && DistinctIds(patches)
    ensures var first := Apply(spec, r, patches);
            var again := Apply(spec, first.records, patches);
            && first.records.names == again.records.names == r.names
            && first.records.values.Keys == again.records.values.Keys == r.names.Keys
            && (AsValues(again).doc == Run(spec, patches).doc <==>
                forall k :: Contains(TreeOf(spec, patches), k) && k in r.names ==> ValueOf(again.records, k) == ValueOf(first.records, k))
  {
    hide Belongs, Apply, View, Contains, FirstTime, AllBare, ValueOf, Run;
    FirstApplicationIsPlain(spec, r, patches);
    ApplySound(spec, r, patches);
    var first := Apply(spec, r, patches);
    TreeIsFixed(spec, r, patches);
    BelongAlike(r, first.records, patches);
    ApplySound(spec, first.records, patches);
    TreeIsFixed(spec, first.records, patches);
    SameViewIff(Apply(spec, first.records, patches).records, first.records, TreeOf(spec, patches), 0, 0);
  }

  /* ------------------------------------------------------------ one inner patch */

  /** Of the round's patches only the `n`-th writes inside a record. */
  ghost predicate OnlyInner(spec: Json, patches: seq<Patch>, n: nat) {
    n < |patches| && forall m: nat :: m < |patches| && m != n ==> !Inner(TreeOf(spec, patches[..m]), patches[m])
  }

  lemma LastStep(spec: Json, r: Records, patches: seq<Patch>)
    requires patches != []
    ensures Apply(spec, r, patches) == Step(Apply(spec, r, patches[..|patches| - 1]), patches[|patches| - 1])
    ensures !Inner(TreeOf(spec, patches[..|patches| - 1]), patches[|patches| - 1]) ==>
              Apply(spec, r, patches).records == Apply(spec, r, patches[..|patches| - 1]).records
  {
    hide Step, Inner, TreeOf;
    TreeIsFixed(spec, r, patches[..|patches| - 1]);
    if !Inner(TreeOf(spec, patches[..|patches| - 1]), patches[|patches| - 1]) {
      OuterStep(Apply(spec, r, patches[..|patches| - 1]), patches[|patches| - 1]);
    }
  }

  /** The records change at that patch and nowhere else. */
  lemma {:induction false} OneChange(spec: Json, r: Records, patches: seq<Patch>, n: nat)
    requires OnlyInner(spec, patches, n)
    ensures Apply(spec, r, patches[..n]).records == r
    ensures Apply(spec, r, patches).records == Step(Apply(spec, r, patches[..n]), patches[n]).records
  {
    hide Step, Inner, Apply, TreeOf;
    var last := |patches| - 1;
    var front := patches[..last];
    LastStep(spec, r, patches);
    if n < last {
      forall m: nat | m < last
        ensures front[..m] == patches[..m]
      {
      }
      assert front[n] == patches[n];
      OneChange(spec, r, front, n);
    } else {
      NoChange(spec, r, patches, n);
    }
  }

  lemma {:induction false} NoChange(spec: Json, r: Records, patches: seq<Patch>, n: nat)
    requires n <= |patches| && forall m: nat :: m < n ==> !Inner(TreeOf(spec, patches[..m]), patches[m])
    ensures Apply(spec, r, patches[..n]).records == r
  {
    hide Step, Inner, TreeOf;
    if n > 0 {
      NoChange(spec, r, patches, n - 1);
      assert patches[..n][..n - 1] == patches[..n - 1];
      LastStep(spec, r, patches[..n]);
    }
  }

  /** In a round with one inner patch: re-applying it without that patch is the plain run of the others exactly when the
      patch's write leaves the value it went into as it read, or that value is not in the document. */
  lemma DroppingOneInnerPatch(spec: Json, r: Records, patches: seq<Patch>, n: nat)
    requires Sound(r) && AllBelong(r, patches) && HoldValues(r, OuterPart(spec, patches)) && AllBare(r) && OnlyInner(spec, patches, n)
    requires Inner(TreeOf(spec, patches[..n]), patches[n])
    ensures AllBelong(r, patches[..n]) && Sound(Apply(spec, r, patches[..n]).records)
    ensures var s := Apply(spec, r, patches[..n]);
            var entered := Enter(r, s.doc, PlaceOf(patches[n]));
            var outer := OuterPart(spec, patches);
            && entered.Some?
            && (AsValues(Apply(spec, Apply(spec, r, patches).records, outer)).doc == Run(spec, outer).doc <==>
                NoOp(s, patches[n]) || !Contains(TreeOf(spec, patches), entered.value.id))
  {
    hide View, Tag, Fits, Contains, Belongs, Put, Enter, Leaves, Apply, TreeOf, Run;
    var p := patches[n];
    forall q | q in patches[..n]
      ensures Belongs(r, q)
    {
    }
    ApplySound(spec, r, patches[..n]);
    TreeIsFixed(spec, r, patches[..n]);
    TreeIsFixed(spec, r, patches);
    OneChange(spec, r, patches, n);
    DroppingInnerPatches(spec, r, patches);
    var s := Apply(spec, r, patches[..n]);
    EnterIffLeaves(r, s.doc, PlaceOf(p));
    var e := Enter(r, s.doc, PlaceOf(p)).value;
    EnterAligned(r, s.doc, PlaceOf(p), 0);
    OneRewrite(s, p, e);
  }

  /** The records after the inner patch differ from the ones before in one reading at most. */
  lemma OneRewrite(s: State, p: Patch, e: Entry)
    requires Sound(s.records) && AllBare(s.records) && PtrSplit(p.pointer).Some?
    requires Enter(s.records, s.doc, PlaceOf(p)) == Some(e) && e.id in s.records.values
    ensures var r, q := s.records, Step(s, p).records;
            && q.names == r.names && q.values.Keys == r.values.Keys
            && (forall k :: k in r.values && k != e.id ==> ValueOf(q, k) == ValueOf(r, k))
            && (ValueOf(q, e.id) == ValueOf(r, e.id) <==> NoOp(s, p))
  {
    hide View, Tag, Fits, Put, Enter;
    var r, q := s.records, Step(s, p).records;
    forall k | k in r.values && k != e.id
      ensures ValueOf(q, k) == ValueOf(r, k)
    {
      assert Bare(r, k);
      var j :| r.values[k] == Tag(j);
      ViewTag(r, j, |r.names[k]|);
      ViewTag(q, j, |r.names[k]|);
    }
    if Put(r.values[e.id], e.rest, Ref(p.id), p.op).Some? {
      ViewAgrees(q, r, q.values[e.id], |r.names[e.id]|);
    }
  }
}
