/** `_apply_to` copies the spec but not the patches' values (loop/spec_review.py, `_apply_to`): what a patch places in
    the copy is the record's own object. A later patch that writes inside it writes into the record, and into every
    document and every other record that holds it, whenever it was made. */
module SharedValues {
  import opened Wrappers
  import opened Json
  import opened Strings
  import opened JsonPointer
  import opened Patches

  type Scalar = j: Json | !j.Arr? && !j.Obj? witness Null

  /** A document as Python holds it: its own containers, and references to the records' objects. */
  datatype Tree =
    | Leaf(value: Scalar)
    | List(items: seq<Tree>)
    | Dict(fields: map<string, Tree>)
    | Ref(id: nat)

  /** The round's records: where each one's patch points, and its value's object as it is now. */
  datatype Records = Records(names: map<nat, seq<string>>, values: map<nat, Tree>)

  function Tag(j: Json): Tree {
    match j
    case Arr(items) => List(seq(|items|, i requires 0 <= i < |items| => Tag(items[i])))
    case Obj(fields) => Dict(map k | k in fields :: Tag(fields[k]))
    case _ => Leaf(j)
  }

  /** The records whose pointers have more than `d` tokens. */
  function Deeper(r: Records, d: nat): set<nat> {
    set k | k in r.names && |r.names[k]| > d
  }

  /** What a reader sees, following references to ever deeper records. */
  function View(r: Records, t: Tree, d: nat): Json
    decreases Deeper(r, d), t
  {
    match t
    case Leaf(value) => value
    case List(items) => Arr(seq(|items|, i requires 0 <= i < |items| => View(r, items[i], d)))
    case Dict(fields) => Obj(map k | k in fields :: View(r, fields[k], d))
    case Ref(k) =>
      if k in r.values && k in Deeper(r, d) then
        assert Deeper(r, |r.names[k]|) <= Deeper(r, d) && k !in Deeper(r, |r.names[k]|);
        View(r, r.values[k], |r.names[k]|)
      else Null
  }

  function ValueOf(r: Records, k: nat): Json
    requires k in r.names && k in r.values
  {
    View(r, r.values[k], |r.names[k]|)
  }

  ghost predicate Contains(t: Tree, k: nat) {
    match t
    case Leaf(_) => false
    case List(items) => exists i :: 0 <= i < |items| && Contains(items[i], k)
    case Dict(fields) => exists f :: f in fields && Contains(fields[f], k)
    case Ref(id) => id == k
  }

  /* ------------------------------------------------------------ writing through objects */

  /** One step down, as `cur[int(tok)]` or `cur[tok]`, within one object's own containers. */
  function Child(t: Tree, token: string): Option<Tree> {
    match t
    case Leaf(_) => None
    case Ref(_) => None
    case List(items) =>
      (match PyInt(token)
       case None => None
       case Some(i) => match Position(|items|, i) case None => None case Some(k) => Some(items[k]))
    case Dict(fields) => if token in fields then Some(fields[token]) else None
  }

  function WithChild(t: Tree, token: string, child: Tree): Tree
    requires Child(t, token).Some?
  {
    match t
    case List(items) => List(items[Position(|items|, PyInt(token).value).value := child])
    case Dict(fields) => Dict(fields[token := child])
  }

  function PutLast(t: Tree, last: string, v: Tree, op: Op): Option<Tree> {
    match t
    case Leaf(_) => None
    case Ref(_) => None
    case Dict(fields) => Some(Dict(fields[last := v]))
    case List(items) =>
      if last == "-" then Some(List(items + [v]))
      else match PyInt(last)
           case None => None
           case Some(i) =>
             if op == Add then
               var at := if i < 0 then (if i + |items| < 0 then 0 else i + |items|) else if i > |items| then |items| else i;
               Some(List(items[..at] + [v] + items[at..]))
             else match Position(|items|, i)
                  case None => None
                  case Some(k) => Some(List(items[k := v]))
  }

  /** `ptr_apply` within one object; None where it raises, or would leave the object. */
  function Put(t: Tree, tokens: seq<string>, v: Tree, op: Op): Option<Tree> {
    if tokens == [] then None
    else if |tokens| == 1 then PutLast(t, tokens[0], v, op)
    else match Child(t, tokens[0])
         case None => None
         case Some(child) =>
           match Put(child, tokens[1..], v, op)
           case None => None
           case Some(after) => Some(WithChild(t, tokens[0], after))
  }

  datatype Entry = Entry(id: nat, rest: seq<string>)

  /** The last record's object the walk to the written container steps into, with the path from there. */
  function Enter(r: Records, t: Tree, tokens: seq<string>): Option<Entry>
    decreases |tokens|, if t.Ref? then 1 else 0
  {
    if tokens == [] then None
    else if t.Ref? then
      if t.id in r.values && !r.values[t.id].Ref? && Enter(r, r.values[t.id], tokens).Some?
      then Enter(r, r.values[t.id], tokens)
      else Some(Entry(t.id, tokens))
    else if |tokens| == 1 then None
    else match Child(t, tokens[0])
         case None => None
         case Some(child) => Enter(r, child, tokens[1..])
  }

  /** The document in hand, the records, and the patches set aside so far. */
  datatype State = State(doc: Tree, records: Records, failed: seq<Patch>)

  /** `ptr_apply` through objects: the patch writes into the document's own containers, or into a record's. */
  function Write(doc: Tree, r: Records, p: Patch): Option<(Tree, Records)> {
    match PtrSplit(p.pointer)
    case None => None
    case Some(tokens) =>
      match Enter(r, doc, tokens)
      case None =>
        (match Put(doc, tokens, Ref(p.id), p.op)
         case None => None
         case Some(after) => Some((after, r)))
      case Some(e) =>
        if e.id !in r.values then None
        else match Put(r.values[e.id], e.rest, Ref(p.id), p.op)
             case None => None
             case Some(value) => Some((doc, r.(values := r.values[e.id := value])))
  }

  /** A patch that raises is set aside and changes nothing. */
  function Step(s: State, p: Patch): State {
    match Write(s.doc, s.records, p)
    case None => s.(failed := s.failed + [p])
    case Some((doc, records)) => State(doc, records, s.failed)
  }

  /** The loop of `_apply_to`, over records in this order. */
  function Apply(spec: Json, r: Records, patches: seq<Patch>): State {
    if patches == [] then State(Tag(spec), r, [])
    else Step(Apply(spec, r, patches[..|patches| - 1]), patches[|patches| - 1])
  }

  /** `_apply_to`: in sorted order, writing through whatever the document now holds. */
  method ApplyRecords(spec: Json, r: Records, patches: seq<Patch>) returns (doc: Tree, records: Records, failed: seq<Patch>)
    ensures State(doc, records, failed) == Apply(spec, r, SortPatches(patches))
  {
    hide Enter, Put, Tag;
    var ordered := SortPatches(patches);
    doc, records, failed := Tag(spec), r, [];
    for i := 0 to |ordered|
      invariant State(doc, records, failed) == Apply(spec, r, ordered[..i])
    {
      assert ordered[..i + 1][..i] == ordered[..i];
      var p := ordered[i];
      var next := Write(doc, records, p);
      match next
      case None => failed := failed + [p];
      case Some((after, written)) => doc, records := after, written;
    }
    assert ordered[..|ordered|] == ordered;
  }

  /** The records before anything was applied. */
  function Fresh(patches: seq<Patch>): (r: Records)
    ensures r.names.Keys == r.values.Keys
  {
    if patches == [] then Records(map[], map[])
    else
      var last := patches[|patches| - 1];
      var r := Fresh(patches[..|patches| - 1]);
      Records(r.names[last.id := PlaceOf(last)], r.values[last.id := Tag(last.value)])
  }

  function PlaceOf(p: Patch): seq<string> {
    if PtrSplit(p.pointer).Some? then PtrSplit(p.pointer).value else []
  }

  /* ------------------------------------------------------------ where records can be */

  /** A token that can name a list's element. */
  predicate Indexes(token: string) {
    token == "-" || PyInt(token).Some?
  }

  /** Every record inside was placed by a pointer whose token at this depth leads here: the field, or some index. */
  ghost predicate Through(names: map<nat, seq<string>>, t: Tree, depth: nat, f: Option<string>) {
    forall k :: Contains(t, k) ==>
                  k in names && depth < |names[k]| &&
                  match f case None => Indexes(names[k][depth]) case Some(field) => names[k][depth] == field
  }

  /** Every record in the tree lies where its pointer says, up to the index within a list. */
  ghost predicate Fits(names: map<nat, seq<string>>, t: Tree, depth: nat) {
    match t
    case Leaf(_) => true
    case Ref(k) => k in names && |names[k]| == depth
    case List(items) =>
      forall i :: 0 <= i < |items| ==> Fits(names, items[i], depth + 1) && Through(names, items[i], depth, None)
    case Dict(fields) =>
      forall f :: f in fields ==> Fits(names, fields[f], depth + 1) && Through(names, fields[f], depth, Some(f))
  }

  ghost predicate Sound(r: Records) {
    r.names.Keys == r.values.Keys &&
    forall k :: k in r.values ==> !r.values[k].Ref? && Fits(r.names, r.values[k], |r.names[k]|)
  }

  ghost predicate Belongs(r: Records, p: Patch) {
    p.id in r.names && r.names[p.id] == PlaceOf(p)
  }

  ghost predicate AllBelong(r: Records, patches: seq<Patch>) {
    forall p :: p in patches ==> Belongs(r, p)
  }

  lemma {:induction false} TagIsBare(j: Json, k: nat)
    ensures !Contains(Tag(j), k)
  {
    match j
    case Arr(items) => forall i | 0 <= i < |items| ensures !Contains(Tag(items[i]), k) { TagIsBare(items[i], k); }
    case Obj(fields) => forall f | f in fields ensures !Contains(Tag(fields[f]), k) { TagIsBare(fields[f], k); }
    case _ =>
  }

  lemma {:induction false} TagFits(names: map<nat, seq<string>>, j: Json, depth: nat)
    ensures Fits(names, Tag(j), depth) && !Tag(j).Ref?
  {
    match j
    case Arr(items) =>
      forall i | 0 <= i < |items|
        ensures Fits(names, Tag(items[i]), depth + 1) && Through(names, Tag(items[i]), depth, None)
      {
        TagFits(names, items[i], depth + 1);
        forall k ensures !Contains(Tag(items[i]), k) { TagIsBare(items[i], k); }
      }
    case Obj(fields) =>
      forall f | f in fields
        ensures Fits(names, Tag(fields[f]), depth + 1) && Through(names, Tag(fields[f]), depth, Some(f))
      {
        TagFits(names, fields[f], depth + 1);
        forall k ensures !Contains(Tag(fields[f]), k) { TagIsBare(fields[f], k); }
      }
    case _ =>
  }

  /** Placing a record where its pointer leads keeps every record where its own does. */
  lemma {:induction false} PutFits(names: map<nat, seq<string>>, t: Tree, tokens: seq<string>, id: nat, op: Op, depth: nat)
    requires Fits(names, t, depth) && !t.Ref?
    requires id in names && |names[id]| == depth + |tokens| && names[id][depth..] == tokens
    requires Put(t, tokens, Ref(id), op).Some?
    ensures var after := Put(t, tokens, Ref(id), op).value;
            && Fits(names, after, depth) && !after.Ref?
            && forall k :: Contains(after, k) ==> Contains(t, k) || k == id
  {
    hide PyInt;
    assert names[id][depth] == tokens[0];
    if |tokens| == 1 {
      PutLastFits(names, t, tokens[0], id, op, depth);
    } else {
      var child := Child(t, tokens[0]).value;
      ChildFits(names, t, tokens[0], depth);
      if !child.Ref? {
        assert names[id][depth + 1..] == tokens[1..];
        PutFits(names, child, tokens[1..], id, op, depth + 1);
        WithChildFits(names, t, tokens[0], Put(child, tokens[1..], Ref(id), op).value, id, depth);
      } else {
        PutStopsAtRef(child, tokens[1..], Ref(id), op);
      }
    }
  }

  lemma PutStopsAtRef(t: Tree, tokens: seq<string>, v: Tree, op: Op)
    requires t.Ref?
    ensures Put(t, tokens, v, op) == None
  {
  }

  lemma ChildFits(names: map<nat, seq<string>>, t: Tree, token: string, depth: nat)
    requires Fits(names, t, depth) && Child(t, token).Some?
    ensures Fits(names, Child(t, token).value, depth + 1)
    ensures forall k :: Contains(Child(t, token).value, k) ==>
                          Contains(t, k) && k in names && depth < |names[k]| && SameStep(names[k][depth], token)
  {
    hide PyInt;
    match t
    case List(items) =>
      var at := Position(|items|, PyInt(token).value).value;
      assert Through(names, items[at], depth, None);
    case Dict(fields) =>
      assert Through(names, fields[token], depth, Some(token));
  }

  /** A token that placed a record, and one that may lead a walk to it. */
  predicate SameStep(placed: string, walked: string) {
    placed == walked || (Indexes(placed) && PyInt(walked).Some?)
  }

  lemma PutLastFits(names: map<nat, seq<string>>, t: Tree, last: string, id: nat, op: Op, depth: nat)
    requires Fits(names, t, depth) && !t.Ref?
    requires id in names && |names[id]| == depth + 1 && names[id][depth] == last
    requires PutLast(t, last, Ref(id), op).Some?
    ensures var after := PutLast(t, last, Ref(id), op).value;
            && Fits(names, after, depth) && !after.Ref?
            && forall k :: Contains(after, k) ==> Contains(t, k) || k == id
  {
    hide PyInt;
    var v, after := Ref(id), PutLast(t, last, Ref(id), op).value;
    assert Fits(names, v, depth + 1);
    match t
    case Dict(fields) =>
      assert Through(names, v, depth, Some(last));
    case List(items) =>
      assert Through(names, v, depth, None);
      forall i | 0 <= i < |after.items|
        ensures after.items[i] == v || exists j :: 0 <= j < |items| && items[j] == after.items[i]
      {
      }
  }

  lemma WithChildFits(names: map<nat, seq<string>>, t: Tree, token: string, child: Tree, id: nat, depth: nat)
    requires Fits(names, t, depth) && Child(t, token).Some?
    requires id in names && depth < |names[id]| && names[id][depth] == token
    requires Fits(names, child, depth + 1) && forall k :: Contains(child, k) ==> Contains(Child(t, token).value, k) || k == id
    ensures Fits(names, WithChild(t, token, child), depth)
    ensures forall k :: Contains(WithChild(t, token, child), k) ==> Contains(t, k) || k == id
  {
    hide PyInt;
    match t
    case Dict(fields) =>
      assert Through(names, fields[token], depth, Some(token));
      assert Through(names, child, depth, Some(token));
    case List(items) =>
      var at := Position(|items|, PyInt(token).value).value;
      assert Through(names, items[at], depth, None);
      assert Through(names, child, depth, None);
  }

  /** The walk into a record takes the rest of a path as long as the record's own, from where the record lies. */
  lemma {:induction false} EnterAligned(r: Records, t: Tree, tokens: seq<string>, depth: nat)
    requires Sound(r) && Fits(r.names, t, depth) && Enter(r, t, tokens).Some?
    ensures var e := Enter(r, t, tokens).value;
            && e.id in r.values && 0 < |e.rest| <= |tokens| && e.rest == tokens[|tokens| - |e.rest|..]
            && |r.names[e.id]| + |e.rest| == depth + |tokens|
            && Enter(r, r.values[e.id], e.rest) == None
    decreases |tokens|, if t.Ref? then 1 else 0
  {
    hide PyInt;
    if t.Ref? {
      if Enter(r, r.values[t.id], tokens).Some? {
        EnterAligned(r, r.values[t.id], tokens, |r.names[t.id]|);
      } else {
        assert tokens[0..] == tokens;
      }
    } else {
      ChildFits(r.names, t, tokens[0], depth);
      EnterAligned(r, Child(t, tokens[0]).value, tokens[1..], depth + 1);
      var e := Enter(r, t, tokens).value;
      assert tokens[1..][|tokens| - 1 - |e.rest|..] == tokens[|tokens| - |e.rest|..];
    }
  }

  lemma StepSound(s: State, p: Patch)
    requires Sound(s.records) && Fits(s.records.names, s.doc, 0) && !s.doc.Ref? && Belongs(s.records, p)
    ensures var after := Step(s, p);
            && Sound(after.records) && Fits(after.records.names, after.doc, 0) && !after.doc.Ref?
            && after.records.names == s.records.names
  {
    hide Put, Enter, PtrSplit, Fits;
    if PtrSplit(p.pointer).Some? {
      var tokens := PtrSplit(p.pointer).value;
      var r := s.records;
      match Enter(r, s.doc, tokens)
      case None =>
        if Put(s.doc, tokens, Ref(p.id), p.op).Some? {
          PutSomewhere(s.doc, tokens, Ref(p.id), p.op);
          assert r.names[p.id][0..] == tokens;
          PutFits(r.names, s.doc, tokens, p.id, p.op, 0);
        }
      case Some(e) =>
        EnterAligned(r, s.doc, tokens, 0);
        if Put(r.values[e.id], e.rest, Ref(p.id), p.op).Some? {
          PutFits(r.names, r.values[e.id], e.rest, p.id, p.op, |r.names[e.id]|);
        }
    }
  }

  lemma PutSomewhere(t: Tree, tokens: seq<string>, v: Tree, op: Op)
    requires Put(t, tokens, v, op).Some?
    ensures tokens != []
  {
  }

  lemma {:induction false} ApplySound(spec: Json, r: Records, patches: seq<Patch>)
    requires Sound(r) && AllBelong(r, patches)
    ensures var s := Apply(spec, r, patches);
            && Sound(s.records) && Fits(s.records.names, s.doc, 0) && !s.doc.Ref? && s.records.names == r.names
  {
    hide Step, Sound, Fits, Belongs, Tag;
    if patches == [] {
      TagFits(r.names, spec, 0);
    } else {
      var last := |patches| - 1;
      ApplySound(spec, r, patches[..last]);
      assert Belongs(r, patches[last]);
      SameNamesBelong(r, Apply(spec, r, patches[..last]).records, patches[last]);
      StepSound(Apply(spec, r, patches[..last]), patches[last]);
    }
  }

  lemma SameNamesBelong(r: Records, now: Records, p: Patch)
    requires Belongs(r, p) && now.names == r.names
    ensures Belongs(now, p)
  {
  }

  /* ------------------------------------------------------------ the tree of a round */

  /** The walk leaves the document's own containers. */
  predicate Leaves(t: Tree, tokens: seq<string>)
    decreases |tokens|
  {
    tokens != [] &&
    (t.Ref? || (|tokens| > 1 && Child(t, tokens[0]).Some? && Leaves(Child(t, tokens[0]).value, tokens[1..])))
  }

  lemma {:induction false} EnterIffLeaves(r: Records, t: Tree, tokens: seq<string>)
    ensures Enter(r, t, tokens).Some? <==> Leaves(t, tokens)
    decreases |tokens|
  {
    if tokens != [] && !t.Ref? && |tokens| > 1 && Child(t, tokens[0]).Some? {
      EnterIffLeaves(r, Child(t, tokens[0]).value, tokens[1..]);
    }
  }

  /** The document's own containers after the patches, whatever the records hold. */
  function TreeOf(spec: Json, patches: seq<Patch>): Tree {
    if patches == [] then Tag(spec)
    else
      var last := patches[|patches| - 1];
      Grown(TreeOf(spec, patches[..|patches| - 1]), last)
  }

  /** One patch's part in the tree. */
  function Grown(doc: Tree, p: Patch): Tree {
    if Inner(doc, p) || PtrSplit(p.pointer) == None then doc
    else match Put(doc, PtrSplit(p.pointer).value, Ref(p.id), p.op)
         case None => doc
         case Some(after) => after
  }

  /** A patch that writes inside a record's object. */
  predicate Inner(doc: Tree, p: Patch) {
    PtrSplit(p.pointer).Some? && Leaves(doc, PtrSplit(p.pointer).value)
  }

  /** Every application of a list of patches builds one tree: only what the records hold can differ. */
  lemma {:induction false} TreeIsFixed(spec: Json, r: Records, patches: seq<Patch>)
    ensures Apply(spec, r, patches).doc == TreeOf(spec, patches)
  {
    hide Put, PtrSplit, Enter, Leaves, Tag;
    if patches != [] {
      var last := patches[|patches| - 1];
      TreeIsFixed(spec, r, patches[..|patches| - 1]);
      var s := Apply(spec, r, patches[..|patches| - 1]);
      if PtrSplit(last.pointer).Some? {
        EnterIffLeaves(s.records, s.doc, PtrSplit(last.pointer).value);
      }
    }
  }

  /* ------------------------------------------------------------ what a reader sees */

  /** A tree at this depth is read in full from here. */
  predicate Seen(t: Tree, d: nat, depth: nat) {
    d <= depth && (t.Ref? ==> d < depth)
  }

  lemma {:induction false} ViewFrom(r: Records, t: Tree, d: nat, e: nat, depth: nat)
    requires Fits(r.names, t, depth) && Seen(t, d, depth) && Seen(t, e, depth)
    ensures View(r, t, d) == View(r, t, e)
    decreases t
  {
    match t
    case Leaf(_) =>
    case Ref(k) =>
    case List(items) =>
      forall i | 0 <= i < |items| ensures View(r, items[i], d) == View(r, items[i], e) { ViewFrom(r, items[i], d, e, depth + 1); }
    case Dict(fields) =>
      forall f | f in fields ensures View(r, fields[f], d) == View(r, fields[f], e) { ViewFrom(r, fields[f], d, e, depth + 1); }
  }

  /** Two sets of records that agree below a depth read alike from there. */
  lemma {:induction false} ViewAgrees(r: Records, q: Records, t: Tree, d: nat)
    requires r.names == q.names
    requires forall k :: k in Deeper(r, d) ==> (k in r.values <==> k in q.values) && (k in r.values && k in q.values ==> r.values[k] == q.values[k])
    ensures View(r, t, d) == View(q, t, d)
    decreases Deeper(r, d), t
  {
    match t
    case Leaf(_) =>
    case List(items) =>
      forall i | 0 <= i < |items| ensures View(r, items[i], d) == View(q, items[i], d) { ViewAgrees(r, q, items[i], d); }
    case Dict(fields) =>
      forall f | f in fields ensures View(r, fields[f], d) == View(q, fields[f], d) { ViewAgrees(r, q, fields[f], d); }
    case Ref(k) =>
      if k in r.values && k in Deeper(r, d) {
        assert k !in Deeper(r, |r.names[k]|) && Deeper(r, |r.names[k]|) <= Deeper(r, d);
        ViewAgrees(r, q, r.values[k], |r.names[k]|);
      }
  }

  /** Two sets of records in which every record reads alike show every tree alike. */
  lemma {:induction false} SameValuesSameView(r: Records, q: Records, t: Tree, d: nat)
    requires SameValues(r, q)
    ensures View(r, t, d) == View(q, t, d)
    decreases t
  {
    match t
    case Leaf(_) =>
    case List(items) =>
      forall i | 0 <= i < |items| ensures View(r, items[i], d) == View(q, items[i], d) { SameValuesSameView(r, q, items[i], d); }
    case Dict(fields) =>
      forall f | f in fields ensures View(r, fields[f], d) == View(q, fields[f], d) { SameValuesSameView(r, q, fields[f], d); }
    case Ref(k) =>
      if k in r.values && k in Deeper(r, d) {
        assert View(r, t, d) == ValueOf(r, k) && View(q, t, d) == ValueOf(q, k);
      }
  }

  /** Every record reads the same in both. */
  ghost predicate SameValues(r: Records, q: Records) {
    r.names == q.names && r.values.Keys == q.values.Keys &&
    forall k :: k in r.values && k in r.names ==> ValueOf(r, k) == ValueOf(q, k)
  }

  /** Rewriting one record so that it reads as before is seen by nobody. */
  lemma {:induction false} UnseenChange(r: Records, k: nat, value: Tree, t: Tree, d: nat)
    requires k in r.values && k in r.names && View(r, value, |r.names[k]|) == ValueOf(r, k)
    ensures View(r.(values := r.values[k := value]), t, d) == View(r, t, d)
    decreases Deeper(r, d), t
  {
    var q := r.(values := r.values[k := value]);
    match t
    case Leaf(_) =>
    case List(items) =>
      forall i | 0 <= i < |items| ensures View(q, items[i], d) == View(r, items[i], d) { UnseenChange(r, k, value, items[i], d); }
    case Dict(fields) =>
      forall f | f in fields ensures View(q, fields[f], d) == View(r, fields[f], d) { UnseenChange(r, k, value, fields[f], d); }
    case Ref(j) =>
      if j in r.values && j in Deeper(r, d) {
        assert j !in Deeper(r, |r.names[j]|) && Deeper(r, |r.names[j]|) <= Deeper(r, d);
        if j == k {
          ViewAgrees(q, r, value, |r.names[k]|);
        } else {
          UnseenChange(r, k, value, r.values[j], |r.names[j]|);
        }
      }
  }

  /* ------------------------------------------------------------ against the value model */

  /** Within one object the write is the value operation on what is seen, and raises in the same cases. */
  lemma {:induction false} PutIsApply(r: Records, t: Tree, tokens: seq<string>, v: Tree, op: Op, d: nat)
    requires !Leaves(t, tokens)
    ensures Put(t, tokens, v, op).None? <==> PtrApply(View(r, t, d), tokens, View(r, v, d), op).Failed?
    ensures Put(t, tokens, v, op).Some? ==>
              PtrApply(View(r, t, d), tokens, View(r, v, d), op) == Ok(View(r, Put(t, tokens, v, op).value, d))
  {
    if tokens == [] {
    } else if |tokens| == 1 {
      PutLastIsApply(r, t, tokens[0], v, op, d);
    } else {
      ChildIsSeen(r, t, tokens[0], d);
      if Child(t, tokens[0]).Some? {
        var child := Child(t, tokens[0]).value;
        PutIsApply(r, child, tokens[1..], v, op, d);
        if Put(child, tokens[1..], v, op).Some? {
          WithChildIsUpdate(r, t, tokens[0], Put(child, tokens[1..], v, op).value, d);
        }
      }
    }
  }

  lemma ChildIsSeen(r: Records, t: Tree, token: string, d: nat)
    requires !t.Ref?
    ensures match View(r, t, d)
            case Arr(items) =>
              if PyInt(token).Some? && Position(|items|, PyInt(token).value).Some?
              then Child(t, token).Some? && items[Position(|items|, PyInt(token).value).value] == View(r, Child(t, token).value, d)
              else Child(t, token) == None
            case Obj(fields) =>
              if token in fields then Child(t, token).Some? && fields[token] == View(r, Child(t, token).value, d)
              else Child(t, token) == None
            case _ => Child(t, token) == None
  {
    hide PyInt;
  }

  lemma PutLastIsApply(r: Records, t: Tree, last: string, v: Tree, op: Op, d: nat)
    requires !t.Ref?
    ensures PutLast(t, last, v, op).None? <==> ApplyLast(View(r, t, d), last, View(r, v, d), op).Failed?
    ensures PutLast(t, last, v, op).Some? ==>
              ApplyLast(View(r, t, d), last, View(r, v, d), op) == Ok(View(r, PutLast(t, last, v, op).value, d))
  {
    hide PyInt;
    match t
    case Leaf(_) =>
    case Dict(fields) =>
      assert View(r, t, d).fields[last := View(r, v, d)] == View(r, Dict(fields[last := v]), d).fields;
    case List(_) =>
      PutLastInList(r, t, last, v, op, d);
  }

  lemma PutLastInList(r: Records, t: Tree, last: string, v: Tree, op: Op, d: nat)
    requires t.List?
    ensures PutLast(t, last, v, op).None? <==> ApplyLast(View(r, t, d), last, View(r, v, d), op).Failed?
    ensures PutLast(t, last, v, op).Some? ==>
              ApplyLast(View(r, t, d), last, View(r, v, d), op) == Ok(View(r, PutLast(t, last, v, op).value, d))
  {
    hide PyInt;
    var items, seen, w := t.items, View(r, t, d).items, View(r, v, d);
    assert |seen| == |items|;
    if last == "-" {
      assert View(r, List(items + [v]), d).items == seen + [w];
    } else if PyInt(last).Some? {
      var i := PyInt(last).value;
      if op == Add {
        var at := if i < 0 then (if i + |items| < 0 then 0 else i + |items|) else if i > |items| then |items| else i;
        assert View(r, List(items[..at] + [v] + items[at..]), d).items == seen[..at] + [w] + seen[at..];
        assert InsertAt(seen, i, w) == seen[..at] + [w] + seen[at..];
      } else if Position(|items|, i).Some? {
        var k := Position(|items|, i).value;
        assert View(r, List(items[k := v]), d).items == seen[k := w];
      }
    }
  }

  lemma WithChildIsUpdate(r: Records, t: Tree, token: string, child: Tree, d: nat)
    requires Child(t, token).Some?
    ensures match t
            case List(items) =>
              View(r, WithChild(t, token, child), d)
              == Arr(View(r, t, d).items[Position(|items|, PyInt(token).value).value := View(r, child, d)])
            case Dict(_) => View(r, WithChild(t, token, child), d) == Obj(View(r, t, d).fields[token := View(r, child, d)])
            case _ => true
  {
    hide PyInt;
    match t
    case List(items) =>
      assert View(r, WithChild(t, token, child), d).items
          == View(r, t, d).items[Position(|items|, PyInt(token).value).value := View(r, child, d)];
    case Dict(fields) =>
      assert View(r, WithChild(t, token, child), d).fields == View(r, t, d).fields[token := View(r, child, d)];
  }

  /** What the value operation does inside a record it does to the whole: it fails with it, and changes nothing with it. */
  lemma {:induction false} ThroughRecord(r: Records, t: Tree, tokens: seq<string>, v: Json, op: Op, d: nat, depth: nat)
    requires Sound(r) && Fits(r.names, t, depth) && Seen(t, d, depth) && Enter(r, t, tokens).Some?
    ensures var e := Enter(r, t, tokens).value;
            && e.id in r.values
            && (PtrApply(ValueOf(r, e.id), e.rest, v, op).Failed? ==> PtrApply(View(r, t, d), tokens, v, op).Failed?)
            && (PtrApply(ValueOf(r, e.id), e.rest, v, op) == Ok(ValueOf(r, e.id)) ==>
                  PtrApply(View(r, t, d), tokens, v, op) == Ok(View(r, t, d)))
    decreases |tokens|, if t.Ref? then 1 else 0
  {
    hide PyInt, PtrApply, View, Enter, Fits;
    EnterAligned(r, t, tokens, depth);
    EnterUnfolds(r, t, tokens);
    if t.Ref? {
      FitsAtRef(r.names, t, depth);
      RefIsSeen(r, t.id, d);
      if Enter(r, r.values[t.id], tokens).Some? {
        ThroughRecord(r, r.values[t.id], tokens, v, op, |r.names[t.id]|, |r.names[t.id]|);
      }
    } else {
      ChildFits(r.names, t, tokens[0], depth);
      ThroughRecord(r, Child(t, tokens[0]).value, tokens[1..], v, op, d, depth + 1);
      ThroughChild(r, t, tokens, v, op, d);
    }
  }

  /** One step of a walk that enters a record. */
  lemma EnterUnfolds(r: Records, t: Tree, tokens: seq<string>)
    requires Enter(r, t, tokens).Some?
    ensures tokens != []
    ensures t.Ref? && t.id in r.values && !r.values[t.id].Ref? ==>
              Enter(r, t, tokens) == (if Enter(r, r.values[t.id], tokens).Some? then Enter(r, r.values[t.id], tokens)
                                      else Some(Entry(t.id, tokens)))
    ensures !t.Ref? ==> |tokens| > 1 && Child(t, tokens[0]).Some? && Enter(r, t, tokens) == Enter(r, Child(t, tokens[0]).value, tokens[1..])
  {
    hide PyInt;
  }

  lemma FitsAtRef(names: map<nat, seq<string>>, t: Tree, depth: nat)
    requires Fits(names, t, depth)
    ensures t.Ref? ==> t.id in names && |names[t.id]| == depth
  {
  }

  lemma RefIsSeen(r: Records, id: nat, d: nat)
    requires id in r.names && id in r.values
    ensures d < |r.names[id]| ==> View(r, Ref(id), d) == ValueOf(r, id)
  {
  }

  lemma ThroughChild(r: Records, t: Tree, tokens: seq<string>, v: Json, op: Op, d: nat)
    requires |tokens| > 1 && Child(t, tokens[0]).Some?
    ensures var child := View(r, Child(t, tokens[0]).value, d);
            && (PtrApply(child, tokens[1..], v, op).Failed? ==> PtrApply(View(r, t, d), tokens, v, op).Failed?)
            && (PtrApply(child, tokens[1..], v, op) == Ok(child) ==> PtrApply(View(r, t, d), tokens, v, op) == Ok(View(r, t, d)))
  {
    hide PyInt, ApplyLast;
    ChildIsSeen(r, t, tokens[0], d);
    match View(r, t, d)
    case Arr(items) =>
      var at := Position(|items|, PyInt(tokens[0]).value).value;
      assert items[at := items[at]] == items;
    case Obj(fields) =>
      assert fields[tokens[0] := fields[tokens[0]]] == fields;
    case _ =>
  }

  /* ------------------------------------------------------------ when the records keep their values */

  ghost predicate NoOp(s: State, p: Patch)
    requires Sound(s.records)
  {
    match PtrSplit(p.pointer)
    case None => true
    case Some(tokens) =>
      match Enter(s.records, s.doc, tokens)
      case None => true
      case Some(e) =>
        e.id in s.records.values ==>
          match Put(s.records.values[e.id], e.rest, Ref(p.id), p.op)
          case None => true
          case Some(value) => View(s.records, value, |s.records.names[e.id]|) == ValueOf(s.records, e.id)
  }

  ghost predicate Ready(s: State, p: Patch) {
    Sound(s.records) && Fits(s.records.names, s.doc, 0) && !s.doc.Ref? && Belongs(s.records, p)
  }

  lemma StepKeepsValuesIff(s: State, p: Patch)
    requires Ready(s, p)
    ensures SameValues(s.records, Step(s, p).records) <==> NoOp(s, p)
  {
    hide Put, Enter, View, PtrSplit, Fits;
    var r, q := s.records, Step(s, p).records;
    if PtrSplit(p.pointer).Some? && Enter(r, s.doc, PtrSplit(p.pointer).value).Some? {
      var e := Enter(r, s.doc, PtrSplit(p.pointer).value).value;
      EnterAligned(r, s.doc, PtrSplit(p.pointer).value, 0);
      if Put(r.values[e.id], e.rest, Ref(p.id), p.op).Some? {
        RewriteSeenIff(r, e.id, Put(r.values[e.id], e.rest, Ref(p.id), p.op).value);
      }
    }
  }

  lemma RewriteSeenIff(r: Records, k: nat, value: Tree)
    requires r.names.Keys == r.values.Keys && k in r.values
    ensures SameValues(r, r.(values := r.values[k := value])) <==> View(r, value, |r.names[k]|) == ValueOf(r, k)
  {
    hide View;
    var q := r.(values := r.values[k := value]);
    ViewAgrees(q, r, value, |r.names[k]|);
    assert ValueOf(q, k) == View(r, value, |r.names[k]|);
    if View(r, value, |r.names[k]|) == ValueOf(r, k) {
      forall j | j in r.values
        ensures ValueOf(r, j) == ValueOf(q, j)
      {
        if j != k {
          UnseenChange(r, k, value, r.values[j], |r.names[j]|);
        }
      }
    }
  }

  /** Every write into a record's object leaves it reading as it did. */
  ghost predicate Quiet(spec: Json, r: Records, patches: seq<Patch>)
    requires Sound(r) && AllBelong(r, patches)
  {
    patches == [] ||
    var front := patches[..|patches| - 1];
    ApplySound(spec, r, front);
    Quiet(spec, r, front) && NoOp(Apply(spec, r, front), patches[|patches| - 1])
  }

  /** At every point of the run the records read as they did at its start. */
  ghost predicate ValuesStay(spec: Json, r: Records, patches: seq<Patch>) {
    forall n: nat :: n <= |patches| ==> SameValues(r, Apply(spec, r, patches[..n]).records)
  }

  /** For any number of patches: the placed values never change exactly when every write into one is a no-op. */
  lemma {:induction false} ValuesStayIffQuiet(spec: Json, r: Records, patches: seq<Patch>)
    requires Sound(r) && AllBelong(r, patches)
    ensures ValuesStay(spec, r, patches) <==> Quiet(spec, r, patches)
  {
    hide SameValues, NoOp, Step, Sound, Belongs;
    if patches == [] {
      assert patches[..0] == patches;
      SameAsItself(r);
    } else {
      var last := |patches| - 1;
      var front := patches[..last];
      ApplySound(spec, r, front);
      ValuesStayIffQuiet(spec, r, front);
      OneLonger(spec, r, patches);
      var s := Apply(spec, r, front);
      assert patches[last] in patches;
      SameNamesBelong(r, s.records, patches[last]);
      StepKeepsValuesIff(s, patches[last]);
      SameValuesTransitive(r, s.records, Apply(spec, r, patches).records);
    }
  }

  lemma SameAsItself(r: Records)
    ensures SameValues(r, r)
  {
  }

  lemma OneLonger(spec: Json, r: Records, patches: seq<Patch>)
    requires patches != []
    ensures ValuesStay(spec, r, patches) <==>
            ValuesStay(spec, r, patches[..|patches| - 1]) && SameValues(r, Apply(spec, r, patches).records)
    ensures ValuesStay(spec, r, patches[..|patches| - 1]) ==> SameValues(r, Apply(spec, r, patches[..|patches| - 1]).records)
  {
    hide SameValues, Apply;
    var front := patches[..|patches| - 1];
    assert patches[..|patches|] == patches && front[..|front|] == front;
    forall n: nat | n <= |front|
      ensures front[..n] == patches[..n]
    {
    }
    if ValuesStay(spec, r, front) && SameValues(r, Apply(spec, r, patches).records) {
      forall n: nat | n <= |patches|
        ensures SameValues(r, Apply(spec, r, patches[..n]).records)
      {
        if n <= |front| {
          assert SameValues(r, Apply(spec, r, front[..n]).records);
        }
      }
    }
    if ValuesStay(spec, r, patches) {
      forall n: nat | n <= |front|
        ensures SameValues(r, Apply(spec, r, front[..n]).records)
      {
        assert SameValues(r, Apply(spec, r, patches[..n]).records);
      }
    }
  }

  lemma SameValuesTransitive(a: Records, b: Records, c: Records)
    ensures SameValues(a, b) && SameValues(b, c) ==> SameValues(a, c)
    ensures SameValues(a, b) && SameValues(a, c) ==> SameValues(b, c)
  {
    hide View;
  }

  /** Each record still holds its own patch's value. */
  ghost predicate HoldValues(r: Records, patches: seq<Patch>) {
    forall p :: p in patches ==> p.id in r.names && p.id in r.values && ValueOf(r, p.id) == p.value
  }

  /** What the run leaves, as the value model gives it: the document seen, and the patches set aside. */
  function AsValues(s: State): Applied {
    Applied(View(s.records, s.doc, 0), s.failed)
  }

  /** A run that leaves the placed values as they read is the value model's run, patch by patch. */
  lemma {:induction false} QuietRunIsPlain(spec: Json, r: Records, patches: seq<Patch>)
    requires Sound(r) && AllBelong(r, patches) && HoldValues(r, patches) && Quiet(spec, r, patches)
    ensures AsValues(Apply(spec, r, patches)) == Run(spec, patches)
    ensures SameValues(r, Apply(spec, r, patches).records)
  {
    hide NoOp, Step, Sound, Belongs, View, ApplyOne, Fits, Tag, SameValues;
    if patches == [] {
      ViewTag(r, spec, 0);
      SameAsItself(r);
    } else {
      var last := |patches| - 1;
      var p, front := patches[last], patches[..last];
      assert patches == front + [p];
      QuietRunIsPlain(spec, r, front);
      ApplySound(spec, r, front);
      var s := Apply(spec, r, front);
      SameNamesBelong(r, s.records, p);
      StepKeepsValuesIff(s, p);
      SameValuesTransitive(r, s.records, Step(s, p).records);
      StillHolds(r, s.records, p);
      QuietStepIsPlain(s, p);
    }
  }

  lemma StillHolds(r: Records, q: Records, p: Patch)
    requires SameValues(r, q) && p.id in r.names && p.id in r.values && ValueOf(r, p.id) == p.value
    ensures p.id in q.names && p.id in q.values && ValueOf(q, p.id) == p.value
  {
    hide View;
  }

  lemma {:induction false} ViewTag(r: Records, j: Json, d: nat)
    ensures View(r, Tag(j), d) == j
  {
    match j
    case Arr(items) =>
      forall i | 0 <= i < |items| ensures View(r, Tag(items[i]), d) == items[i] { ViewTag(r, items[i], d); }
      assert View(r, Tag(j), d).items == items;
    case Obj(fields) =>
      forall k | k in fields ensures View(r, Tag(fields[k]), d) == fields[k] { ViewTag(r, fields[k], d); }
      assert View(r, Tag(j), d).fields == fields;
    case _ =>
  }

  lemma QuietStepIsPlain(s: State, p: Patch)
    requires Ready(s, p) && NoOp(s, p)
    requires p.id in s.records.names && p.id in s.records.values && ValueOf(s.records, p.id) == p.value
    ensures AsValues(Step(s, p)) == match ApplyOne(View(s.records, s.doc, 0), p)
                                   case Failed => Applied(View(s.records, s.doc, 0), s.failed + [p])
                                   case Ok(doc) => Applied(doc, s.failed)
  {
    hide Put, Enter, View, PtrSplit, Fits, PtrApply, Leaves;
    if PtrSplit(p.pointer).Some? {
      var tokens, r := PtrSplit(p.pointer).value, s.records;
      EnterIffLeaves(r, s.doc, tokens);
      match Enter(r, s.doc, tokens) {
        case None =>
          RefIsSeen(r, p.id, 0);
          PutIsApply(r, s.doc, tokens, Ref(p.id), p.op, 0);
        case Some(e) =>
          EnterAligned(r, s.doc, tokens, 0);
          EnterIffLeaves(r, r.values[e.id], e.rest);
          RefIsSeen(r, p.id, |r.names[e.id]|);
          PutIsApply(r, r.values[e.id], e.rest, Ref(p.id), p.op, |r.names[e.id]|);
          ThroughRecord(r, s.doc, tokens, p.value, p.op, 0, 0);
          if Put(r.values[e.id], e.rest, Ref(p.id), p.op).Some? {
            UnseenChange(r, e.id, Put(r.values[e.id], e.rest, Ref(p.id), p.op).value, s.doc, 0);
          }
      }
      if tokens == [] {
        NowhereToPut(r, s.doc, p);
      }
    }
  }

  lemma NowhereToPut(r: Records, doc: Tree, p: Patch)
    ensures Put(doc, [], Ref(p.id), p.op) == None && Enter(r, doc, []) == None
    ensures PtrApply(View(r, doc, 0), [], p.value, p.op) == Failed
  {
  }

  /* ------------------------------------------------------------ when two applications agree */

  /** Two sets of records show one tree alike exactly when every record in it reads alike. */
  lemma {:induction false} SameViewIff(r: Records, q: Records, t: Tree, d: nat, depth: nat)
    requires r.names == q.names && r.names.Keys == r.values.Keys == q.values.Keys
    requires Fits(r.names, t, depth) && Seen(t, d, depth)
    ensures View(r, t, d) == View(q, t, d) <==> forall k :: Contains(t, k) && k in r.names ==> ValueOf(r, k) == ValueOf(q, k)
    decreases t
  {
    match t
    case Leaf(_) =>
    case Ref(k) => assert Contains(t, k);
    case List(items) =>
      forall i | 0 <= i < |items|
        ensures View(r, items[i], d) == View(q, items[i], d) <==>
                forall k :: Contains(items[i], k) && k in r.names ==> ValueOf(r, k) == ValueOf(q, k)
      {
        SameViewIff(r, q, items[i], d, depth + 1);
      }
      if View(r, t, d) == View(q, t, d) {
        forall i | 0 <= i < |items|
          ensures View(r, items[i], d) == View(q, items[i], d)
        {
          assert View(r, t, d).items[i] == View(q, t, d).items[i];
        }
      }
    case Dict(fields) =>
      forall f | f in fields
        ensures View(r, fields[f], d) == View(q, fields[f], d) <==>
                forall k :: Contains(fields[f], k) && k in r.names ==> ValueOf(r, k) == ValueOf(q, k)
      {
        SameViewIff(r, q, fields[f], d, depth + 1);
      }
      if View(r, t, d) == View(q, t, d) {
        forall f | f in fields
          ensures View(r, fields[f], d) == View(q, fields[f], d)
        {
          assert View(r, t, d).fields[f] == View(q, t, d).fields[f];
        }
      }
  }

  /** Whatever was applied in between, two applications of one list of patches give one document exactly when the
      records it holds read alike after both. */
  lemma SameDocumentIff(spec: Json, r: Records, q: Records, patches: seq<Patch>)
    requires Sound(r) && AllBelong(r, patches) && Sound(q) && q.names == r.names
    ensures var a, b := Apply(spec, r, patches), Apply(spec, q, patches);
            && a.records.names == b.records.names == r.names
            && a.records.values.Keys == b.records.values.Keys == r.names.Keys
            && (AsValues(a).doc == AsValues(b).doc <==>
                forall k :: Contains(TreeOf(spec, patches), k) && k in r.names ==> ValueOf(a.records, k) == ValueOf(b.records, k))
  {
    hide Fits, Belongs, Apply, View, Contains;
    assert AllBelong(q, patches) by { BelongAlike(r, q, patches); }
    ApplySound(spec, r, patches);
    ApplySound(spec, q, patches);
    TreeIsFixed(spec, r, patches);
    TreeIsFixed(spec, q, patches);
    SameViewIff(Apply(spec, r, patches).records, Apply(spec, q, patches).records, TreeOf(spec, patches), 0, 0);
  }

  lemma BelongAlike(r: Records, q: Records, patches: seq<Patch>)
    requires AllBelong(r, patches) && q.names == r.names
    ensures AllBelong(q, patches)
  {
  }

  /** The patches that write into the document's own containers. */
  function OuterPart(spec: Json, patches: seq<Patch>): (out: seq<Patch>)
    ensures forall p :: p in out ==> p in patches
  {
    if patches == [] then []
    else
      var last := patches[|patches| - 1];
      var front := patches[..|patches| - 1];
      OuterPart(spec, front) + (if Inner(TreeOf(spec, front), last) then [] else [last])
  }

  /** They build the round's tree by themselves, and write into no record. */
  lemma {:induction false} OuterBuildsTree(spec: Json, r: Records, patches: seq<Patch>)
    ensures TreeOf(spec, OuterPart(spec, patches)) == TreeOf(spec, patches)
    ensures Apply(spec, r, OuterPart(spec, patches)).records == r
  {
    hide Inner, Tag, TreeOf, Step, Leaves;
    if patches != [] {
      var last, front := patches[|patches| - 1], patches[..|patches| - 1];
      OuterBuildsTree(spec, r, front);
      var outer := OuterPart(spec, front);
      TreeStep(spec, patches);
      if Inner(TreeOf(spec, front), last) {
        assert OuterPart(spec, patches) == outer;
      } else {
        var all := outer + [last];
        assert OuterPart(spec, patches) == all && all[..|all| - 1] == outer;
        TreeStep(spec, all);
        TreeIsFixed(spec, r, outer);
        OuterStep(Apply(spec, r, outer), last);
      }
    }
  }

  lemma TreeStep(spec: Json, patches: seq<Patch>)
    requires patches != []
    ensures TreeOf(spec, patches) == Grown(TreeOf(spec, patches[..|patches| - 1]), patches[|patches| - 1])
    ensures Inner(TreeOf(spec, patches[..|patches| - 1]), patches[|patches| - 1]) ==>
              TreeOf(spec, patches) == TreeOf(spec, patches[..|patches| - 1])
  {
    hide Inner, Put, Tag;
  }

  lemma OuterStep(s: State, p: Patch)
    requires !Inner(s.doc, p)
    ensures Step(s, p).records == s.records
  {
    hide Put, Enter, Leaves;
    if PtrSplit(p.pointer).Some? {
      EnterIffLeaves(s.records, s.doc, PtrSplit(p.pointer).value);
    }
  }

  /** So re-applying a round without its inner patches changes nothing: what they wrote stays in the records. It is the
      plain run of what is left exactly when no record in the document reads other than its patch says. */
  lemma DroppingInnerPatches(spec: Json, r: Records, patches: seq<Patch>)
    requires Sound(r) && AllBelong(r, patches) && HoldValues(r, OuterPart(spec, patches))
    ensures var first := Apply(spec, r, patches);
            var again := Apply(spec, first.records, OuterPart(spec, patches));
            && again.doc == first.doc && again.records == first.records
            && AsValues(again).doc == AsValues(first).doc
            && first.records.names == r.names && first.records.values.Keys == r.names.Keys
            && (AsValues(again).doc == Run(spec, OuterPart(spec, patches)).doc <==>
                forall k :: Contains(first.doc, k) && k in r.names ==> ValueOf(first.records, k) == ValueOf(r, k))
  {
    hide Fits, Belongs, Step, View, Contains, Inner, SameValues;
    var first, outer := Apply(spec, r, patches), OuterPart(spec, patches);
    ApplySound(spec, r, patches);
    TreeIsFixed(spec, r, patches);
    OuterBuildsTree(spec, r, patches);
    OuterBuildsTree(spec, first.records, patches);
    TreeIsFixed(spec, first.records, outer);
    TreeIsFixed(spec, r, outer);
    assert AllBelong(r, outer);
    OuterIsQuiet(spec, r, patches);
    QuietRunIsPlain(spec, r, outer);
    SameViewIff(first.records, r, first.doc, 0, 0);
  }

  lemma {:induction false} OuterIsQuiet(spec: Json, r: Records, patches: seq<Patch>)
    requires Sound(r) && AllBelong(r, OuterPart(spec, patches))
    ensures Quiet(spec, r, OuterPart(spec, patches))
  {
    hide Sound, Belongs, Inner, Put, View;
    if patches != [] {
      var last, front := patches[|patches| - 1], patches[..|patches| - 1];
      var outer := OuterPart(spec, front);
      if Inner(TreeOf(spec, front), last) {
        assert OuterPart(spec, patches) == outer;
        OuterIsQuiet(spec, r, front);
      } else {
        var all := OuterPart(spec, patches);
        assert all == outer + [last] && all[..|outer|] == outer && all[..|all| - 1] == outer;
        assert forall p :: p in outer ==> p in all;
        assert AllBelong(r, outer);
        OuterIsQuiet(spec, r, front);
        OuterBuildsTree(spec, r, front);
        TreeIsFixed(spec, r, outer);
        ApplySound(spec, r, outer);
        NotInnerIsNoOp(Apply(spec, r, outer), last);
      }
    }
  }

  lemma NotInnerIsNoOp(s: State, p: Patch)
    requires Sound(s.records) && !Inner(s.doc, p)
    ensures NoOp(s, p)
  {
    hide Put, Enter, Leaves, Sound;
    if PtrSplit(p.pointer).Some? {
      EnterIffLeaves(s.records, s.doc, PtrSplit(p.pointer).value);
    }
  }

  /* ------------------------------------------------------------ rounds that stay apart */

  /** A walk along `b` may pass through the place `a` names. */
  predicate Leads(a: seq<string>, b: seq<string>) {
    0 < |a| < |b| && forall i :: 0 <= i < |a| ==> SameStep(a[i], b[i])
  }

  /** No patch's pointer leads through the place another's names, whatever index of a list either ends up at. */
  predicate NoneLeads(names: map<nat, seq<string>>) {
    forall j, k :: j in names && k in names ==> !Leads(names[j], names[k])
  }

  lemma {:induction false} ApartNeverLeaves(names: map<nat, seq<string>>, t: Tree, whole: seq<string>, depth: nat)
    requires Fits(names, t, depth) && depth <= |whole| && (t.Ref? ==> depth > 0)
    requires forall k :: k in names ==> !Leads(names[k], whole)
    requires forall k, i :: Contains(t, k) && 0 <= i < depth && k in names && i < |names[k]| ==> SameStep(names[k][i], whole[i])
    ensures !Leaves(t, whole[depth..])
    decreases |whole| - depth
  {
    hide PyInt, SameStep, Indexes;
    if depth < |whole| {
      if t.Ref? {
        assert false;
      } else if depth + 1 < |whole| && Child(t, whole[depth]).Some? {
        assert whole[depth..][0] == whole[depth] && whole[depth..][1..] == whole[depth + 1..];
        ChildFits(names, t, whole[depth], depth);
        ApartNeverLeaves(names, Child(t, whole[depth]).value, whole, depth + 1);
      }
    }
  }

  /** However often such a round, or any part of it, is applied, the records stay as they are and the document is the
      value model's. */
  lemma {:induction false} ApartIsPlain(spec: Json, r: Records, patches: seq<Patch>)
    requires Sound(r) && AllBelong(r, patches) && HoldValues(r, patches) && NoneLeads(r.names)
    ensures Apply(spec, r, patches).records == r
    ensures AsValues(Apply(spec, r, patches)) == Run(spec, patches)
  {
    hide Step, Sound, Belongs, View, ApplyOne, Fits, Tag, NoneLeads;
    if patches == [] {
      ViewTag(r, spec, 0);
    } else {
      var last := |patches| - 1;
      var p, front := patches[last], patches[..last];
      assert patches == front + [p];
      ApartIsPlain(spec, r, front);
      ApplySound(spec, r, front);
      var s := Apply(spec, r, front);
      assert Belongs(r, p);
      ApartIsOuter(s, p);
      OuterStep(s, p);
      NotInnerIsNoOp(s, p);
      QuietStepIsPlain(s, p);
    }
  }

  lemma ApartIsOuter(s: State, p: Patch)
    requires Ready(s, p) && NoneLeads(s.records.names)
    ensures !Inner(s.doc, p)
  {
    hide Fits, Leaves, PtrSplit, Contains, Leads;
    if PtrSplit(p.pointer).Some? {
      var tokens := PtrSplit(p.pointer).value;
      assert tokens[0..] == tokens;
      ApartNeverLeaves(s.records.names, s.doc, tokens, 0);
    }
  }

  /* ------------------------------------------------------------ fresh records */

  ghost predicate DistinctIds(patches: seq<Patch>) {
    forall i, j :: 0 <= i < j < |patches| ==> patches[i].id != patches[j].id
  }

  /** A round's records start out sound, each with its own patch's value. */
  lemma FreshIsReady(patches: seq<Patch>)
    requires DistinctIds(patches)
    ensures var r := Fresh(patches); Sound(r) && AllBelong(r, patches) && HoldValues(r, patches)
  {
    hide View, Tag, PlaceOf, Fits, Fresh, DistinctIds;
    var r := Fresh(patches);
    forall k | k in r.values
      ensures !r.values[k].Ref? && Fits(r.names, r.values[k], |r.names[k]|)
    {
      BareValue(patches, k);
      var j :| r.values[k] == Tag(j);
      TagFits(r.names, j, |r.names[k]|);
    }
    forall p | p in patches
      ensures p.id in r.names && r.names[p.id] == PlaceOf(p) && p.id in r.values && ValueOf(r, p.id) == p.value
    {
      FreshHolds(patches, p);
      ViewTag(r, p.value, |r.names[p.id]|);
    }
  }

  lemma {:induction false} FreshHolds(patches: seq<Patch>, p: Patch)
    requires DistinctIds(patches) && p in patches
    ensures var r := Fresh(patches); p.id in r.names && r.names[p.id] == PlaceOf(p) && r.values[p.id] == Tag(p.value)
  {
    hide Tag, PlaceOf;
    var last := |patches| - 1;
    assert patches == patches[..last] + [patches[last]];
    if p in patches[..last] {
      FreshHolds(patches[..last], p);
      var i :| 0 <= i < last && patches[i] == p;
      assert patches[last].id != p.id;
    }
  }

  lemma {:induction false} BareValue(patches: seq<Patch>, k: nat)
    requires k in Fresh(patches).values
    ensures exists j :: Fresh(patches).values[k] == Tag(j)
  {
    hide Tag, PlaceOf;
    if patches[|patches| - 1].id != k {
      BareValue(patches[..|patches| - 1], k);
    }
  }

  /* ------------------------------------------------------------ a patch inside a patch */

  /** The round: one patch rewrites `/a`, the other appends to a list inside it. */
  function Rewrite(): Patch {
    Patch(0, Replace, "/a", Obj(map["l" := Arr([])]))
  }

  function AppendInside(v: Json): Patch {
    Patch(1, Add, "/a/l/-", v)
  }

  /** The rewrite's object after some appends. */
  function Holding(items: seq<Tree>): Tree {
    Dict(map["l" := List(items)])
  }

  function HeldTwo(v: Json, items: seq<Tree>): Records {
    Records(map[0 := ["a"], 1 := ["a", "l", "-"]], map[0 := Holding(items), 1 := Tag(v)])
  }

  /** The first application appends once; the next one, which every drop pass makes, appends twice. */
  lemma AppendInsideDoubles(v: Json)
    ensures var spec, patches := Obj(map["a" := Null]), [Rewrite(), AppendInside(v)];
            var first := Apply(spec, Fresh(patches), patches);
            var again := Apply(spec, first.records, patches);
            && AsValues(first).doc == Obj(map["a" := Obj(map["l" := Arr([v])])])
            && AsValues(again).doc == Obj(map["a" := Obj(map["l" := Arr([v, v])])])
  {
    hide Step, Tag, PlaceOf, PtrSplit, View;
    var spec, patches := Obj(map["a" := Null]), [Rewrite(), AppendInside(v)];
    FreshTwo(v);
    ApplyTwo(v, []);
    ApplyTwo(v, [Ref(1)]);
    assert [] + [Ref(1)] == [Ref(1)] && [Ref(1)] + [Ref(1)] == [Ref(1), Ref(1)];
    SeenTwo(v, [Ref(1)], [v]);
    SeenTwo(v, [Ref(1), Ref(1)], [v, v]);
  }

  lemma PointersRead()
    ensures PtrSplit("/a") == Some(["a"]) && PtrSplit("/a/l/-") == Some(["a", "l", "-"])
  {
    assert Render(["a"]) == "/a" by { assert ["a"][1..] == []; }
    assert Render(["a", "l", "-"]) == "/a/l/-" by {
      assert ["a", "l", "-"][1..] == ["l", "-"] && ["l", "-"][1..] == ["-"] && ["-"][1..] == [];
    }
    SplitInvertsRender(["a"]);
    SplitInvertsRender(["a", "l", "-"]);
  }

  lemma FreshTwo(v: Json)
    ensures Fresh([Rewrite(), AppendInside(v)]) == HeldTwo(v, [])
  {
    hide PtrSplit;
    PointersRead();
    var a, b := Rewrite(), AppendInside(v);
    assert [a, b][..1] == [a] && [a][..0] == [];
    assert Fresh([]) == Records(map[], map[]);
    TagHolding();
    assert Fresh([a]) == Records(map[0 := ["a"]], map[0 := Holding([])]);
  }

  lemma TagHolding()
    ensures Tag(Obj(map["l" := Arr([])])) == Holding([])
  {
    assert Tag(Arr([])) == List([]);
    assert Tag(Obj(map["l" := Arr([])])).fields == map["l" := List([])];
  }

  /** One application: `/a` becomes the rewrite's object, which holds one element more. */
  lemma ApplyTwo(v: Json, items: seq<Tree>)
    ensures Apply(Obj(map["a" := Null]), HeldTwo(v, items), [Rewrite(), AppendInside(v)])
         == State(Dict(map["a" := Ref(0)]), HeldTwo(v, items + [Ref(1)]), [])
  {
    hide PtrSplit, Tag;
    PointersRead();
    var spec, r := Obj(map["a" := Null]), HeldTwo(v, items);
    var a, b := Rewrite(), AppendInside(v);
    assert [a, b][..1] == [a] && [a][..0] == [];
    assert Apply(spec, r, []) == State(Tag(spec), r, []);
    FirstOfTwo(r);
    assert Apply(spec, r, [a]) == State(Dict(map["a" := Ref(0)]), r, []);
    SecondOfTwo(v, items);
  }

  lemma FirstOfTwo(r: Records)
    ensures Step(State(Tag(Obj(map["a" := Null])), r, []), Rewrite()) == State(Dict(map["a" := Ref(0)]), r, [])
  {
    hide PtrSplit;
    PointersRead();
    var t := Tag(Obj(map["a" := Null]));
    assert t.fields == map["a" := Leaf(Null)];
    assert t.fields["a" := Ref(0)] == map["a" := Ref(0)];
  }

  lemma SecondOfTwo(v: Json, items: seq<Tree>)
    ensures Step(State(Dict(map["a" := Ref(0)]), HeldTwo(v, items), []), AppendInside(v))
         == State(Dict(map["a" := Ref(0)]), HeldTwo(v, items + [Ref(1)]), [])
  {
    hide PtrSplit, Tag;
    PointersRead();
    var r, doc, tokens := HeldTwo(v, items), Dict(map["a" := Ref(0)]), ["a", "l", "-"];
    assert tokens[1..] == ["l", "-"] && tokens[1..][1..] == ["-"] && ["l", "-"][1..] == ["-"];
    assert Enter(r, Holding(items), ["l", "-"]) == None by {
      assert Child(Holding(items), "l") == Some(List(items));
      assert Enter(r, List(items), ["-"]) == None;
    }
    assert Enter(r, Ref(0), ["l", "-"]) == Some(Entry(0, ["l", "-"]));
    assert Enter(r, doc, tokens) == Some(Entry(0, ["l", "-"]));
    PutHolding(items);
    assert r.values[0 := Holding(items + [Ref(1)])] == HeldTwo(v, items + [Ref(1)]).values;
  }

  lemma PutHolding(items: seq<Tree>)
    ensures Put(Holding(items), ["l", "-"], Ref(1), Add) == Some(Holding(items + [Ref(1)]))
  {
    assert ["l", "-"][1..] == ["-"];
    assert map["l" := List(items)]["l" := List(items + [Ref(1)])] == map["l" := List(items + [Ref(1)])];
  }

  lemma SeenTwo(v: Json, items: seq<Tree>, seen: seq<Json>)
    requires |items| == |seen| && forall i :: 0 <= i < |items| ==> items[i] == Ref(1) && seen[i] == v
    ensures View(HeldTwo(v, items), Dict(map["a" := Ref(0)]), 0) == Obj(map["a" := Obj(map["l" := Arr(seen)])])
  {
    hide Tag;
    var r := HeldTwo(v, items);
    ViewTag(r, v, 3);
    assert View(r, Ref(1), 1) == v;
    assert View(r, List(items), 1).items == seen;
    assert View(r, Holding(items), 1).fields == map["l" := Arr(seen)];
    assert View(r, Ref(0), 0) == View(r, Holding(items), 1);
    assert View(r, Dict(map["a" := Ref(0)]), 0).fields == map["a" := Obj(map["l" := Arr(seen)])];
  }
}
