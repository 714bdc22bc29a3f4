/** What a JSON pointer's tokens name, one step at a time, and what a patch then does: the pointer functions of
    loop/spec_review.py and loop/plan_runner.py against the containers themselves, on every document and every path. */
module PointerSteps {
  import opened Wrappers
  import opened Json
  import opened Strings
  import opened JsonPointer

  /* ------------------------------------------------------------ tokens */

  /** What Python's `int` reads: digits, under one sign or none. */
  ghost predicate Spells(token: string, i: int) {
    exists digits: string :: IsDigits(digits) && SpelledBy(token, digits, i)
  }

  ghost predicate SpelledBy(token: string, digits: string, i: int)
    requires IsDigits(digits)
  {
    || (token == digits && i == ParseNat(digits))
    || (token == "+" + digits && i == ParseNat(digits))
    || (token == "-" + digits && i == 0 - ParseNat(digits))
  }

  lemma PyIntIff(token: string, i: int)
    ensures PyInt(token) == Some(i) <==> Spells(token, i)
  {
    hide ParseNat;
    if PyInt(token) == Some(i) {
      var digits := if IsDigits(token) then token else token[1..];
      assert SpelledBy(token, digits, i);
    }
    if Spells(token, i) {
      var digits: string :| IsDigits(digits) && SpelledBy(token, digits, i);
      SpelledIsRead(token, digits, i);
    }
  }

  lemma SpelledIsRead(token: string, digits: string, i: int)
    requires IsDigits(digits) && SpelledBy(token, digits, i)
    ensures PyInt(token) == Some(i)
  {
    hide ParseNat;
    assert ("+" + digits)[1..] == digits && ("-" + digits)[1..] == digits;
    assert !IsDigit('+') && !IsDigit('-');
    assert ("+" + digits)[0] == '+' && ("-" + digits)[0] == '-';
  }

  /** The element a Python index names: counted from the front, or from the end when negative. */
  ghost predicate IsAt(len: nat, i: int, k: nat) {
    k < len && (k == i || k == len + i)
  }

  lemma PositionIff(len: nat, i: int, k: nat)
    ensures Position(len, i) == Some(k) <==> IsAt(len, i, k)
  {
  }

  /** `list.insert`: the value goes before the element the index names, before all of them or after all of them. */
  lemma InsertedAt(items: seq<Json>, i: int, v: Json) returns (at: nat)
    ensures at <= |items| && InsertAt(items, i, v) == items[..at] + [v] + items[at..]
    ensures 0 <= i < |items| || 0 <= |items| + i < |items| ==> at < |items| && (at == i || at == |items| + i)
    ensures i >= |items| ==> at == |items|
    ensures |items| + i < 0 ==> at == 0
  {
    at := if i < 0 then (if i + |items| < 0 then 0 else i + |items|) else if i > |items| then |items| else i;
  }

  /* ------------------------------------------------------------ steps */

  /** `child` is what this container holds under this token. */
  ghost predicate Names(doc: Json, token: string, child: Json) {
    if doc.Obj? then token in doc.fields && doc.fields[token] == child
    else doc.Arr? && exists i, k: nat :: Spells(token, i) && IsAt(|doc.items|, i, k) && doc.items[k] == child
  }

  ghost predicate Leads(doc: Json, path: seq<string>, end: Json) {
    if path == [] then end == doc
    else exists child :: Names(doc, path[0], child) && Leads(child, path[1..], end)
  }

  /** What setting or adding one value under the last token makes of a container. */
  ghost predicate Becomes(container: Json, last: string, v: Json, op: Op, out: Json) {
    match container
    case Obj(fields) => out == Obj(fields[last := v])
    case Arr(items) =>
      if last == "-" then out == Arr(items + [v])
      else if op == Add then exists i :: Spells(last, i) && out == Arr(InsertAt(items, i, v))
      else exists i, k: nat :: Spells(last, i) && IsAt(|items|, i, k) && out == Arr(items[k := v])
    case _ => false
  }

  ghost predicate CanBecome(container: Json, last: string, v: Json, op: Op) {
    exists out :: Becomes(container, last, v, op, out)
  }

  /** All the tokens but the last lead to a container in which the last can be set. */
  ghost predicate Applies(doc: Json, tokens: seq<string>, v: Json, op: Op) {
    tokens != [] &&
    var front, last := tokens[..|tokens| - 1], tokens[|tokens| - 1];
    exists end :: Leads(doc, front, end) && CanBecome(end, last, v, op)
  }

  lemma BecomesIff(container: Json, last: string, v: Json, op: Op, out: Json)
    ensures ApplyLast(container, last, v, op) == Ok(out) <==> Becomes(container, last, v, op, out)
  {
    hide PyInt, Spells, InsertAt;
    if container.Arr? && last != "-" {
      forall i
        ensures PyInt(last) == Some(i) <==> Spells(last, i)
      {
        PyIntIff(last, i);
      }
      if PyInt(last).Some? {
        var i := PyInt(last).value;
        forall k: nat
          ensures Position(|container.items|, i) == Some(k) <==> IsAt(|container.items|, i, k)
        {
          PositionIff(|container.items|, i, k);
        }
      }
    }
  }

  /** The one element a token names in a list. */
  lemma NamesInList(items: seq<Json>, token: string, child: Json)
    ensures Names(Arr(items), token, child) <==>
            PyInt(token).Some? && Position(|items|, PyInt(token).value).Some? && items[Position(|items|, PyInt(token).value).value] == child
  {
    hide PyInt, Spells;
    forall i
      ensures PyInt(token) == Some(i) <==> Spells(token, i)
    {
      PyIntIff(token, i);
    }
    if PyInt(token).Some? {
      var i := PyInt(token).value;
      forall k: nat
        ensures Position(|items|, i) == Some(k) <==> IsAt(|items|, i, k)
      {
        PositionIff(|items|, i, k);
      }
    }
  }

  /** When a patch applies. */
  lemma {:induction false} AppliesIff(doc: Json, tokens: seq<string>, v: Json, op: Op)
    ensures PtrApply(doc, tokens, v, op).Ok? <==> Applies(doc, tokens, v, op)
    decreases |tokens|
  {
    hide PyInt, CanBecome, ApplyLast, Applies, PtrApply, ChildOf;
    if |tokens| <= 1 {
      AppliesAtOnce(doc, tokens, v, op);
    } else {
      StepApplies(doc, tokens, v, op);
      AppliesFurther(doc, tokens, v, op);
      if ChildOf(doc, tokens[0]).Some? {
        AppliesIff(ChildOf(doc, tokens[0]).value, tokens[1..], v, op);
      }
    }
  }

  lemma AppliesAtOnce(doc: Json, tokens: seq<string>, v: Json, op: Op)
    requires |tokens| <= 1
    ensures PtrApply(doc, tokens, v, op).Ok? <==> Applies(doc, tokens, v, op)
  {
    hide PyInt, Becomes, ApplyLast;
    if |tokens| == 1 {
      assert tokens[..0] == [];
      forall out
        ensures ApplyLast(doc, tokens[0], v, op) == Ok(out) <==> Becomes(doc, tokens[0], v, op, out)
      {
        BecomesIff(doc, tokens[0], v, op, out);
      }
      assert Leads(doc, tokens[..0], doc);
      if ApplyLast(doc, tokens[0], v, op).Ok? {
        assert Becomes(doc, tokens[0], v, op, ApplyLast(doc, tokens[0], v, op).doc);
      }
    }
  }

  lemma AppliesFurther(doc: Json, tokens: seq<string>, v: Json, op: Op)
    requires |tokens| > 1
    ensures Applies(doc, tokens, v, op) <==> ChildOf(doc, tokens[0]).Some? && Applies(ChildOf(doc, tokens[0]).value, tokens[1..], v, op)
  {
    hide Names, CanBecome, ChildOf;
    var front, rest, last := tokens[..|tokens| - 1], tokens[1..], tokens[|tokens| - 1];
    assert front[1..] == rest[..|rest| - 1] && front[0] == tokens[0] && rest[|rest| - 1] == last;
    forall child
      ensures Names(doc, front[0], child) <==> ChildOf(doc, tokens[0]) == Some(child)
    {
      ChildIsNamed(doc, tokens[0], child);
    }
    if ChildOf(doc, tokens[0]).Some? {
      var child := ChildOf(doc, tokens[0]).value;
      forall end
        ensures Leads(doc, front, end) <==> Leads(child, front[1..], end)
      {
        assert Names(doc, front[0], child);
      }
    } else {
      forall end
        ensures !Leads(doc, front, end)
      {
      }
    }
  }

  /** The child a token names, if it names one; it names no other. */
  function ChildOf(doc: Json, token: string): (child: Option<Json>) {
    match doc
    case Obj(fields) => if token in fields then Some(fields[token]) else None
    case Arr(items) =>
      if PyInt(token).Some? && Position(|items|, PyInt(token).value).Some?
      then Some(items[Position(|items|, PyInt(token).value).value]) else None
    case _ => None
  }

  lemma ChildIsNamed(doc: Json, token: string, child: Json)
    ensures Names(doc, token, child) <==> ChildOf(doc, token) == Some(child)
  {
    hide PyInt;
    if doc.Arr? {
      NamesInList(doc.items, token, child);
    }
  }

  lemma StepApplies(doc: Json, tokens: seq<string>, v: Json, op: Op)
    requires |tokens| > 1
    ensures ChildOf(doc, tokens[0]) == None ==> PtrApply(doc, tokens, v, op) == Failed
    ensures ChildOf(doc, tokens[0]).Some? ==>
              (PtrApply(doc, tokens, v, op).Ok? <==> PtrApply(ChildOf(doc, tokens[0]).value, tokens[1..], v, op).Ok?)
  {
    hide PyInt;
  }

  /* ------------------------------------------------------------ what a patch leaves */

  /** On a path the document has, a patch makes of its container what setting the last token makes of it, and every path
      that does not meet it keeps its value. */
  lemma {:induction false} EditsItsContainer(doc: Json, front: seq<string>, last: string, v: Json, op: Op, q: seq<string>)
    requires Resolves(doc, front) && ApplyLast(ValueAt(doc, front), last, v, op).Ok?
    ensures var out := PtrApply(doc, front + [last], v, op);
            && out.Ok? && Resolves(out.doc, front)
            && Ok(ValueAt(out.doc, front)) == ApplyLast(ValueAt(doc, front), last, v, op)
            && (Resolves(doc, q) && Disjoint(front, q) ==> Resolves(out.doc, q) && ValueAt(out.doc, q) == ValueAt(doc, q))
  {
    hide ApplyLast, PtrApply, Disjoint;
    var tokens := front + [last];
    if front == [] {
      EditsHere(doc, last, v, op);
      MeetsTheRoot(q);
    } else {
      var at := ResolvedChild(doc, front);
      var below := PtrApply(at, front[1..] + [last], v, op);
      EditsItsContainer(at, front[1..], last, v, op, if q == [] then [] else q[1..]);
      EditsBelow(doc, front, last, v, op);
      var out := PtrApply(doc, tokens, v, op);
      EditedIsThere(doc, front, out.doc, below.doc);
      MeetsTheRoot(front);
      if q != [] && Resolves(doc, q) && Disjoint(front, q) {
        OthersAreThere(doc, front, out.doc, below.doc, q);
      }
    }
  }

  lemma MeetsTheRoot(q: seq<string>)
    ensures !Disjoint([], q) && !Disjoint(q, [])
  {
  }

  function ResolvedChild(doc: Json, path: seq<string>): Json
    requires path != [] && Resolves(doc, path)
  {
    match doc
    case Arr(items) => items[ParseNat(path[0])]
    case Obj(fields) => fields[path[0]]
  }

  /** The document with this child in place of the one the path goes through. */
  function WithChild(doc: Json, path: seq<string>, child: Json): Json
    requires path != [] && Resolves(doc, path)
  {
    match doc
    case Arr(items) => Arr(items[ParseNat(path[0]) := child])
    case Obj(fields) => Obj(fields[path[0] := child])
  }

  lemma EditsHere(doc: Json, last: string, v: Json, op: Op)
    ensures PtrApply(doc, [] + [last], v, op) == ApplyLast(doc, last, v, op)
  {
    hide ApplyLast;
    assert [] + [last] == [last];
  }

  lemma EditsBelow(doc: Json, front: seq<string>, last: string, v: Json, op: Op)
    requires front != [] && Resolves(doc, front)
    ensures var below := PtrApply(ResolvedChild(doc, front), front[1..] + [last], v, op);
            below.Ok? ==> PtrApply(doc, front + [last], v, op) == Ok(WithChild(doc, front, below.doc))
  {
    hide ApplyLast, ParseNat;
    var tokens := front + [last];
    assert tokens[1..] == front[1..] + [last] && tokens[0] == front[0] && |tokens| > 1;
    assert Canonical(front[0]) ==> PyInt(front[0]) == Some(ParseNat(front[0]));
  }

  lemma EditedIsThere(doc: Json, path: seq<string>, out: Json, child: Json)
    requires path != [] && Resolves(doc, path) && out == WithChild(doc, path, child) && Resolves(child, path[1..])
    ensures Resolves(out, path) && ValueAt(out, path) == ValueAt(child, path[1..])
    ensures ValueAt(doc, path) == ValueAt(ResolvedChild(doc, path), path[1..])
  {
    hide ParseNat;
  }

  lemma OthersAreThere(doc: Json, path: seq<string>, out: Json, child: Json, q: seq<string>)
    requires path != [] && q != [] && Resolves(doc, path) && out == WithChild(doc, path, child) && Resolves(doc, q) && Disjoint(path, q)
    requires Disjoint(path[1..], q[1..]) && Resolves(ResolvedChild(doc, path), q[1..]) ==>
               Resolves(child, q[1..]) && ValueAt(child, q[1..]) == ValueAt(ResolvedChild(doc, path), q[1..])
    ensures Resolves(out, q) && ValueAt(out, q) == ValueAt(doc, q)
  {
    hide ParseNat;
    if q[0] == path[0] {
      assert path[1..] <= q[1..] ==> path <= q;
      assert q[1..] <= path[1..] ==> q <= path;
    }
  }

  /* ------------------------------------------------------------ reading */

  /** `ptr_get` steps as a patch does, but takes no `+` sign. */
  ghost predicate Reads(doc: Json, token: string, child: Json) {
    Names(doc, token, child) && (doc.Arr? ==> token[..1] != "+")
  }

  ghost predicate ReadsTo(doc: Json, path: seq<string>, end: Json) {
    if path == [] then end == doc
    else exists child :: Reads(doc, path[0], child) && ReadsTo(child, path[1..], end)
  }

  lemma {:induction false} FoundIff(doc: Json, path: seq<string>, v: Json)
    ensures PtrGet(doc, path) == Found(v) <==> ReadsTo(doc, path, v)
    decreases |path|
  {
    hide PyInt, Names, Position;
    if path != [] {
      ChildIsRead(doc, path);
      forall child | Reads(doc, path[0], child)
        ensures ReadsTo(child, path[1..], v) <==> PtrGet(child, path[1..]) == Found(v)
      {
        FoundIff(child, path[1..], v);
      }
    }
  }

  lemma ChildIsRead(doc: Json, path: seq<string>)
    requires path != []
    ensures forall child :: Reads(doc, path[0], child) ==> ChildOf(doc, path[0]) == Some(child) && PtrGet(doc, path) == PtrGet(child, path[1..])
    ensures !(exists child :: Reads(doc, path[0], child)) ==> !PtrGet(doc, path).Found?
  {
    hide Names;
    forall child
      ensures Names(doc, path[0], child) <==> ChildOf(doc, path[0]) == Some(child)
    {
      ChildIsNamed(doc, path[0], child);
    }
    SignIsStripped(path[0]);
    if doc.Arr? && PtrGet(doc, path).Found? {
      assert Reads(doc, path[0], ChildOf(doc, path[0]).value);
    }
    if doc.Obj? && PtrGet(doc, path).Found? {
      assert Reads(doc, path[0], ChildOf(doc, path[0]).value);
    }
  }

  /** Of the tokens `int` reads, `ptr_get` takes those without a `+`. */
  lemma SignIsStripped(token: string)
    ensures PyInt(token).Some? ==> (IsDigits(StripDashes(token)) <==> token[..1] != "+")
  {
    hide ParseNat;
    if IsDigits(token) {
      DigitsHaveNoDash(token);
    } else if token != "" && token[0] == '-' && IsDigits(token[1..]) {
      DigitsHaveNoDash(token[1..]);
    } else if token != "" && token[0] == '+' {
      assert StripDashes(token) == token;
    }
  }

  /** `_resolve` reads a pointer leniently: an empty token names nothing, and is passed over. */
  lemma {:induction false} LenientReadsBack(tokens: seq<string>)
    ensures LenientTokens(Render(tokens)) == WithoutEmpty(tokens)
  {
    LenientIsSplit(Render(tokens));
    SplitRendered(tokens);
    SpelledWithout(tokens);
    assert [""] + EscapeAll(tokens) != [] && ([""] + EscapeAll(tokens))[1..] == EscapeAll(tokens);
    UnescapeSpelled(WithoutEmpty(tokens));
  }

  lemma {:induction false} LenientIsSplit(pointer: string)
    ensures LenientTokens(pointer) == UnescapeAll(WithoutEmpty(Split(pointer, '/')))
  {
    if pointer != "" && pointer[0] == '/' {
      LenientIsSplit(pointer[1..]);
      assert ([""] + Split(pointer[1..], '/'))[1..] == Split(pointer[1..], '/');
    }
  }

  lemma {:induction false} SpelledWithout(tokens: seq<string>)
    ensures WithoutEmpty(EscapeAll(tokens)) == EscapeAll(WithoutEmpty(tokens))
  {
    if tokens != [] {
      SpelledWithout(tokens[1..]);
      var rest := WithoutEmpty(tokens[1..]);
      if tokens[0] != "" {
        assert ([tokens[0]] + rest)[1..] == rest;
      }
    }
  }

  lemma {:induction false} UnescapeSpelled(tokens: seq<string>)
    ensures UnescapeAll(EscapeAll(tokens)) == tokens
  {
    if tokens != [] {
      UnescapeSpelled(tokens[1..]);
      UnescapeEscape(tokens[0]);
      assert ([Escape(tokens[0])] + EscapeAll(tokens[1..]))[1..] == EscapeAll(tokens[1..]);
    }
  }

  /** The tolerant reader takes a list index only in plain digits. */
  ghost predicate Yields(doc: Json, path: seq<string>, v: Json) {
    if path == [] then v == doc
    else match doc
      case Obj(fields) => path[0] in fields && Yields(fields[path[0]], path[1..], v)
      case Arr(items) => exists k: nat :: IsDigits(path[0]) && ParseNat(path[0]) == k < |items| && Yields(items[k], path[1..], v)
      case _ => false
  }

  /** It finds what the path yields, and Null where it yields nothing. */
  lemma {:induction false} ResolveIff(doc: Json, path: seq<string>, v: Json)
    ensures Yields(doc, path, v) ==> Resolve(doc, path) == v
    ensures !Yields(doc, path, Resolve(doc, path)) ==> Resolve(doc, path) == Null
  {
    hide ParseNat;
    if path != [] {
      match doc
      case Obj(fields) =>
        if path[0] in fields {
          ResolveIff(fields[path[0]], path[1..], v);
        }
      case Arr(items) =>
        if IsDigits(path[0]) && ParseNat(path[0]) < |items| {
          ResolveIff(items[ParseNat(path[0])], path[1..], v);
        }
      case _ =>
    }
  }
}
