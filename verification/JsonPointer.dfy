/** JSON Pointers (RFC 6901) as loop/spec_review.py and loop/plan_runner.py read them, and the effect of one
    patch on a document. */
module JsonPointer {
  import opened Wrappers
  import opened Json
  import opened Strings

  /* ------------------------------------------------------------ splitting */

  /** `s.replace("ab", "r")` for a two-character pattern. */
  function ReplacePair(s: string, a: char, b: char, r: char): string {
    if |s| < 2 then s
    else if s[0] == a && s[1] == b then [r] + ReplacePair(s[2..], a, b, r)
    else [s[0]] + ReplacePair(s[1..], a, b, r)
  }

  /** `_unescape`: two passes, `~1` first. */
  function Unescape(token: string): string {
    ReplacePair(ReplacePair(token, '~', '1', '/'), '~', '0', '~')
  }

  /** Section 3 of RFC 6901: how a token is written inside a pointer. */
  function Escape(token: string): (s: string)
    ensures '/' !in s
    ensures token != "" ==> s != ""
  {
    if token == "" then ""
    else (if token[0] == '~' then "~0" else if token[0] == '/' then "~1" else [token[0]]) + Escape(token[1..])
  }

  function EscapeTilde(token: string): string {
    if token == "" then ""
    else (if token[0] == '~' then "~0" else [token[0]]) + EscapeTilde(token[1..])
  }

  lemma {:induction false} FirstPass(token: string)
    ensures ReplacePair(Escape(token), '~', '1', '/') == EscapeTilde(token)
  {
    if token != "" {
      FirstPass(token[1..]);
      var s, rest := Escape(token), Escape(token[1..]);
      if token[0] == '~' {
        assert s[1..] == ['0'] + rest;
        assert s[1..][1..] == rest;
      } else if token[0] == '/' {
        assert s[2..] == rest;
      } else {
        assert s[1..] == rest;
      }
    }
  }

  lemma {:induction false} SecondPass(token: string)
    ensures ReplacePair(EscapeTilde(token), '~', '0', '~') == token
  {
    if token != "" {
      SecondPass(token[1..]);
      var s, rest := EscapeTilde(token), EscapeTilde(token[1..]);
      if token[0] == '~' {
        assert s[2..] == rest;
      } else {
        assert s[1..] == rest;
      }
    }
  }

  lemma UnescapeEscape(token: string)
    ensures Unescape(Escape(token)) == token
  {
    FirstPass(token);
    SecondPass(token);
  }

  function UnescapeAll(parts: seq<string>): (tokens: seq<string>)
    ensures |tokens| == |parts|
    ensures forall i :: 0 <= i < |parts| ==> tokens[i] == Unescape(parts[i])
  {
    if parts == [] then [] else [Unescape(parts[0])] + UnescapeAll(parts[1..])
  }

  /** `ptr_split`; None is its ValueError. */
  function PtrSplit(pointer: string): Option<seq<string>> {
    if pointer == "" || pointer == "/" then Some([])
    else if pointer[0] != '/' then None
    else Some(UnescapeAll(Split(pointer, '/')[1..]))
  }

  /** Section 4 of RFC 6901: the pointer that names a path of tokens. */
  function Render(tokens: seq<string>): string {
    if tokens == [] then "" else "/" + Escape(tokens[0]) + Render(tokens[1..])
  }

  function EscapeAll(tokens: seq<string>): (parts: seq<string>)
    ensures |parts| == |tokens|
    ensures forall i :: 0 <= i < |tokens| ==> parts[i] == Escape(tokens[i])
  {
    if tokens == [] then [] else [Escape(tokens[0])] + EscapeAll(tokens[1..])
  }

  lemma SplitAfterToken(token: string, rest: string, parts: seq<string>)
    requires '/' !in token && rest != "" && rest[0] == '/' && Split(rest, '/') == [""] + parts
    ensures Split(token + rest, '/') == [token] + parts
  {
    assert rest == "/" + rest[1..];
    assert token + rest == token + ['/'] + rest[1..];
    SplitCons(token, rest[1..], '/');
    SplitCons("", rest[1..], '/');
    assert "" + ['/'] + rest[1..] == rest;
    assert ([""] + Split(rest[1..], '/'))[1..] == ([""] + parts)[1..];
  }

  lemma {:induction false} SplitRendered(tokens: seq<string>)
    ensures Split(Render(tokens), '/') == [""] + EscapeAll(tokens)
  {
    if tokens != [] {
      var rest := Render(tokens[1..]);
      SplitRendered(tokens[1..]);
      assert Render(tokens) == "/" + (Escape(tokens[0]) + rest);
      assert Render(tokens)[1..] == Escape(tokens[0]) + rest;
      assert Split(Render(tokens), '/') == [""] + Split(Escape(tokens[0]) + rest, '/');
      if tokens[1..] == [] {
        assert Escape(tokens[0]) + rest == Escape(tokens[0]);
        SplitNone(Escape(tokens[0]), '/');
        assert EscapeAll(tokens) == [Escape(tokens[0])];
      } else {
        SplitAfterToken(Escape(tokens[0]), rest, EscapeAll(tokens[1..]));
      }
    }
  }

  /** `ptr_split` inverts the escaping of every path of tokens but the single empty token, whose pointer
      "/" it reads as the whole document. */
  lemma SplitInvertsRender(tokens: seq<string>)
    ensures PtrSplit(Render(tokens)) == Some(tokens) <==> tokens != [""]
  {
    if tokens == [""] {
      assert Escape("") == "" && Render(tokens[1..]) == "";
      assert Render(tokens) == "/";
    } else if tokens != [] {
      SplitRendered(tokens);
      var pointer := Render(tokens);
      assert |pointer| >= 2 by {
        if |tokens| == 1 {
          assert tokens[0] != "" && Escape(tokens[0]) != "";
        } else {
          assert Render(tokens[1..]) != "";
        }
      }
      assert Split(pointer, '/')[1..] == EscapeAll(tokens);
      forall i | 0 <= i < |tokens|
        ensures UnescapeAll(EscapeAll(tokens))[i] == tokens[i]
      {
        UnescapeEscape(tokens[i]);
      }
      assert UnescapeAll(EscapeAll(tokens)) == tokens;
    }
  }

  /* ------------------------------------------------------------ reading */

  datatype Lookup = Found(value: Json) | Missing | Raised

  /** `int(token)` over ASCII digits with an optional sign; None is its ValueError. */
  function PyInt(token: string): Option<int> {
    if IsDigits(token) then Some(ParseNat(token) as int)
    else if token != "" && token[0] == '-' && IsDigits(token[1..]) then Some(0 - (ParseNat(token[1..]) as int))
    else if token != "" && token[0] == '+' && IsDigits(token[1..]) then Some(ParseNat(token[1..]) as int)
    else None
  }

  /** `token.lstrip("-")`. */
  function StripDashes(token: string): string {
    if token != "" && token[0] == '-' then StripDashes(token[1..]) else token
  }

  /** The list position a Python index names; None is its IndexError. */
  function Position(len: nat, i: int): (k: Option<nat>)
    ensures k.Some? ==> k.value < len
  {
    if 0 <= i < len then Some(i) else if 0 <= len + i < len then Some(len + i) else None
  }

  /** `ptr_get` on split tokens; Missing is the default and Raised an escaping exception. */
  function PtrGet(doc: Json, tokens: seq<string>): Lookup {
    if tokens == [] then Found(doc)
    else match doc
      case Arr(items) =>
        if !IsDigits(StripDashes(tokens[0])) then Missing
        else (match PyInt(tokens[0])
              case None => Raised
              case Some(i) =>
                if i >= |items| then Missing
                else match Position(|items|, i)
                     case None => Raised
                     case Some(k) => PtrGet(items[k], tokens[1..]))
      case Obj(fields) => if tokens[0] in fields then PtrGet(fields[tokens[0]], tokens[1..]) else Missing
      case _ => Missing
  }

  /** `_resolve` of plan_runner: the same walk, tolerant of everything. */
  function Resolve(doc: Json, tokens: seq<string>): Json {
    if tokens == [] then doc
    else match doc
      case Arr(items) =>
        if IsDigits(tokens[0]) && ParseNat(tokens[0]) < |items|
        then Resolve(items[ParseNat(tokens[0])], tokens[1..]) else Null
      case Obj(fields) => if tokens[0] in fields then Resolve(fields[tokens[0]], tokens[1..]) else Null
      case _ => Null
  }

  /** `_resolve` splits leniently: leading slashes go, and an empty token is skipped. */
  function LenientTokens(pointer: string): seq<string> {
    if pointer != "" && pointer[0] == '/' then LenientTokens(pointer[1..])
    else UnescapeAll(WithoutEmpty(Split(pointer, '/')))
  }

  function WithoutEmpty(parts: seq<string>): (out: seq<string>)
    ensures "" !in out
  {
    if parts == [] then []
    else (if parts[0] == "" then [] else [parts[0]]) + WithoutEmpty(parts[1..])
  }

  /** The path exists in the document and spells every list index canonically. */
  predicate Resolves(doc: Json, tokens: seq<string>) {
    tokens == [] ||
    match doc
    case Arr(items) =>
      Canonical(tokens[0]) && ParseNat(tokens[0]) < |items| && Resolves(items[ParseNat(tokens[0])], tokens[1..])
    case Obj(fields) => tokens[0] in fields && Resolves(fields[tokens[0]], tokens[1..])
    case _ => false
  }

  function ValueAt(doc: Json, tokens: seq<string>): Json
    requires Resolves(doc, tokens)
  {
    if tokens == [] then doc
    else match doc
      case Arr(items) => ValueAt(items[ParseNat(tokens[0])], tokens[1..])
      case Obj(fields) => ValueAt(fields[tokens[0]], tokens[1..])
  }

  lemma DigitsHaveNoDash(token: string)
    requires IsDigits(token)
    ensures StripDashes(token) == token
  {
  }

  /** On a canonical path the strict and the tolerant reader agree. */
  lemma {:induction false} ReadersAgree(doc: Json, tokens: seq<string>)
    requires Resolves(doc, tokens)
    ensures PtrGet(doc, tokens) == Found(ValueAt(doc, tokens))
    ensures Resolve(doc, tokens) == ValueAt(doc, tokens)
  {
    if tokens != [] {
      match doc
      case Arr(items) =>
        DigitsHaveNoDash(tokens[0]);
        ReadersAgree(items[ParseNat(tokens[0])], tokens[1..]);
      case Obj(fields) => ReadersAgree(fields[tokens[0]], tokens[1..]);
    }
  }

  /* ------------------------------------------------------------ patching */

  datatype Op = Replace | Add

  datatype Outcome = Ok(doc: Json) | Failed

  /** `list.insert(i, v)`, with Python's clamping. */
  function InsertAt(items: seq<Json>, i: int, value: Json): seq<Json> {
    var at := if i < 0 then (if i + |items| < 0 then 0 else i + |items|) else if i > |items| then |items| else i;
    items[..at] + [value] + items[at..]
  }

  function ApplyLast(container: Json, last: string, value: Json, op: Op): Outcome {
    match container
    case Arr(items) =>
      if last == "-" then Ok(Arr(items + [value]))
      else (match PyInt(last)
            case None => Failed
            case Some(i) =>
              if op == Add then Ok(Arr(InsertAt(items, i, value)))
              else match Position(|items|, i)
                   case None => Failed
                   case Some(k) => Ok(Arr(items[k := value])))
    case Obj(fields) => Ok(Obj(fields[last := value]))
    case _ => Failed
  }

  /** `ptr_apply` on split tokens: the patched document, or Failed where the code raises. */
  function PtrApply(doc: Json, tokens: seq<string>, value: Json, op: Op): Outcome {
    if tokens == [] then Failed
    else if |tokens| == 1 then ApplyLast(doc, tokens[0], value, op)
    else match doc
      case Arr(items) =>
        (match PyInt(tokens[0])
         case None => Failed
         case Some(i) =>
           match Position(|items|, i)
           case None => Failed
           case Some(k) =>
             match PtrApply(items[k], tokens[1..], value, op)
             case Failed => Failed
             case Ok(child) => Ok(Arr(items[k := child])))
      case Obj(fields) =>
        if tokens[0] !in fields then Failed
        else (match PtrApply(fields[tokens[0]], tokens[1..], value, op)
              case Failed => Failed
              case Ok(child) => Ok(Obj(fields[tokens[0] := child])))
      case _ => Failed
  }

  /** Neither path runs through the other. */
  predicate Disjoint(p: seq<string>, q: seq<string>) {
    !(p <= q) && !(q <= p)
  }

  /** A replace at a path the document has succeeds, and reads back. */
  lemma {:induction false} ReplaceReadsBack(doc: Json, p: seq<string>, v: Json)
    requires p != [] && Resolves(doc, p)
    ensures PtrApply(doc, p, v, Replace).Ok?
    ensures Resolves(PtrApply(doc, p, v, Replace).doc, p)
    ensures ValueAt(PtrApply(doc, p, v, Replace).doc, p) == v
  {
    if |p| > 1 {
      match doc
      case Arr(items) => ReplaceReadsBack(items[ParseNat(p[0])], p[1..], v);
      case Obj(fields) => ReplaceReadsBack(fields[p[0]], p[1..], v);
    }
  }

  /** A replace leaves every disjoint path, and what it holds, unchanged. */
  lemma {:induction false} ReplaceFrame(doc: Json, p: seq<string>, v: Json, q: seq<string>)
    requires p != [] && Resolves(doc, p) && Resolves(doc, q) && Disjoint(p, q)
    ensures PtrApply(doc, p, v, Replace).Ok?
    ensures Resolves(PtrApply(doc, p, v, Replace).doc, q)
    ensures ValueAt(PtrApply(doc, p, v, Replace).doc, q) == ValueAt(doc, q)
  {
    ReplaceReadsBack(doc, p, v);
    if p[0] == q[0] {
      assert p[1..] <= q[1..] ==> p <= q;
      assert q[1..] <= p[1..] ==> q <= p;
      match doc
      case Arr(items) => ReplaceFrame(items[ParseNat(p[0])], p[1..], v, q[1..]);
      case Obj(fields) => ReplaceFrame(fields[p[0]], p[1..], v, q[1..]);
    }
  }

  function ReplaceBelow(child: Json, rest: seq<string>, v: Json): Outcome {
    if rest == [] then Ok(v) else PtrApply(child, rest, v, Replace)
  }

  lemma ReplaceInArr(items: seq<Json>, p: seq<string>, v: Json)
    requires p != [] && Canonical(p[0]) && ParseNat(p[0]) < |items|
    ensures var i := ParseNat(p[0]); var below := ReplaceBelow(items[i], p[1..], v);
            PtrApply(Arr(items), p, v, Replace) == if below.Ok? then Ok(Arr(items[i := below.doc])) else Failed
  {
    assert PyInt(p[0]) == Some(ParseNat(p[0]));
  }

  lemma ReplaceInObj(fields: map<string, Json>, p: seq<string>, v: Json)
    requires p != [] && p[0] in fields
    ensures var below := ReplaceBelow(fields[p[0]], p[1..], v);
            PtrApply(Obj(fields), p, v, Replace) == if below.Ok? then Ok(Obj(fields[p[0] := below.doc])) else Failed
  {
  }

  lemma ReplacesApartCommute(doc: Json, p: seq<string>, v: Json, q: seq<string>, w: Json)
    requires p != [] && q != [] && p[0] != q[0] && Resolves(doc, p) && Resolves(doc, q)
    requires PtrApply(doc, p, v, Replace).Ok? && PtrApply(doc, q, w, Replace).Ok?
    ensures PtrApply(PtrApply(doc, p, v, Replace).doc, q, w, Replace) ==
            PtrApply(PtrApply(doc, q, w, Replace).doc, p, v, Replace)
  {
    hide PtrApply, ReplaceBelow, ParseNat;
    match doc
    case Arr(items) =>
      var i, j := ParseNat(p[0]), ParseNat(q[0]);
      assert i != j;
      ReplaceInArr(items, p, v);
      ReplaceInArr(items, q, w);
      var x, y := ReplaceBelow(items[i], p[1..], v).doc, ReplaceBelow(items[j], q[1..], w).doc;
      ReplaceInArr(items[i := x], q, w);
      ReplaceInArr(items[j := y], p, v);
      assert items[i := x][j := y] == items[j := y][i := x];
    case Obj(fields) =>
      ReplaceInObj(fields, p, v);
      ReplaceInObj(fields, q, w);
      var x, y := ReplaceBelow(fields[p[0]], p[1..], v).doc, ReplaceBelow(fields[q[0]], q[1..], w).doc;
      ReplaceInObj(fields[p[0] := x], q, w);
      ReplaceInObj(fields[q[0] := y], p, v);
      assert fields[p[0] := x][q[0] := y] == fields[q[0] := y][p[0] := x];
  }

  /** Replaces at disjoint paths commute. */
  lemma {:induction false} ReplacesCommute(doc: Json, p: seq<string>, v: Json, q: seq<string>, w: Json)
    requires p != [] && q != [] && Resolves(doc, p) && Resolves(doc, q) && Disjoint(p, q)
    ensures PtrApply(doc, p, v, Replace).Ok? && PtrApply(doc, q, w, Replace).Ok?
    ensures PtrApply(PtrApply(doc, p, v, Replace).doc, q, w, Replace).Ok?
    ensures PtrApply(PtrApply(doc, p, v, Replace).doc, q, w, Replace) ==
            PtrApply(PtrApply(doc, q, w, Replace).doc, p, v, Replace)
    decreases doc, 1
  {
    hide PtrApply;
    ReplaceReadsBack(doc, p, v);
    ReplaceReadsBack(doc, q, w);
    ReplaceFrame(doc, p, v, q);
    ReplaceReadsBack(PtrApply(doc, p, v, Replace).doc, q, w);
    if p[0] != q[0] {
      ReplacesApartCommute(doc, p, v, q, w);
    } else {
      assert p[1..] <= q[1..] ==> p <= q;
      assert q[1..] <= p[1..] ==> q <= p;
      ReplacesTogetherCommute(doc, p, v, q, w);
    }
  }

  lemma {:induction false} ReplacesTogetherCommute(doc: Json, p: seq<string>, v: Json, q: seq<string>, w: Json)
    requires p != [] && q != [] && p[0] == q[0] && Resolves(doc, p) && Resolves(doc, q) && Disjoint(p[1..], q[1..])
    requires PtrApply(doc, p, v, Replace).Ok? && PtrApply(doc, q, w, Replace).Ok?
    ensures PtrApply(PtrApply(doc, p, v, Replace).doc, q, w, Replace) ==
            PtrApply(PtrApply(doc, q, w, Replace).doc, p, v, Replace)
    decreases doc, 0
  {
    hide PtrApply, ParseNat;
    match doc
    case Arr(items) =>
      var i := ParseNat(p[0]);
      ReplacesCommute(items[i], p[1..], v, q[1..], w);
      ReplaceInArr(items, p, v);
      ReplaceInArr(items, q, w);
      var x, y := PtrApply(items[i], p[1..], v, Replace).doc, PtrApply(items[i], q[1..], w, Replace).doc;
      ReplaceInArr(items[i := x], q, w);
      ReplaceInArr(items[i := y], p, v);
      var z := PtrApply(x, q[1..], w, Replace).doc;
      assert items[i := x][i := z] == items[i := y][i := z];
    case Obj(fields) =>
      ReplacesCommute(fields[p[0]], p[1..], v, q[1..], w);
      ReplaceInObj(fields, p, v);
      ReplaceInObj(fields, q, w);
      var x, y := PtrApply(fields[p[0]], p[1..], v, Replace).doc, PtrApply(fields[p[0]], q[1..], w, Replace).doc;
      ReplaceInObj(fields[p[0] := x], q, w);
      ReplaceInObj(fields[p[0] := y], p, v);
      var z := PtrApply(x, q[1..], w, Replace).doc;
      assert fields[p[0] := x][p[0] := z] == fields[p[0] := y][p[0] := z];
  }

  /** An append renumbers nothing: every path the document had still names the same element, unless it
      leads to the array that grew. */
  lemma {:induction false} AppendKeepsNames(doc: Json, path: seq<string>, v: Json, op: Op, q: seq<string>)
    requires Resolves(doc, path) && ValueAt(doc, path).Arr? && Resolves(doc, q)
    ensures PtrApply(doc, path + ["-"], v, op).Ok?
    ensures Resolves(PtrApply(doc, path + ["-"], v, op).doc, q)
    ensures !(q <= path) ==> ValueAt(PtrApply(doc, path + ["-"], v, op).doc, q) == ValueAt(doc, q)
  {
    if path == [] {
    } else {
      var tokens := path + ["-"];
      assert tokens[1..] == path[1..] + ["-"];
      match doc
      case Arr(items) =>
        var q' := if q != [] && q[0] == path[0] then q[1..] else [];
        AppendKeepsNames(items[ParseNat(path[0])], path[1..], v, op, q');
        assert q != [] && q[0] == path[0] && q[1..] <= path[1..] ==> q <= path;
      case Obj(fields) =>
        var q' := if q != [] && q[0] == path[0] then q[1..] else [];
        AppendKeepsNames(fields[path[0]], path[1..], v, op, q');
        assert q != [] && q[0] == path[0] && q[1..] <= path[1..] ==> q <= path;
    }
  }

  /** The appended value sits one past the old end, and the array held there only grew. */
  lemma {:induction false} AppendLandsAtEnd(doc: Json, path: seq<string>, v: Json, op: Op)
    requires Resolves(doc, path) && ValueAt(doc, path).Arr?
    ensures PtrApply(doc, path + ["-"], v, op).Ok?
    ensures Resolves(PtrApply(doc, path + ["-"], v, op).doc, path)
    ensures ValueAt(PtrApply(doc, path + ["-"], v, op).doc, path) == Arr(ValueAt(doc, path).items + [v])
  {
    if path != [] {
      var tokens := path + ["-"];
      assert tokens[1..] == path[1..] + ["-"];
      match doc
      case Arr(items) => AppendLandsAtEnd(items[ParseNat(path[0])], path[1..], v, op);
      case Obj(fields) => AppendLandsAtEnd(fields[path[0]], path[1..], v, op);
    }
  }

  /** An `add` that names an index does renumber: the element that was at that index moves up. */
  lemma InsertRenumbers(items: seq<Json>, k: nat, v: Json)
    requires k < |items|
    ensures PtrApply(Arr(items), [NatToStr(k)], v, Add).Ok?
    ensures var after := PtrApply(Arr(items), [NatToStr(k)], v, Add).doc;
            after.Arr? && |after.items| == |items| + 1 && after.items[k] == v && after.items[k + 1] == items[k]
  {
    ParsePrinted(k);
  }
}
