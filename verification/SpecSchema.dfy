/** The spec's own schema (spec/feature_spec.schema.json), keyword by keyword, and what it cannot see: that a list holds an
    element more than once. */
module SpecSchema {
  import opened Wrappers
  import opened Json

  datatype Kind = IsText | IsInteger | IsList | IsObject

  /** The keywords the schema uses: `type`, `enum` (of strings), `required`, `properties`, `additionalProperties: false`
      and `items`. */
  datatype Schema = Schema(kind: Option<Kind>, choices: Option<set<string>>, required: set<string>,
                           properties: map<string, Schema>, closed: bool, items: Option<Schema>)

  predicate IsKind(kind: Kind, j: Json) {
    match kind
    case IsText => j.Str?
    case IsInteger => j.Num? && j.n == j.n.Floor as real
    case IsList => j.Arr?
    case IsObject => j.Obj?
  }

  /** The validator finds nothing wrong. */
  predicate Meets(s: Schema, j: Json)
    decreases j
  {
    && (s.kind.Some? ==> IsKind(s.kind.value, j))
    && (s.choices.Some? ==> j.Str? && j.s in s.choices.value)
    && (j.Obj? ==>
          && s.required <= j.fields.Keys
          && (s.closed ==> j.fields.Keys <= s.properties.Keys)
          && forall k :: k in j.fields && k in s.properties ==> Meets(s.properties[k], j.fields[k]))
    && (j.Arr? && s.items.Some? ==> forall i :: 0 <= i < |j.items| ==> Meets(s.items.value, j.items[i]))
  }

  /** Every whole number is an integer, and nothing between two of them. */
  lemma IntegersAre(n: int, x: real)
    ensures x == n as real ==> IsKind(IsInteger, Num(x))
    ensures n as real < x < (n + 1) as real ==> !IsKind(IsInteger, Num(x))
  {
    if n as real < x < (n + 1) as real {
      assert x.Floor == n;
    }
  }

  /** An object has every required field, a closed one no other than its schema names, and what they hold meets theirs. */
  lemma ObjectMeetsIff(s: Schema, fields: map<string, Json>)
    ensures Meets(s, Obj(fields)) <==>
              && (s.kind == None || s.kind == Some(IsObject)) && s.choices == None
              && (forall k :: k in s.required ==> k in fields)
              && (forall k :: k in fields ==> if k in s.properties then Meets(s.properties[k], fields[k]) else !s.closed)
  {
    assert s.kind.Some? ==> (IsKind(s.kind.value, Obj(fields)) <==> s.kind.value == IsObject);
  }

  /** `b` is `a` with elements repeated at the ends of lists. */
  predicate Repeats(a: Json, b: Json) {
    match a
    case Arr(items) =>
      b.Arr? && |items| <= |b.items| && (forall i :: 0 <= i < |items| ==> Repeats(items[i], b.items[i])) &&
      forall i :: |items| <= i < |b.items| ==> b.items[i] in b.items[..|items|]
    case Obj(fields) =>
      b.Obj? && b.fields.Keys == fields.Keys && forall k :: k in fields ==> Repeats(fields[k], b.fields[k])
    case _ => b == a
  }

  /** Finding nothing wrong with a document, it finds nothing wrong with one that repeats some of its elements. */
  ghost predicate IgnoresRepeats(errors: Json -> nat) {
    forall a, b :: Repeats(a, b) && errors(a) == 0 ==> errors(b) == 0
  }

  lemma {:induction false} RepeatsSelf(a: Json)
    ensures Repeats(a, a)
  {
    match a
    case Arr(items) => forall i | 0 <= i < |items| ensures Repeats(items[i], items[i]) { RepeatsSelf(items[i]); }
    case Obj(fields) => forall k | k in fields ensures Repeats(fields[k], fields[k]) { RepeatsSelf(fields[k]); }
    case _ =>
  }

  lemma {:induction false} RepeatsMeet(s: Schema, a: Json, b: Json)
    requires Repeats(a, b) && Meets(s, a)
    ensures Meets(s, b)
    decreases a
  {
    match a
    case Arr(items) =>
      if s.items.Some? {
        forall i | 0 <= i < |b.items|
          ensures Meets(s.items.value, b.items[i])
        {
          if i < |items| {
            RepeatsMeet(s.items.value, items[i], b.items[i]);
          } else {
            var j :| 0 <= j < |items| && b.items[..|items|][j] == b.items[i];
            RepeatsMeet(s.items.value, items[j], b.items[j]);
          }
        }
      }
    case Obj(fields) =>
      forall k | k in b.fields && k in s.properties
        ensures Meets(s.properties[k], b.fields[k])
      {
        RepeatsMeet(s.properties[k], fields[k], b.fields[k]);
      }
    case _ =>
  }

  /** So does every schema written in these keywords. */
  lemma SchemaIgnoresRepeats(s: Schema, errors: Json -> nat)
    requires forall doc :: errors(doc) == 0 <==> Meets(s, doc)
    ensures IgnoresRepeats(errors)
  {
    forall a, b | Repeats(a, b) && errors(a) == 0
      ensures errors(b) == 0
    {
      RepeatsMeet(s, a, b);
    }
  }
}
