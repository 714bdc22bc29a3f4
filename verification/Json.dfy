/** JSON documents as the loop's Python code sees them after `json.loads`. Numbers are compared by value,
    so they are reals; an object's key order plays no part in equality. */
module Json {
  datatype Json =
    | Null
    | Bool(b: bool)
    | Num(n: real)
    | Str(s: string)
    | Arr(items: seq<Json>)
    | Obj(fields: map<string, Json>)

  /** `doc.get(key)`: Null stands for Python's None, absent or explicit. */
  function Get(doc: Json, key: string): Json {
    if doc.Obj? && key in doc.fields then doc.fields[key] else Null
  }

  predicate Has(doc: Json, key: string) {
    doc.Obj? && key in doc.fields
  }

  /** `doc.get(key) or []`, for a field whose schema type is an array. */
  function Items(doc: Json, key: string): seq<Json> {
    var v := Get(doc, key);
    if v.Arr? then v.items else []
  }

  /** Python's truth value of a document. */
  predicate Truthy(j: Json) {
    match j
    case Null => false
    case Bool(b) => b
    case Num(n) => n != 0.0
    case Str(s) => s != ""
    case Arr(items) => items != []
    case Obj(fields) => fields != map[]
  }

  /** `j or 0`. */
  function OrZero(j: Json): Json {
    if Truthy(j) then j else Num(0.0)
  }

  /** An object's field is what was stored under its key; a list field's elements are the list's. */
  lemma FieldReads(fields: map<string, Json>, key: string, v: Json)
    ensures Get(Obj(fields[key := v]), key) == v && Has(Obj(fields[key := v]), key)
    ensures Items(Obj(fields[key := v]), key) == if v.Arr? then v.items else []
    ensures key !in fields ==> Get(Obj(fields), key) == Null && !Has(Obj(fields), key) && Items(Obj(fields), key) == []
  {
  }

  lemma OnlyObjectsHaveFields(doc: Json, key: string)
    ensures !doc.Obj? ==> Get(doc, key) == Null && !Has(doc, key) && Items(doc, key) == []
  {
  }

  /** The six falsy documents. */
  lemma FalsyIff(j: Json)
    ensures !Truthy(j) <==> j in {Null, Bool(false), Num(0.0), Str(""), Arr([]), Obj(map[])}
    ensures OrZero(j) == if j in {Null, Bool(false), Num(0.0), Str(""), Arr([]), Obj(map[])} then Num(0.0) else j
  {
  }
}
