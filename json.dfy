/** Documents as pydantic's `model_dump(mode="json")` produces them and as
    DynamoDB stores them: `Decimal` is the number type DynamoDB accepts for
    non-integers, a float is what Python hands it unless converted. */
module Json {
  datatype Json =
    | Null
    | Bool(b: bool)
    | Int(i: int)
    | Float(x: real)
    | Decimal(d: real)
    | Str(s: string)
    | List(items: seq<Json>)
    | Dict(entries: map<string, Json>)

  /** No float anywhere in the document. */
  predicate NoFloat(j: Json)
  {
    match j
    case Float(_) => false
    case List(items) => forall i :: 0 <= i < |items| ==> NoFloat(items[i])
    case Dict(entries) => forall k :: k in entries ==> NoFloat(entries[k])
    case _ => true
  }

  /** `_convert_floats_to_decimal`: every float becomes the decimal of its
      `str()` (the same value here, since numbers are exact), dictionaries and
      lists are rebuilt with their elements converted, anything else is
      returned as it is. */
  function Convert(j: Json): (r: Json)
    ensures NoFloat(r)
    ensures j.Float? ==> r == Decimal(j.x)
    ensures j.Dict? ==> r.Dict? && r.entries.Keys == j.entries.Keys
    ensures j.List? ==> r.List? && |r.items| == |j.items|
    ensures !j.Float? && !j.Dict? && !j.List? ==> r == j
  {
    match j
    case Float(x) => Decimal(x)
    case Dict(entries) =>
      Dict(map k | k in entries :: Convert(entries[k]))
    case List(items) =>
      List(seq(|items|, i requires 0 <= i < |items| => Convert(items[i])))
    case _ => j
  }

  /** Conversion goes element by element: a list keeps its order, a
      dictionary its keys. */
  lemma ConvertElements(j: Json)
    ensures j.List? ==> forall i :: 0 <= i < |j.items| ==> Convert(j).items[i] == Convert(j.items[i])
    ensures j.Dict? ==> forall k :: k in j.entries ==> Convert(j).entries[k] == Convert(j.entries[k])
  {
  }

  /** A float-free document is left unchanged. */
  lemma {:induction false} ConvertFixed(j: Json)
    requires NoFloat(j)
    ensures Convert(j) == j
  {
    match j
    case Dict(entries) =>
      forall k | k in entries
        ensures Convert(entries[k]) == entries[k]
      {
        ConvertFixed(entries[k]);
      }
      assert (map k | k in entries :: Convert(entries[k])) == entries;
    case List(items) =>
      forall i | 0 <= i < |items|
        ensures Convert(items[i]) == items[i]
      {
        ConvertFixed(items[i]);
      }
      assert seq(|items|, i requires 0 <= i < |items| => Convert(items[i])) == items;
    case _ =>
  }

  /** Converting twice is converting once. */
  lemma ConvertIdempotent(j: Json)
    ensures Convert(Convert(j)) == Convert(j)
  {
    ConvertFixed(Convert(j));
  }
}
