/** The JSON document model the evaluator consumes (serde_json's `Value`). */
module Values {

  /** serde_json's number: a non-negative integer, a negative integer, or a float.
      serde_json keeps `PosInt` within 64 unsigned bits and `NegInt` always below zero
      (within 64 signed bits); the model does not enforce either bound, so it also admits
      values such as `NegInt(0)` that no serde_json document holds.
      Two numbers are equal only when they have the same variant and the same value,
      so the float 12.0 differs from the integer 12. A float is represented by the
      exact decimal value it was written with; rounding to binary64 is not modelled. */
  datatype Number = PosInt(u: nat) | NegInt(i: int) | Float(f: real)

  /** A JSON value; equality is structural. */
  datatype Json =
    | Null
    | Bool(b: bool)
    | Num(n: Number)
    | Str(s: string)
    | Arr(elems: seq<Json>)
    | Obj(members: map<string, Json>)

  /** `value[key]` for a `&str` index: the member of an object, and Null for a missing
      member or for any value that is not an object. */
  function Get(v: Json, key: string): (r: Json)
    ensures r != Null ==> v.Obj? && key in v.members && r == v.members[key]
    ensures v.Obj? && key in v.members ==> r == v.members[key]
  {
    if v.Obj? && key in v.members then v.members[key] else Null
  }
}
