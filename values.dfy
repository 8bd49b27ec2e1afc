/** Loosely-typed values of the provider's JSON responses, and the
    Python-level behaviour the normaliser relies on when it iterates,
    subscripts and compares them. */
module Values {

  datatype Option<T> = None | Some(value: T)

  /** A decoded JSON value: `null`, booleans, integers, other numbers,
      strings, arrays and objects. */
  datatype Value =
    | Null
    | Bool(b: bool)
    | Int(i: int)
    | Num(r: real)
    | Str(s: string)
    | List(items: seq<Value>)
    | Obj(fields: map<string, Value>)

  /** A record is a JSON object: field name to value. */
  type Record = map<string, Value>

  /** The exception a step of the pipeline raises. `ValidationError` is
      pydantic's aggregated error; it lists the failing fields in
      declaration order. */
  datatype Exc =
    | AttributeError
    | IndexError
    | ValueError
    | TypeError
    | KeyError(key: string)
    | ValidationError(fields: seq<string>)

  datatype Result<T> = Ok(value: T) | Err(error: Exc)

  function Lookup(r: Record, k: string): (v: Option<Value>)
    ensures v.Some? <==> k in r
    ensures v.Some? ==> v.value == r[k]
  {
    if k in r then Some(r[k]) else None
  }

  /** `v == 1` in Python: `True` and `1.0` compare equal to `1`. */
  predicate EqualsOne(v: Value) {
    v == Int(1) || v == Num(1.0) || v == Bool(true)
  }

  /** The elements a Python `for` loop visits when it iterates `v`: the
      items of an array, the one-character strings of a string. Iterating
      `null` or a number raises TypeError. Iterating a non-empty object
      visits its keys, which are strings, and every caller in this model
      subscripts each visited element with a string, which raises
      TypeError on a string; the model raises that TypeError at once. */
  function Items(v: Value): (r: Result<seq<Value>>)
    ensures v.List? ==> r == Ok(v.items)
    ensures v.Str? ==> r.Ok? && |r.value| == |v.s|
                       && forall i :: 0 <= i < |v.s| ==> r.value[i] == Str([v.s[i]])
    ensures v.Obj? ==> (r.Ok? <==> v.fields == map[]) && (r.Ok? ==> r.value == [])
    ensures (v.Null? || v.Bool? || v.Int? || v.Num?) ==> r == Err(TypeError)
  {
    match v
    case List(xs) => Ok(xs)
    case Str(s) => Ok(seq(|s|, i requires 0 <= i < |s| => Str([s[i]])))
    case Obj(m) => if m == map[] then Ok([]) else Err(TypeError)
    case _ => Err(TypeError)
  }

  /** `v[key]` for a string key: a missing key raises KeyError, and
      subscripting anything but an object with a string raises TypeError. */
  function Subscript(v: Value, key: string): (r: Result<Value>)
    ensures r.Ok? <==> v.Obj? && key in v.fields
    ensures r.Ok? ==> r.value == v.fields[key]
    ensures v.Obj? && key !in v.fields ==> r == Err(KeyError(key))
    ensures !v.Obj? ==> r == Err(TypeError)
  {
    match v
    case Obj(m) => if key in m then Ok(m[key]) else Err(KeyError(key))
    case _ => Err(TypeError)
  }
}
