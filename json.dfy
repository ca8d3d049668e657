/** The part of JSON the session pool's answers are read through. */
module Json {
  /** A JSON value that is not an object (floats and arrays are not modelled). */
  datatype Scalar = Null | Bool(b: bool) | Number(n: int) | Text(s: string)

  /** `dict.get(key)`: the value under `key`, or `None` when it is missing. */
  function Get(fields: map<string, Scalar>, key: string): (v: Scalar)
    ensures key !in fields ==> v == Null
    ensures key in fields ==> v == fields[key]
  {
    if key in fields then fields[key] else Null
  }
}
