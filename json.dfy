/** JSON values as the scripts read and write them, one record per JSONL line. */
module Json {
  import opened Wrappers

  datatype Value =
    | Null
    | Bool(b: bool)
    | Num(r: real)
    | Str(s: string)
    | Composite   // a list or an object; its contents play no part here

  /** One decoded JSONL line: a JSON object. */
  type Record = map<string, Value>

  /** `rec.get(key, 0)` read as a number, with Python's `bool` counting as 0 or 1. */
  function NumberOr0(rec: Record, key: string): (r: Option<real>)
    ensures key !in rec ==> r == Some(0.0)
    ensures key in rec && rec[key].Num? ==> r == Some(rec[key].r)
    ensures key in rec && rec[key].Bool? ==> r == Some(if rec[key].b then 1.0 else 0.0)
    ensures key in rec && (rec[key].Str? || rec[key].Null? || rec[key].Composite?) ==> r == None
  {
    if key !in rec then Some(0.0)
    else match rec[key]
      case Num(x) => Some(x)
      case Bool(b) => Some(if b then 1.0 else 0.0)
      case _ => None
  }
}
