/**
 JSON values, as the system exchanges them with providers and stores them.
 */
module JsonValues {
  /** A JSON number as serde keeps it: non-negative, negative, or a finite float. */
  datatype Number = PosInt(u: nat) | NegInt(i: int) | Float(f: real)

  datatype Json =
    | Null
    | Bool(b: bool)
    | Num(n: Number)
    | Str(s: string)
    | Arr(items: seq<Json>)
    | Obj(fields: map<string, Json>)

  const MAX_U64 := 0xFFFF_FFFF_FFFF_FFFF
  const MIN_I64 := -0x8000_0000_0000_0000

  predicate NumberOk(n: Number) {
    match n
    case PosInt(u) => u <= MAX_U64
    case NegInt(i) => MIN_I64 <= i < 0
    case Float(_) => true
  }

  predicate JsonOk(v: Json) {
    match v
    case Num(n) => NumberOk(n)
    case Arr(items) => forall x :: x in items ==> JsonOk(x)
    case Obj(fields) => forall k :: k in fields ==> JsonOk(fields[k])
    case _ => true
  }
}
