/** JSON values as `serde_json` holds them. */
module Json {

  const I64_MIN: int := -0x8000_0000_0000_0000
  const I64_MAX: int := 0x7fff_ffff_ffff_ffff
  const U64_MAX: int := 0xffff_ffff_ffff_ffff

  type I64 = i: int | I64_MIN <= i <= I64_MAX
  type U64 = u: int | 0 <= u <= U64_MAX
  type NegativeI64 = i: int | I64_MIN <= i < 0 witness -1

  /** A double is only moved around, never computed with, so a finite one is
      identified by its bit pattern. */
  datatype Double = Finite(bits: U64) | NotFinite

  /** `serde_json` keeps non-negative and negative integers and finite doubles apart. */
  datatype Number = PosInt(u: U64) | NegInt(i: NegativeI64) | Float(bits: U64)

  datatype Value =
    | Null
    | Bool(b: bool)
    | Num(n: Number)
    | String(s: string)
    | Array(items: seq<Value>)
    | Object(entries: map<string, Value>)
}
