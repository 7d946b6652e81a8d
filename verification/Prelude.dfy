/** Types shared by the modules of this project. */
module Prelude {

  datatype Option<+T> = None | Some(value: T)

  type Byte = x: int | 0 <= x < 256

  type Bytes = seq<Byte>

  /** A JavaScript number, without rounding. */
  datatype Number = Finite(value: real) | NaN | PlusInfinity | MinusInfinity

  /** An untyped value, as it comes from the network or from a file. */
  datatype Json = JNull | JBool(b: bool) | JNum(r: real) | JStr(s: string) | JArr(a: seq<Json>)
      | JObj(o: map<string, Json>)

  /** Property access on an untyped value: only objects have own properties. */
  function Property(j: Json, key: string): Option<Json> {
    if j.JObj? && key in j.o then Some(j.o[key]) else None
  }
}
