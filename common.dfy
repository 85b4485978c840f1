/** Values shared by the address codec and the address cache: bytes, and the
    optional and fallible results the Go code expresses with `(v, ok)` pairs
    and `err` returns. */
module Common {

  /** One octet. Go strings are immutable byte strings, so both the wire token
      and the destination address are sequences of these. */
  newtype byte = x: int | 0 <= x < 256

  type Bytes = seq<byte>

  datatype Option<+T> = None | Some(value: T)

  datatype Result<+R, +E> = Ok(value: R) | Err(error: E)
}
