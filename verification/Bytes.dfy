/** The octets that every wire format of the library is made of, and the
    failure-carrying result type its error codes and exceptions become. */
module Bytes {

  /** uint8_t */
  type byte = x: int | 0 <= x < 256

  type uint32 = x: int | 0 <= x < 0x1_0000_0000

  datatype Option<+T> = None | Some(value: T)

  datatype Result<+T, +E> = Ok(value: T) | Err(error: E)
}
