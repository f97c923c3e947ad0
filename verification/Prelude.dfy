/** Result and option types shared by every module. */
module Prelude {
  datatype Option<+T> = None | Some(value: T)

  datatype Result<+T, +E> = Ok(value: T) | Err(error: E)

  /** The integers a, a+1, ..., b-1 in order. */
  function Range(a: int, b: int): (r: seq<int>)
    requires a <= b
  {
    seq(b - a, i => a + i)
  }
}
