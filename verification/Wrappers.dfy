/** Result types and a sequence constructor shared by the components. */
module Wrappers {

  datatype Option<+T> = None | Some(value: T)

  datatype Result<+T, +E> = Ok(value: T) | Err(error: E)

  function Cons<T>(x: T, rest: seq<T>): (r: seq<T>)
    ensures |r| == |rest| + 1 && r[0] == x && r[1..] == rest
  {
    [x] + rest
  }
}
