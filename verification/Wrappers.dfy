/** An optional value, as the source's "(value, ok)" pairs and nil errors. */
module Wrappers {
  datatype Option<+T> = None | Some(value: T)

  /** A value, or the error in its place. */
  datatype Result<+T, +E> = Ok(value: T) | Err(error: E)

  function Min(a: int, b: int): int {
    if a <= b then a else b
  }

  lemma Associate<T>(a: seq<T>, b: seq<T>, c: seq<T>)
    ensures (a + b) + c == a + (b + c)
  {
  }

  lemma InitAndLast<T>(ws: seq<T>)
    requires ws != []
    ensures ws[..|ws| - 1] + [ws[|ws| - 1]] == ws
  {
  }
}
