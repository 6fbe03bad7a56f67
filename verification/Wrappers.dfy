/** Nullable values and results that carry an error message. */
module Wrappers {

  /** A possibly-missing table cell (a pandas NaN / Python None is `None`). */
  datatype Option<+T> = None | Some(value: T)

  /** The outcome of an operation that may raise: `Failure` carries the
      exception's message. */
  datatype Result<+R, +E> = Success(value: R) | Failure(error: E)

  /** The present values among the cells, in order (`dropna()`). */
  function Somes<T(!new)>(cells: seq<Option<T>>): (r: seq<T>)
    ensures forall t :: t in r <==> Some(t) in cells
  {
    if |cells| == 0 then []
    else
      var rest := Somes(cells[1..]);
      assert cells == [cells[0]] + cells[1..];
      if cells[0].Some? then [cells[0].value] + rest else rest
  }
}
