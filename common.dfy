/** Small definitions shared by every module of the model. */
module Common {

  /** A value that may be absent: Python's `None` versus a present value. */
  datatype Option<T> = None | Some(value: T)

  /** The outcome of an operation that either returns a value or raises. */
  datatype Result<T, E> = Ok(value: T) | Err(error: E)

  /** Python's `abs` on a number. */
  function Abs(x: real): (r: real)
    ensures r >= 0.0 && (r == x || r == -x)
  {
    if x < 0.0 then -x else x
  }

  /**
   * Some element of a non-empty set. The loops that use it walk either the
   * rows of a stock query without ORDER BY, whose order the database does
   * not fix, or the years of one stock, where each year's entry depends on
   * that year alone; either way the result does not depend on the order.
   */
  method Pick<T>(s: set<T>) returns (x: T)
    requires s != {}
    ensures x in s
  {
    x :| x in s;
  }
}
