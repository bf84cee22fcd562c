/** Vocabulary shared by every part of the model: calendar days as integers, nullable columns,
    and error returns. */
module Basics {

  /** A calendar day, counted from an arbitrary origin. */
  type Day = int

  /** A nullable column, or a lookup that can find nothing. */
  datatype Option<+T> = None | Some(value: T) {
    function GetOr(default: T): T {
      match this
      case Some(v) => v
      case None => default
    }
  }

  /** The outcome of a job that can stop with an error before it writes anything. */
  datatype Result<+T, +E> = Ok(value: T) | Err(error: E)

  function Min(a: int, b: int): int {
    if a <= b then a else b
  }

  function Max(a: int, b: int): int {
    if a <= b then b else a
  }

  /** The distinct elements of a sequence. */
  function Elements<T(==)>(s: seq<T>): set<T> {
    set x | x in s
  }

  lemma Witness<T>(s: set<T>) returns (x: T)
    requires s != {}
    ensures x in s
  {
    x :| x in s;
  }

  /** The hours 0, 1, ..., n - 1. */
  function HoursBelow(n: nat): (hours: seq<int>)
    ensures |hours| == n
    ensures forall h | 0 <= h < n :: hours[h] == h
  {
    if n == 0 then [] else HoursBelow(n - 1) + [n - 1]
  }

  /** An inclusive range of days. */
  datatype Range = Range(start: Day, end: Day) {
    predicate Covers(d: Day) {
      start <= d <= end
    }
  }
}
