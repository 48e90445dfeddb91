/** Value types shared by every part of the betting engine. */
module Common {

  /** Match dates are ordered keys. The source formats them as YYYY-MM-DD
      strings, whose string order is the calendar order. */
  type Date = int

  /** Teams are identified by name. */
  type Team = string

  /** A value that may be absent (a missing score cell, no matching row). */
  datatype Option<T> = None | Some(value: T)

  /** No team (or season) occurs twice in `ts`. */
  predicate Distinct<T(==)>(ts: seq<T>)
  {
    forall i, j :: 0 <= i < j < |ts| ==> ts[i] != ts[j]
  }
}
