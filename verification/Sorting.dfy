/** Sorting rows by any comparison, ties in their original order. */
module Sorting {

  function Insert<R>(before: (R, R) -> bool, r: R, sorted: seq<R>): seq<R> {
    if sorted == [] then [r]
    else if before(sorted[0], r) then [sorted[0]] + Insert(before, r, sorted[1..])
    else [r] + sorted
  }

  function Sorted<R>(before: (R, R) -> bool, rows: seq<R>): seq<R> {
    if rows == [] then [] else Insert(before, rows[0], Sorted(before, rows[1..]))
  }

  lemma {:induction false} InsertSame<R>(before: (R, R) -> bool, before': (R, R) -> bool, r: R, sorted: seq<R>)
    requires forall p, q :: before(p, q) == before'(p, q)
    ensures Insert(before, r, sorted) == Insert(before', r, sorted)
  {
    if sorted != [] {
      InsertSame(before, before', r, sorted[1..]);
    }
  }

  /** The order depends on nothing but what the comparison says of two rows. */
  lemma {:induction false} SortedSame<R>(before: (R, R) -> bool, before': (R, R) -> bool, rows: seq<R>)
    requires forall p, q :: before(p, q) == before'(p, q)
    ensures Sorted(before, rows) == Sorted(before', rows)
  {
    if rows != [] {
      SortedSame(before, before', rows[1..]);
      InsertSame(before, before', rows[0], Sorted(before, rows[1..]));
    }
  }
}
