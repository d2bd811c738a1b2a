/** The rows removed by a DELETE that is rewritten to `pk IN (SELECT ...)`. */
module DeleteRows {

  /**
   * A table with its rows and their keys, the joined rows each row meets, and
   * whether a row with one of them satisfies the condition.
   */
  datatype Scene<!R, !K, !J> = Scene(key: R -> K, joined: R -> seq<J>, holds: (R, J) -> bool)

  /** The row has a join partner with which the condition holds. */
  predicate HasPartner<R, K, J>(s: Scene<R, K, J>, r: R) {
    exists i :: 0 <= i < |s.joined(r)| && s.holds(r, s.joined(r)[i])
  }

  /** `SELECT pk FROM ... WHERE ...` over one row: its key once per satisfying partner. */
  function KeysOfRow<R, K, J>(s: Scene<R, K, J>, r: R, partners: seq<J>): seq<K> {
    if partners == [] then []
    else (if s.holds(r, partners[0]) then [s.key(r)] else []) + KeysOfRow(s, r, partners[1..])
  }

  function InnerKeys<R, K, J>(s: Scene<R, K, J>, rows: seq<R>): seq<K> {
    if rows == [] then [] else KeysOfRow(s, rows[0], s.joined(rows[0])) + InnerKeys(s, rows[1..])
  }

  /** The rows a DELETE leaves. */
  function Remaining<R, K(==), J>(s: Scene<R, K, J>, rows: seq<R>, keys: seq<K>): seq<R> {
    if rows == [] then []
    else (if s.key(rows[0]) in keys then [] else [rows[0]]) + Remaining(s, rows[1..], keys)
  }

  /** The keys its RETURNING clause yields, one per removed row. */
  function Returned<R, K(==), J>(s: Scene<R, K, J>, rows: seq<R>, keys: seq<K>): seq<K> {
    if rows == [] then []
    else (if s.key(rows[0]) in keys then [s.key(rows[0])] else []) + Returned(s, rows[1..], keys)
  }

  /** The rows that were to stay: those without a satisfying partner. */
  function Unmatched<R, K, J>(s: Scene<R, K, J>, rows: seq<R>): seq<R> {
    if rows == [] then []
    else (if HasPartner(s, rows[0]) then [] else [rows[0]]) + Unmatched(s, rows[1..])
  }

  lemma {:induction false} KeysOfRowMember<R, K, J>(s: Scene<R, K, J>, r: R, partners: seq<J>, k: K)
    ensures k in KeysOfRow(s, r, partners)
       <==> k == s.key(r) && exists i :: 0 <= i < |partners| && s.holds(r, partners[i])
  {
    if partners != [] {
      KeysOfRowMember(s, r, partners[1..], k);
      if exists i :: 0 <= i < |partners| && s.holds(r, partners[i]) {
        var i :| 0 <= i < |partners| && s.holds(r, partners[i]);
        if i > 0 { assert s.holds(r, partners[1..][i - 1]); }
      }
    }
  }

  /** The inner query yields exactly the keys of rows with a satisfying partner. */
  lemma {:induction false} InnerKeysMember<R, K, J>(s: Scene<R, K, J>, rows: seq<R>, k: K)
    ensures k in InnerKeys(s, rows)
       <==> exists i :: 0 <= i < |rows| && s.key(rows[i]) == k && HasPartner(s, rows[i])
  {
    if rows != [] {
      KeysOfRowMember(s, rows[0], s.joined(rows[0]), k);
      InnerKeysMember(s, rows[1..], k);
      if exists i :: 0 <= i < |rows| && s.key(rows[i]) == k && HasPartner(s, rows[i]) {
        var i :| 0 <= i < |rows| && s.key(rows[i]) == k && HasPartner(s, rows[i]);
        if i > 0 { assert rows[1..][i - 1] == rows[i]; }
      }
      if k in InnerKeys(s, rows[1..]) {
        var i :| 0 <= i < |rows[1..]| && s.key(rows[1..][i]) == k && HasPartner(s, rows[1..][i]);
        assert rows[i + 1] == rows[1..][i];
      }
    }
  }

  /** The given keys single out these rows just as having a partner does. */
  predicate Selects<R, K(==), J>(s: Scene<R, K, J>, rows: seq<R>, keys: seq<K>) {
    forall i :: 0 <= i < |rows| ==> (s.key(rows[i]) in keys <==> HasPartner(s, rows[i]))
  }

  lemma {:induction false} RemainingIff<R, K, J>(s: Scene<R, K, J>, rows: seq<R>, keys: seq<K>)
    requires forall i :: 0 <= i < |rows| && HasPartner(s, rows[i]) ==> s.key(rows[i]) in keys
    ensures |Remaining(s, rows, keys)| <= |Unmatched(s, rows)|
    ensures Remaining(s, rows, keys) == Unmatched(s, rows) <==> Selects(s, rows, keys)
    ensures |Returned(s, rows, keys)| == |rows| - |Remaining(s, rows, keys)|
  {
    if rows != [] {
      var rest := rows[1..];
      assert forall i :: 0 <= i < |rest| ==> rest[i] == rows[i + 1];
      RemainingIff(s, rest, keys);
      assert Selects(s, rows, keys)
          <==> (s.key(rows[0]) in keys <==> HasPartner(s, rows[0])) && Selects(s, rest, keys);
      if s.key(rows[0]) in keys {
        assert Remaining(s, rows, keys) == Remaining(s, rest, keys);
        if HasPartner(s, rows[0]) {
          assert Unmatched(s, rows) == Unmatched(s, rest);
        } else {
          assert |Unmatched(s, rows)| > |Remaining(s, rows, keys)|;
        }
      } else {
        assert Remaining(s, rows, keys)[1..] == Remaining(s, rest, keys);
        assert Unmatched(s, rows)[1..] == Unmatched(s, rest);
      }
    }
  }

  /** Rows that share a key agree on having a partner, as they do when keys are unique. */
  predicate KeysAgree<R, K(==), J>(s: Scene<R, K, J>, rows: seq<R>) {
    forall i, j :: 0 <= i < |rows| && 0 <= j < |rows| && s.key(rows[i]) == s.key(rows[j]) ==>
      (HasPartner(s, rows[i]) <==> HasPartner(s, rows[j]))
  }

  predicate UniqueKeys<R, K(==), J>(s: Scene<R, K, J>, rows: seq<R>) {
    forall i, j :: 0 <= i < j < |rows| ==> s.key(rows[i]) != s.key(rows[j])
  }

  /**
   * The rewritten DELETE removes exactly the rows with a satisfying partner if
   * and only if rows with the same key agree on having one, and RETURNING
   * counts each removed row once, however many partners it has.
   */
  lemma DeleteIsExact<R, K, J>(s: Scene<R, K, J>, rows: seq<R>)
    ensures Remaining(s, rows, InnerKeys(s, rows)) == Unmatched(s, rows) <==> KeysAgree(s, rows)
    ensures |Returned(s, rows, InnerKeys(s, rows))| == |rows| - |Remaining(s, rows, InnerKeys(s, rows))|
    ensures UniqueKeys(s, rows) ==> KeysAgree(s, rows)
  {
    var keys := InnerKeys(s, rows);
    forall i | 0 <= i < |rows|
      ensures s.key(rows[i]) in keys
         <==> exists j :: 0 <= j < |rows| && s.key(rows[j]) == s.key(rows[i]) && HasPartner(s, rows[j])
    {
      InnerKeysMember(s, rows, s.key(rows[i]));
    }
    RemainingIff(s, rows, keys);
    assert Selects(s, rows, keys) <==> KeysAgree(s, rows);
  }
}
