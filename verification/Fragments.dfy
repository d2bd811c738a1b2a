/**
 * SQL under construction: text with `%s` holes, the parameters that fill them,
 * and the field types recorded beside the parameters.
 */
module Fragments {
  import opened Options
  import opened Placeholders
  import opened Parameters

  /** What compiling yields, or the exception it raises instead. */
  datatype Outcome<+T> = Ok(value: T) | EmptyResultSet | FullResultSet | Raised {
    predicate IsFailure() {
      !Ok?
    }

    function PropagateFailure<U>(): Outcome<U>
      requires IsFailure()
    {
      match this
      case EmptyResultSet => EmptyResultSet
      case FullResultSet => FullResultSet
      case _ => Raised
    }

    function Extract(): T
      requires Ok?
    {
      value
    }
  }

  datatype Frag = Frag(sql: string, params: seq<Param>)

  /** The three accumulators of a statement, taken together. */
  datatype Clause = Clause(sql: string, params: seq<Param>, types: seq<FieldType>)

  function Glue(s: string): Clause {
    Clause(s, [], [])
  }

  /** A fragment whose parameters are typed from their values (`[None] * len(params)`). */
  function Untyped(f: Frag): Clause {
    Clause(f.sql, f.params, Repeat(Unresolved, |f.params|))
  }

  function Cat(a: Clause, b: Clause): Clause {
    Clause(a.sql + b.sql, a.params + b.params, a.types + b.types)
  }

  function JoinClauses(cs: seq<Clause>, sep: string): Clause {
    if cs == [] then Glue("")
    else if |cs| == 1 then cs[0]
    else Cat(cs[0], Cat(Glue(sep), JoinClauses(cs[1..], sep)))
  }

  // ---- What a clause means: characters, and bound values in place ----

  type Pieces = seq<Piece<Option<Bound>>>

  function Chars(s: string): (ps: Pieces)
    ensures |ps| == |s|
  {
    seq(|s|, i requires 0 <= i < |s| => Ch(s[i]))
  }

  /** As many holes as parameters as types, and an end that cannot make a hole. */
  predicate Sound(c: Clause) {
    HoleCount(c.sql) == |c.params| == |c.types| && !EndsOpen(c.sql)
  }

  function Bounds(c: Clause): (bs: seq<Option<Bound>>)
    ensures |bs| == |c.params|
  {
    ResolveTypedParams(c.types, c.params)
  }

  function Meaning(c: Clause): Pieces
    requires HoleCount(c.sql) == |c.params|
  {
    Fill(c.sql, Bounds(c))
  }

  predicate CleanText(s: string) {
    HoleCount(s) == 0 && !EndsOpen(s)
  }

  lemma {:induction false} FillPlain(s: string)
    requires HoleCount(s) == 0
    ensures Fill<Option<Bound>>(s, []) == Chars(s)
  {
    if s != "" {
      FillPlain(s[1..]);
      assert Chars(s) == [Ch(s[0])] + Chars(s[1..]);
    }
  }

  lemma GlueMeaning(s: string)
    requires CleanText(s)
    ensures Sound(Glue(s)) && Meaning(Glue(s)) == Chars(s)
  {
    FillPlain(s);
    assert Bounds(Glue(s)) == [];
  }

  lemma CatMeaning(a: Clause, b: Clause)
    requires Sound(a) && Sound(b)
    ensures Sound(Cat(a, b)) && Meaning(Cat(a, b)) == Meaning(a) + Meaning(b)
  {
    HoleCountConcat(a.sql, b.sql);
    ResolveConcat(a.types, b.types, a.params, b.params);
    FillConcat(a.sql, b.sql, Bounds(a), Bounds(b));
    if b.sql == "" {
      assert a.sql + b.sql == a.sql;
    }
  }

  function JoinPieces(ps: seq<Pieces>, sep: string): Pieces {
    if ps == [] then []
    else if |ps| == 1 then ps[0]
    else ps[0] + Chars(sep) + JoinPieces(ps[1..], sep)
  }

  predicate AllSound(cs: seq<Clause>) {
    forall i :: 0 <= i < |cs| ==> Sound(cs[i])
  }

  function Meanings(cs: seq<Clause>): (ps: seq<Pieces>)
    requires AllSound(cs)
    ensures |ps| == |cs|
  {
    seq(|cs|, i requires 0 <= i < |cs| => Meaning(cs[i]))
  }

  /** Joining texts, parameters and types side by side joins the meanings. */
  lemma {:induction false} JoinMeaning(cs: seq<Clause>, sep: string)
    requires AllSound(cs) && CleanText(sep)
    ensures Sound(JoinClauses(cs, sep))
    ensures Meaning(JoinClauses(cs, sep)) == JoinPieces(Meanings(cs), sep)
  {
    if cs == [] {
      GlueMeaning("");
    } else if |cs| == 1 {
    } else {
      var rest := JoinClauses(cs[1..], sep);
      JoinMeaning(cs[1..], sep);
      GlueMeaning(sep);
      CatMeaning(Glue(sep), rest);
      CatMeaning(cs[0], Cat(Glue(sep), rest));
      assert Meanings(cs)[1..] == Meanings(cs[1..]);
      var m, g, r := Meaning(cs[0]), Chars(sep), Meaning(rest);
      assert m + (g + r) == m + g + r;
    }
  }

  lemma SurroundMeaning(before: string, c: Clause, after: string)
    requires CleanText(before) && Sound(c) && CleanText(after)
    ensures var all := Cat(Glue(before), Cat(c, Glue(after)));
            Sound(all) && Meaning(all) == Chars(before) + Meaning(c) + Chars(after)
  {
    GlueMeaning(before);
    GlueMeaning(after);
    CatMeaning(c, Glue(after));
    CatMeaning(Glue(before), Cat(c, Glue(after)));
    var b, m, a := Chars(before), Meaning(c), Chars(after);
    assert b + (m + a) == b + m + a;
  }

  lemma PrefixMeaning(before: string, c: Clause)
    requires CleanText(before) && Sound(c)
    ensures Sound(Cat(Glue(before), c)) && Meaning(Cat(Glue(before), c)) == Chars(before) + Meaning(c)
  {
    GlueMeaning(before);
    CatMeaning(Glue(before), c);
  }

  /** A clause has no text exactly when it means nothing. */
  lemma EmptyMeaning(c: Clause)
    requires Sound(c)
    ensures c.sql == "" <==> Meaning(c) == []
  {
  }
}
