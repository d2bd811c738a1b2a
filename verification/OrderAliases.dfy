/**
 * Replacing an ORDER BY term that repeats a selected expression by the alias of
 * that expression (`SQLCompiler.get_order_by`).
 */
module OrderAliases {
  import opened Options
  import opened Parameters
  import opened Fragments

  /** A selected column: its compiled expression and its alias, "" when it has none. */
  datatype Selected = Selected(frag: Frag, alias: string)

  // ---- Python's equality of parameter lists ----

  function Number(v: PyValue): Option<real> {
    match v
    case BoolV(b) => Some(if b then 1.0 else 0.0)
    case IntV(i) => Some(i as real)
    case FloatV(r) => Some(r)
    case DecimalV(r) => Some(r)
    case _ => None
  }

  /** `v == w`: numbers are compared across their types, so `True == 1`. */
  predicate PyEqual(v: PyValue, w: PyValue) {
    if Number(v).Some? && Number(w).Some? then Number(v) == Number(w) else v == w
  }

  /** Typed parameters are compared by identity and never arise twice. */
  predicate EqualParam(p: Param, q: Param) {
    p.Plain? && q.Plain? && PyEqual(p.v, q.v)
  }

  predicate EqualParams(ps: seq<Param>, qs: seq<Param>) {
    |ps| == |qs| && forall i :: 0 <= i < |ps| ==> EqualParam(ps[i], qs[i])
  }

  // ---- The direction of a term ----

  /** `\s` of a regular expression over text. */
  predicate IsSpace(c: char) {
    var n := c as int;
    9 <= n <= 13 || 28 <= n <= 32 || n == 0x85 || n == 0xA0 || n == 0x1680 || 0x2000 <= n <= 0x200A
    || n == 0x2028 || n == 0x2029 || n == 0x202F || n == 0x205F || n == 0x3000
  }

  predicate DirectionAt(s: string, i: nat) {
    i < |s| && IsSpace(s[i]) && ("ASC" <= s[i + 1..] || "DESC" <= s[i + 1..])
  }

  /** Where the last direction of the term starts, or -1 (`ordering_parts`). */
  function LastDirection(s: string): (i: int)
    ensures i < |s| && -1 <= i
    ensures i >= 0 ==> DirectionAt(s, i)
  {
    if s == "" then -1
    else
      var r := LastDirection(s[1..]);
      if r >= 0 then
        assert s[1..][r + 1..] == s[r + 2..];
        r + 1
      else if DirectionAt(s, 0) then 0
      else -1
  }

  function TermBase(s: string): string {
    if LastDirection(s) < 0 then s else s[..LastDirection(s)]
  }

  function TermDirection(s: string): string {
    if LastDirection(s) < 0 then "" else s[LastDirection(s)..]
  }

  /** A rendered term splits where its direction was appended. */
  lemma {:induction false} SplitRendered(base: string, direction: string)
    requires LastDirection(direction) == 0
    ensures TermBase(base + direction) == base && TermDirection(base + direction) == direction
  {
    if base == "" {
      assert base + direction == direction;
    } else {
      var s := base + direction;
      assert s[1..] == base[1..] + direction;
      SplitRendered(base[1..], direction);
      LastOfTail(base[1..], direction);
      assert LastDirection(s) == |base|;
    }
  }

  lemma {:induction false} LastOfTail(base: string, direction: string)
    requires LastDirection(direction) == 0
    ensures LastDirection(base + direction) == |base|
  {
    if base == "" {
      assert base + direction == direction;
    } else {
      assert (base + direction)[1..] == base[1..] + direction;
      LastOfTail(base[1..], direction);
    }
  }

  // ---- The rewriting ----

  /** `quote_name`. */
  function QuoteName(name: string): string {
    if name != "" && name[0] == '`' && name[|name| - 1] == '`' then name else "`" + name + "`"
  }

  predicate SameExpression(s: Selected, base: string, params: seq<Param>) {
    s.alias != "" && s.frag.sql == base && EqualParams(s.frag.params, params)
  }

  /** The first selected column with this text and these parameters, or -1. */
  function AliasFor(selected: seq<Selected>, base: string, params: seq<Param>): (i: int)
    ensures -1 <= i < |selected|
    ensures i >= 0 ==> SameExpression(selected[i], base, params)
    ensures forall j :: 0 <= j < (if i < 0 then |selected| else i) ==> !SameExpression(selected[j], base, params)
  {
    if selected == [] then -1
    else if SameExpression(selected[0], base, params) then 0
    else
      var r := AliasFor(selected[1..], base, params);
      if r < 0 then -1 else r + 1
  }

  /** One term of ORDER BY: rewritten when YQL needs it and a column matches. */
  function RewriteTerm(selected: seq<Selected>, needed: bool, f: Frag): Frag {
    var i := AliasFor(selected, TermBase(f.sql), f.params);
    if needed && i >= 0 then Frag(QuoteName(selected[i].alias) + TermDirection(f.sql), []) else f
  }

  // ---- What the rewritten term sorts by ----

  /**
   * What an ORDER BY base stands for: the alias of a selected column for that
   * column's expression, anything else for itself.
   */
  function Stands(selected: seq<Selected>, term: Frag): Frag {
    var i := ColumnNamed(selected, TermBase(term.sql));
    if i >= 0 && term.params == [] then selected[i].frag else Frag(TermBase(term.sql), term.params)
  }

  /** The key it gives a row; `ev` is how the database evaluates an expression with its parameters in a row. */
  function SortKey<R, K>(ev: (Frag, R) -> K, selected: seq<Selected>, term: Frag, row: R): K {
    ev(Stands(selected, term), row)
  }

  function ColumnNamed(selected: seq<Selected>, name: string): (i: int)
    ensures -1 <= i < |selected|
    ensures i >= 0 ==> selected[i].alias != "" && QuoteName(selected[i].alias) == name
  {
    if selected == [] then -1
    else if selected[0].alias != "" && QuoteName(selected[0].alias) == name then 0
    else
      var r := ColumnNamed(selected[1..], name);
      if r < 0 then -1 else r + 1
  }

  /** The aliases of a query are distinct as they are quoted. */
  predicate DistinctAliases(selected: seq<Selected>) {
    forall i, j :: 0 <= i < j < |selected| && selected[i].alias != "" && selected[j].alias != "" ==>
      QuoteName(selected[i].alias) != QuoteName(selected[j].alias)
  }

  lemma {:induction false} ColumnNamedAt(selected: seq<Selected>, i: nat)
    requires DistinctAliases(selected) && i < |selected| && selected[i].alias != ""
    ensures ColumnNamed(selected, QuoteName(selected[i].alias)) == i
  {
    if i > 0 {
      ColumnNamedAt(selected[1..], i - 1);
    }
  }

  /** The column a term is matched with is the very expression that the term stands for. */
  predicate NotConfused(selected: seq<Selected>, term: Frag) {
    var i := AliasFor(selected, TermBase(term.sql), term.params);
    i >= 0 ==> selected[i].frag == Stands(selected, term)
  }

  /** What follows the base is a direction from its first character on. */
  lemma {:induction false} DirectionStarts(s: string)
    ensures TermDirection(s) != "" ==> LastDirection(TermDirection(s)) == 0
  {
    if s != "" && LastDirection(s[1..]) >= 0 {
      DirectionStarts(s[1..]);
      assert s[LastDirection(s)..] == s[1..][LastDirection(s[1..])..];
    } else if s != "" {
      assert s[0..] == s;
    }
  }

  lemma {:induction false} NoDirectionInside(name: string, direction: string)
    requires LastDirection(direction) == 0 || (direction == "" && LastDirection(name) < 0)
    ensures TermBase(name + direction) == name && TermDirection(name + direction) == direction
  {
    if direction == "" {
      assert name + direction == name;
    } else {
      SplitRendered(name, direction);
    }
  }

  /** A rewritten term keeps its direction, and sorts by the column it was matched with. */
  lemma RewriteKeepsKey<R, K>(ev: (Frag, R) -> K, selected: seq<Selected>, needed: bool, term: Frag, row: R)
    requires DistinctAliases(selected)
    requires forall s :: s in selected ==> LastDirection(QuoteName(s.alias)) < 0
    ensures var new_ := RewriteTerm(selected, needed, term);
            var i := AliasFor(selected, TermBase(term.sql), term.params);
            && TermDirection(new_.sql) == TermDirection(term.sql)
            && SortKey(ev, selected, new_, row)
               == if needed && i >= 0 then ev(selected[i].frag, row) else SortKey(ev, selected, term, row)
  {
    var i := AliasFor(selected, TermBase(term.sql), term.params);
    if needed && i >= 0 {
      DirectionStarts(term.sql);
      NoDirectionInside(QuoteName(selected[i].alias), TermDirection(term.sql));
      ColumnNamedAt(selected, i);
    }
  }

  /** Every evaluation sorts by the same keys as before exactly when no column is confused. */
  lemma RewriteKeepsOrder(selected: seq<Selected>, needed: bool, term: Frag)
    requires DistinctAliases(selected)
    requires forall s :: s in selected ==> LastDirection(QuoteName(s.alias)) < 0
    ensures (forall ev: (Frag, int) -> Frag, row: int ::
               SortKey(ev, selected, RewriteTerm(selected, needed, term), row) == SortKey(ev, selected, term, row))
       <==> (needed ==> NotConfused(selected, term))
  {
    var i := AliasFor(selected, TermBase(term.sql), term.params);
    var new_ := RewriteTerm(selected, needed, term);
    forall ev: (Frag, int) -> Frag, row: int
      ensures SortKey(ev, selected, new_, row)
           == if needed && i >= 0 then ev(selected[i].frag, row) else SortKey(ev, selected, term, row)
    {
      RewriteKeepsKey(ev, selected, needed, term, row);
    }
    if needed && !NotConfused(selected, term) {
      var id: (Frag, int) -> Frag := (f, r) => f;
      assert SortKey(id, selected, new_, 0) == selected[i].frag;
      assert SortKey(id, selected, term, 0) == Stands(selected, term);
    }
  }

  // ---- When a column is confused ----

  /** The term is at once the alias of one column and the whole text of another that is something else. */
  predicate AliasIsAnExpression(selected: seq<Selected>, term: Frag) {
    var i := AliasFor(selected, TermBase(term.sql), term.params);
    var j := ColumnNamed(selected, TermBase(term.sql));
    i >= 0 && j >= 0 && term.params == [] && selected[j].frag != selected[i].frag
  }

  /** Parameters of one kind are confused with nothing: their equality is identity. */
  predicate SameKinds(ps: seq<Param>, qs: seq<Param>) {
    |ps| == |qs| ==> forall i :: 0 <= i < |ps| ==> SameKind(ps[i], qs[i])
  }

  predicate SameKind(p: Param, q: Param) {
    p.Plain? && q.Plain? && Number(p.v).Some? && Number(q.v).Some? ==>
      (p.v.BoolV? <==> q.v.BoolV?) && (p.v.IntV? <==> q.v.IntV?) && (p.v.FloatV? <==> q.v.FloatV?)
  }

  /**
   * Columns with equal text are told apart by any difference but that of number
   * types, so without one a column is confused only by such an alias.
   */
  lemma SameKindsAreNotConfused(selected: seq<Selected>, term: Frag)
    requires forall s :: s in selected ==> SameKinds(s.frag.params, term.params)
    ensures NotConfused(selected, term) <==> !AliasIsAnExpression(selected, term)
  {
    var i := AliasFor(selected, TermBase(term.sql), term.params);
    if i >= 0 {
      var ps, qs := selected[i].frag.params, term.params;
      assert selected[i] in selected;
      forall j | 0 <= j < |ps|
        ensures ps[j] == qs[j]
      {
        assert EqualParam(ps[j], qs[j]) && SameKind(ps[j], qs[j]);
      }
      assert ps == qs;
      assert selected[i].frag == Frag(TermBase(term.sql), term.params);
    }
  }

  /** An expression selected with True and again with 1: ordering by the second takes the first. */
  lemma TrueIsConfusedWithOne(sql: string, a: string, b: string)
    requires LastDirection(sql) < 0 && a != ""
    ensures var selected := [Selected(Frag(sql, [Plain(BoolV(true))]), a),
                             Selected(Frag(sql, [Plain(IntV(1))]), b)];
            !NotConfused(selected, Frag(sql, [Plain(IntV(1))]))
  {
    var s := Selected(Frag(sql, [Plain(BoolV(true))]), a);
    assert EqualParam(s.frag.params[0], Plain(IntV(1)));
    assert SameExpression(s, sql, [Plain(IntV(1))]);
  }

  /**
   * A column `x` selected as `a`, and the column `a` of the table selected as
   * `b`: ordering by the alias `a` takes `b`, and so the other column.
   */
  lemma AliasIsConfusedWithColumn(x: string, a: string, b: string, direction: string)
    requires a != "" && b != "" && x != QuoteName(a) && LastDirection(direction) == 0
    requires QuoteName(a) != QuoteName(b)
    ensures var selected := [Selected(Frag(x, []), a), Selected(Frag(QuoteName(a), []), b)];
            var term := Frag(QuoteName(a) + direction, []);
            && DistinctAliases(selected) && !NotConfused(selected, term)
            && RewriteTerm(selected, true, term) == Frag(QuoteName(b) + direction, [])
  {
    SplitRendered(QuoteName(a), direction);
    var selected := [Selected(Frag(x, []), a), Selected(Frag(QuoteName(a), []), b)];
    assert !SameExpression(selected[0], QuoteName(a), []);
    assert SameExpression(selected[1], QuoteName(a), []);
  }
}
