/**
 * Escaping of LIKE patterns under `ESCAPE '~'`: on the Python side for a plain
 * value (`prep_for_like_query`), on the SQL side for an expression
 * (`pattern_esc` in `pattern_ops`), and the guarded lookup built from it.
 */
module LikeEscaping {
  import opened Options
  import opened Lists
  import opened PyText

  // ---- The LIKE predicate, section 8.5 of ISO/IEC 9075-2:2003 ----

  datatype Elem = AnyRun | AnyChar | Exactly(c: char)

  /** A pattern's elements; an escape before any other character is an error. */
  function ParsePattern(p: string): Option<seq<Elem>> {
    if p == "" then Some([])
    else if p[0] == '~' then
      if |p| >= 2 && p[1] in {'~', '%', '_'} then Prepend(Exactly(p[1]), ParsePattern(p[2..]))
      else None
    else
      Prepend(if p[0] == '%' then AnyRun else if p[0] == '_' then AnyChar else Exactly(p[0]),
              ParsePattern(p[1..]))
  }

  function Prepend<T>(x: T, xs: Option<seq<T>>): Option<seq<T>> {
    if xs.None? then None else Some([x] + xs.value)
  }

  predicate Matches(es: seq<Elem>, s: string)
    decreases |es|, |s|
  {
    if es == [] then s == ""
    else match es[0]
      case AnyRun => Matches(es[1..], s) || (s != "" && Matches(es, s[1..]))
      case AnyChar => s != "" && Matches(es[1..], s[1..])
      case Exactly(c) => s != "" && s[0] == c && Matches(es[1..], s[1..])
  }

  /** `s LIKE p ESCAPE '~'`, or None for an invalid escape sequence. */
  function Like(s: string, p: string): Option<bool> {
    var es := ParsePattern(p);
    if es.None? then None else Some(Matches(es.value, s))
  }

  // ---- The escaping ----

  /** `prep_for_like_query`: three replacements, the escape character first. */
  function PrepForLikeQuery(x: string): string {
    ReplaceAll(ReplaceAll(ReplaceAll(x, "~", "~~"), "%", "~%"), "_", "~_")
  }

  predicate Special(c: char) {
    c == '~' || c == '%' || c == '_'
  }

  function EscapeEach(x: string): string {
    if x == "" then ""
    else (if Special(x[0]) then ['~', x[0]] else [x[0]]) + EscapeEach(x[1..])
  }

  lemma ReplaceHead(s: string, c: char, by_: string)
    requires s != ""
    ensures ReplaceAll(s, [c], by_) == (if s[0] == c then by_ else [s[0]]) + ReplaceAll(s[1..], [c], by_)
  {
    assert [c] <= s <==> s[0] == c;
  }

  lemma {:induction false} ReplaceCharConcat(a: string, b: string, c: char, by_: string)
    ensures ReplaceAll(a + b, [c], by_) == ReplaceAll(a, [c], by_) + ReplaceAll(b, [c], by_)
  {
    if a == "" {
      Unit(b);
      Unit(ReplaceAll(b, [c], by_));
    } else {
      Cons(a, b);
      ReplaceHead(a, c, by_);
      ReplaceHead(a + b, c, by_);
      ReplaceCharConcat(a[1..], b, c, by_);
      Assoc(if a[0] == c then by_ else [a[0]], ReplaceAll(a[1..], [c], by_), ReplaceAll(b, [c], by_));
    }
  }

  /** The three sequential replacements equal one substitution per character. */
  lemma {:induction false} PrepIsEscapeEach(x: string)
    ensures PrepForLikeQuery(x) == EscapeEach(x)
  {
    if x != "" {
      PrepIsEscapeEach(x[1..]);
      var t1 := ReplaceAll(x[1..], "~", "~~");
      var t2 := ReplaceAll(t1, "%", "~%");
      assert x == [x[0]] + x[1..];
      ReplaceCharConcat([x[0]], x[1..], '~', "~~");
      var h1 := ReplaceAll([x[0]], "~", "~~");
      ReplaceCharConcat(h1, t1, '%', "~%");
      var h2 := ReplaceAll(h1, "%", "~%");
      ReplaceCharConcat(h2, t2, '_', "~_");
      EscapeOne(x[0]);
    }
  }

  lemma EscapeOne(c: char)
    ensures PrepForLikeQuery([c]) == if Special(c) then ['~', c] else [c]
  {
    var h1 := if c == '~' then "~~" else [c];
    ReplaceShort([c], '~', "~~");
    ReplaceShort(h1, '%', "~%");
    var h2 := if c == '%' then "~%" else h1;
    ReplaceShort(h2, '_', "~_");
  }

  lemma ReplaceShort(s: string, c: char, by_: string)
    requires 1 <= |s| <= 2 && (|s| == 2 ==> c !in s)
    ensures ReplaceAll(s, [c], by_) == if s == [c] then by_ else s
  {
    assert [c] <= s <==> s[0] == c;
    if |s| == 2 {
      assert [c] <= s[1..] <==> s[1] == c;
      assert s[1..][1..] == "";
      assert s == [s[0]] + ([s[1]] + "");
    } else {
      assert s[1..] == "" && by_ + "" == by_;
    }
  }

  /** The elements that stand for the characters of `x` themselves. */
  function Literally(x: string): seq<Elem> {
    if x == "" then [] else [Exactly(x[0])] + Literally(x[1..])
  }

  lemma {:induction false} ParseEscaped(x: string, p: string)
    ensures ParsePattern(EscapeEach(x) + p)
         == if ParsePattern(p).None? then None else Some(Literally(x) + ParsePattern(p).value)
  {
    if x == "" {
      Unit(p);
      if ParsePattern(p).Some? { Unit(ParsePattern(p).value); }
    } else {
      ParseEscaped(x[1..], p);
      var rest := EscapeEach(x[1..]) + p;
      Assoc(if Special(x[0]) then ['~', x[0]] else [x[0]], EscapeEach(x[1..]), p);
      if Special(x[0]) {
        SplitAt(['~', x[0]], rest, 0);
      } else {
        Cons([x[0]], rest);
        Single(x[0]);
        Unit(rest);
      }
      if ParsePattern(p).Some? {
        Assoc([Exactly(x[0])], Literally(x[1..]), ParsePattern(p).value);
      }
    }
  }

  lemma {:induction false} LiterallyInjective(x: string, y: string)
    requires Literally(x) == Literally(y)
    ensures x == y
  {
    if x != "" && y != "" {
      assert Literally(x)[1..] == Literally(x[1..]) && Literally(y)[1..] == Literally(y[1..]);
      assert Literally(x)[0] == Literally(y)[0];
      LiterallyInjective(x[1..], y[1..]);
    }
  }

  /** No two values share an escaped form. */
  lemma EscapingIsInjective(x: string, y: string)
    requires PrepForLikeQuery(x) == PrepForLikeQuery(y)
    ensures x == y
  {
    PrepIsEscapeEach(x);
    PrepIsEscapeEach(y);
    ParseEscaped(x, "");
    ParseEscaped(y, "");
    assert EscapeEach(x) + "" == EscapeEach(x) && EscapeEach(y) + "" == EscapeEach(y);
    assert Literally(x) + [] == Literally(x) && Literally(y) + [] == Literally(y);
    LiterallyInjective(x, y);
  }

  // ---- Exact matching ----

  lemma {:induction false} MatchesLiterally(x: string, es: seq<Elem>, s: string)
    ensures Matches(Literally(x) + es, s) <==> x <= s && Matches(es, s[|x|..])
  {
    if x == "" {
      Unit(es);
      Unit(s);
      assert s[0..] == s;
    } else {
      Cons(Literally(x), es);
      if s != "" {
        MatchesLiterally(x[1..], es, s[1..]);
        PrefixCons(x, s);
      }
    }
  }

  lemma PrefixCons(x: string, s: string)
    requires x != "" && s != ""
    ensures x <= s <==> x[0] == s[0] && x[1..] <= s[1..]
    ensures x <= s ==> s[1..][|x| - 1..] == s[|x|..]
  {
    if x[0] == s[0] && x[1..] <= s[1..] {
      assert forall i :: 1 <= i < |x| ==> x[i] == x[1..][i - 1] && s[i] == s[1..][i - 1];
    }
  }

  /** Where the rest of a pattern may match after a `%`. */
  lemma {:induction false} MatchesAfterAnyRun(es: seq<Elem>, s: string)
    ensures Matches([AnyRun] + es, s) <==> exists i :: 0 <= i <= |s| && Matches(es, s[i..])
    decreases |s|
  {
    var all := [AnyRun] + es;
    assert all[1..] == es;
    if s != "" {
      MatchesAfterAnyRun(es, s[1..]);
      if Matches(all, s[1..]) {
        var i :| 0 <= i <= |s[1..]| && Matches(es, s[1..][i..]);
        assert s[1..][i..] == s[i + 1..];
      }
      forall i | 1 <= i <= |s| && Matches(es, s[i..])
        ensures Matches(all, s[1..])
      {
        assert s[1..][i - 1..] == s[i..];
      }
    }
    if Matches(es, s) {
      assert s[0..] == s;
    }
    if exists i :: 0 <= i <= |s| && Matches(es, s[i..]) {
      var i :| 0 <= i <= |s| && Matches(es, s[i..]);
      if i == 0 { assert s[0..] == s; }
    }
  }

  datatype Lookup = ContainsLookup | StartsWith | EndsWith

  predicate IsSuffix(x: string, s: string) {
    |x| <= |s| && s[|s| - |x|..] == x
  }

  /** What each lookup promises. */
  predicate Holds(lookup: Lookup, x: string, s: string) {
    match lookup
    case ContainsLookup => exists i :: 0 <= i <= |s| && x <= s[i..]
    case StartsWith => x <= s
    case EndsWith => IsSuffix(x, s)
  }

  /** The pattern bound for a plain value `x`. */
  function ValuePattern(lookup: Lookup, x: string): string {
    match lookup
    case ContainsLookup => "%" + PrepForLikeQuery(x) + "%"
    case StartsWith => PrepForLikeQuery(x) + "%"
    case EndsWith => "%" + PrepForLikeQuery(x)
  }

  lemma ParseAnyRun(p: string)
    ensures ParsePattern("%" + p) == Prepend(AnyRun, ParsePattern(p))
  {
    assert ("%" + p)[1..] == p;
  }

  lemma AnyRunMatchesAll(s: string)
    ensures Matches([AnyRun], s)
  {
    MatchesAfterAnyRun([], s);
    assert [AnyRun] + [] == [AnyRun];
    assert s[|s|..] == "";
  }

  lemma MatchesPrefix(x: string, s: string)
    ensures Matches(Literally(x) + [AnyRun], s) <==> x <= s
  {
    MatchesLiterally(x, [AnyRun], s);
    if x <= s { AnyRunMatchesAll(s[|x|..]); }
  }

  lemma MatchesExactly(x: string, s: string)
    ensures Matches(Literally(x), s) <==> x == s
  {
    MatchesLiterally(x, [], s);
    assert Literally(x) + [] == Literally(x);
  }

  /** An escaped value matches itself, literally, and nothing else. */
  lemma EscapingIsExact(lookup: Lookup, x: string, s: string)
    ensures Like(s, ValuePattern(lookup, x)) == Some(Holds(lookup, x, s))
  {
    PrepIsEscapeEach(x);
    var esc, lits := EscapeEach(x), Literally(x);
    assert "%"[1..] == "" && ParsePattern("%") == Some([AnyRun] + []);
    assert [AnyRun] + [] == [AnyRun];
    match lookup
    case StartsWith =>
      ParseEscaped(x, "%");
      MatchesPrefix(x, s);
    case ContainsLookup =>
      assert "%" + esc + "%" == "%" + (esc + "%");
      ParseAnyRun(esc + "%");
      ParseEscaped(x, "%");
      MatchesAfterAnyRun(lits + [AnyRun], s);
      forall i | 0 <= i <= |s|
        ensures Matches(lits + [AnyRun], s[i..]) <==> x <= s[i..]
      {
        MatchesPrefix(x, s[i..]);
      }
    case EndsWith =>
      assert esc + "" == esc && lits + [] == lits;
      ParseAnyRun(esc);
      ParseEscaped(x, "");
      MatchesAfterAnyRun(lits, s);
      forall i | 0 <= i <= |s|
        ensures Matches(lits, s[i..]) <==> x == s[i..]
      {
        MatchesExactly(x, s[i..]);
      }
      if IsSuffix(x, s) { assert Matches(lits, s[|s| - |x|..]); }
  }

  // ---- The SQL side ----

  /** The SQL expressions that `pattern_esc` and `pattern_ops` are made of. */
  datatype SqlText =
    | Rhs
    | Utf8(s: string)
    | Coalesce(e: SqlText, default: SqlText)
    | Replaced(e: SqlText, find: string, by_: string)
    | Concat(a: SqlText, b: SqlText)

  predicate Proper(e: SqlText) {
    match e
    case Coalesce(a, b) => Proper(a) && Proper(b)
    case Replaced(a, find, _) => find != "" && Proper(a)
    case Concat(a, b) => Proper(a) && Proper(b)
    case _ => true
  }

  /** The value of an expression; None is NULL, and every operator but COALESCE hands it on. */
  function Eval(e: SqlText, rhs: Option<string>): Option<string>
    requires Proper(e)
  {
    match e
    case Rhs => rhs
    case Utf8(s) => Some(s)
    case Coalesce(a, b) => if Eval(a, rhs).Some? then Eval(a, rhs) else Eval(b, rhs)
    case Replaced(a, find, by_) =>
      if Eval(a, rhs).None? then None else Some(ReplaceAll(Eval(a, rhs).value, find, by_))
    case Concat(a, b) =>
      if Eval(a, rhs).None? || Eval(b, rhs).None? then None
      else Some(Eval(a, rhs).value + Eval(b, rhs).value)
  }

  const PATTERN_ESC :=
    Replaced(Replaced(Replaced(Coalesce(Rhs, Utf8("")), "~", "~~"), "%", "~%"), "_", "~_")

  function PatternOps(lookup: Lookup): SqlText {
    match lookup
    case ContainsLookup => Concat(Concat(Utf8("%"), PATTERN_ESC), Utf8("%"))
    case StartsWith => Concat(PATTERN_ESC, Utf8("%"))
    case EndsWith => Concat(Utf8("%"), PATTERN_ESC)
  }

  /** Both sides build the same pattern; a NULL right-hand side is taken for an empty one. */
  lemma SidesAgree(lookup: Lookup, rhs: Option<string>)
    ensures Proper(PatternOps(lookup))
    ensures Eval(PatternOps(lookup), rhs)
         == Some(ValuePattern(lookup, if rhs.Some? then rhs.value else ""))
  {
    var x := if rhs.Some? then rhs.value else "";
    assert Proper(PATTERN_ESC) && Eval(PATTERN_ESC, rhs) == Some(PrepForLikeQuery(x)) by {
      assert Eval(Coalesce(Rhs, Utf8("")), rhs) == Some(x);
      assert Eval(Replaced(Coalesce(Rhs, Utf8("")), "~", "~~"), rhs) == Some(ReplaceAll(x, "~", "~~"));
    }
    match lookup
    case ContainsLookup => assert Eval(Concat(Utf8("%"), PATTERN_ESC), rhs) == Some("%" + PrepForLikeQuery(x));
    case _ =>
  }

  datatype Truth = True | False | Unknown

  function And(a: Truth, b: Truth): Truth {
    if a.False? || b.False? then False
    else if a.Unknown? || b.Unknown? then Unknown
    else True
  }

  function Of(b: bool): Truth {
    if b then True else False
  }

  /** `lhs LIKE pattern ESCAPE '~'`; None is the error of an invalid pattern. */
  function LikeSql(lhs: Option<string>, pattern: Option<string>): Option<Truth> {
    if lhs.None? || pattern.None? then Some(Unknown)
    else if Like(lhs.value, pattern.value).None? then None
    else Some(Of(Like(lhs.value, pattern.value).value))
  }

  /** `(lhs LIKE ... AND (rhs) IS NOT NULL)`, as `_pattern_lookup_as_sql_ydb` emits it. */
  function GuardedLookup(lookup: Lookup, lhs: Option<string>, rhs: Option<string>): Option<Truth>
    requires Proper(PatternOps(lookup))
  {
    var like := LikeSql(lhs, Eval(PatternOps(lookup), rhs));
    if like.None? then None else Some(And(like.value, Of(rhs.Some?)))
  }

  function Not(a: Truth): Truth {
    match a
    case True => False
    case False => True
    case Unknown => Unknown
  }

  /**
   * The condition is false without a right side, unknown with a right side only,
   * and otherwise tells whether the right side matches literally. So a row passes
   * exactly when both sides are present and match; it passes the negation where
   * they do not match, and also wherever the right side is NULL.
   */
  lemma GuardedLookupIsExact(lookup: Lookup, lhs: Option<string>, rhs: Option<string>)
    ensures Proper(PatternOps(lookup))
    ensures GuardedLookup(lookup, lhs, rhs)
         == Some(if rhs.None? then False else if lhs.None? then Unknown else Of(Holds(lookup, rhs.value, lhs.value)))
    ensures GuardedLookup(lookup, lhs, rhs).value == True
       <==> lhs.Some? && rhs.Some? && Holds(lookup, rhs.value, lhs.value)
    ensures Not(GuardedLookup(lookup, lhs, rhs).value) == True
       <==> rhs.None? || (lhs.Some? && !Holds(lookup, rhs.value, lhs.value))
  {
    SidesAgree(lookup, rhs);
    if lhs.Some? {
      EscapingIsExact(lookup, if rhs.Some? then rhs.value else "", lhs.value);
    }
  }

  /** Without the guard a NULL right-hand side would let every present row pass. */
  lemma GuardIsNeeded(lookup: Lookup, s: string)
    ensures LikeSql(Some(s), Eval(PatternOps(lookup), None)) == Some(True)
  {
    SidesAgree(lookup, None);
    EscapingIsExact(lookup, "", s);
    assert "" <= s[0..];
  }
}
