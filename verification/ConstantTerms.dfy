/**
 * `_is_constant_sql`: which GROUP BY / ORDER BY terms are dropped, and why
 * dropping them changes neither the order nor the grouping of any rows.
 */
module ConstantTerms {
  import opened Lists
  import opened PyText
  import opened Placeholders
  import opened Sorting

  // ---- The test, as two regular expressions and a replacement see a term ----

  /**
   * The end of a match of `(?:[^']|'')*'` at the start of `s`, or -1. The
   * repetition is greedy and backtracks: a doubled quote is read as part of the
   * literal first, and only as its end when nothing else matches.
   */
  function BodyEnd(s: string): (e: int)
    ensures e <= |s| && (e == -1 || 1 <= e)
  {
    if s == "" then -1
    else if s[0] != '\'' then
      var r := BodyEnd(s[1..]);
      if r < 0 then -1 else r + 1
    else if |s| >= 2 && s[1] == '\'' && BodyEnd(s[2..]) >= 0 then BodyEnd(s[2..]) + 2
    else 1
  }

  function LetterRun(s: string): (n: nat)
    ensures n <= |s|
  {
    if s != "" && IsLetter(s[0]) then 1 + LetterRun(s[1..]) else 0
  }

  /** The length of a string literal with its type suffix at the start of `s`, or 0. */
  function LiteralLength(s: string): (n: nat)
    ensures n <= |s|
  {
    if s == "" || s[0] != '\'' || BodyEnd(s[1..]) < 0 then 0
    else
      var n := 1 + BodyEnd(s[1..]);
      n + LetterRun(s[n..])
  }

  /** `_STRING_LITERAL.sub("", sql)`. */
  function StripLiterals(s: string): string
    decreases |s|
  {
    if s == "" then ""
    else if LiteralLength(s) > 0 then StripLiterals(s[LiteralLength(s)..])
    else [s[0]] + StripLiterals(s[1..])
  }

  predicate ReadsRows(stripped: string) {
    exists c :: c in stripped && (c == '`' || IsLetter(c) || c == '_')
  }

  predicate IsConstantSql(sql: string) {
    !ReadsRows(ReplaceAll(StripLiterals(sql), HOLE, ""))
  }

  // ---- The terms that are rendered ----

  datatype Token =
    | Literal(body: string, suffix: string)
    | Hole
    | Column(name: string)
    | Word(name: string)
    | Symbol(c: char)

  function Doubled(body: string): string {
    if body == "" then ""
    else (if body[0] == '\'' then "''" else [body[0]]) + Doubled(body[1..])
  }

  function RenderToken(t: Token): string {
    match t
    case Literal(body, suffix) => "'" + Doubled(body) + "'" + suffix
    case Hole => HOLE
    case Column(name) => "`" + name + "`"
    case Word(name) => name
    case Symbol(c) => [c]
  }

  function Render(ts: seq<Token>): string {
    if ts == [] then "" else RenderToken(ts[0]) + Render(ts[1..])
  }

  predicate IsIdentifier(s: string) {
    s != "" && (IsLetter(s[0]) || s[0] == '_') && forall c :: c in s ==> IsWordChar(c)
  }

  predicate ValidToken(t: Token) {
    match t
    case Literal(_, suffix) => forall c :: c in suffix ==> IsLetter(c)
    case Word(name) => IsIdentifier(name)
    case Symbol(c) => c != '\'' && c != '`' && c != '_' && !IsLetter(c)
    case _ => true
  }

  /** A literal neither runs into the next literal nor takes a word as its suffix. */
  predicate Separate(t: Token, u: Token) {
    t.Literal? ==> !u.Literal? && !u.Word?
  }

  predicate ValidTerm(ts: seq<Token>) {
    && (forall i :: 0 <= i < |ts| ==> ValidToken(ts[i]))
    && (forall i :: 0 <= i < |ts| - 1 ==> Separate(ts[i], ts[i + 1]))
  }

  /** The term refers to a column, or to anything else that has a name. */
  predicate Refers(ts: seq<Token>) {
    exists t :: t in ts && (t.Column? || t.Word?)
  }

  // ---- The quoting of literals ----

  lemma {:induction false} BodyEndDoubled(body: string, rest: string)
    requires rest == "" || rest[0] != '\''
    ensures BodyEnd(Doubled(body) + "'" + rest) == |Doubled(body)| + 1
  {
    if body == "" {
      Unit("'");
    } else {
      BodyEndDoubled(body[1..], rest);
      var d := Doubled(body[1..]);
      var tail := d + "'" + rest;
      var first := if body[0] == '\'' then "''" else [body[0]];
      Assoc(first, d, "'");
      Assoc(first, d + "'", rest);
      HeadThenTail(first, tail);
    }
  }

  lemma HeadThenTail(first: string, tail: string)
    ensures (first + tail)[|first|..] == tail && (first + tail)[..|first|] == first
  {
  }

  lemma {:induction false} LetterRunSplit(a: string, rest: string)
    requires forall c :: c in a ==> IsLetter(c)
    requires rest == "" || !IsLetter(rest[0])
    ensures LetterRun(a + rest) == |a|
  {
    if a == "" {
      assert a + rest == rest;
    } else {
      assert (a + rest)[1..] == a[1..] + rest;
      LetterRunSplit(a[1..], rest);
    }
  }

  /** A rendered literal is matched as a whole, whatever quotes its body holds. */
  lemma LiteralIsLexed(body: string, suffix: string, rest: string)
    requires ValidToken(Literal(body, suffix))
    requires rest == "" || (rest[0] != '\'' && !IsLetter(rest[0]))
    ensures var lit := RenderToken(Literal(body, suffix));
            LiteralLength(lit + rest) == |lit|
  {
    var lit := RenderToken(Literal(body, suffix));
    var s := lit + rest;
    var n := |Doubled(body)| + 2;
    assert s[1..] == Doubled(body) + "'" + (suffix + rest);
    assert suffix != "" ==> suffix[0] in suffix;
    BodyEndDoubled(body, suffix + rest);
    assert s[n..] == suffix + rest;
    LetterRunSplit(suffix, rest);
  }

  /** What the lexer makes of the inside of a literal. */
  function Undoubled(s: string): string {
    if s == "" then ""
    else if |s| >= 2 && s[0] == '\'' && s[1] == '\'' then "'" + Undoubled(s[2..])
    else [s[0]] + Undoubled(s[1..])
  }

  lemma {:induction false} UndoubledDoubled(body: string)
    ensures Undoubled(Doubled(body)) == body
  {
    if body != "" {
      UndoubledDoubled(body[1..]);
      var d := Doubled(body);
      if body[0] == '\'' {
        assert d[2..] == Doubled(body[1..]);
      } else {
        assert d[1..] == Doubled(body[1..]);
      }
    }
  }

  // ---- What the test leaves of a term ----

  /** What is left of a rendered term once literals and holes are gone. */
  function Left(ts: seq<Token>): string {
    ReplaceAll(StripLiterals(Render(ts)), HOLE, "")
  }

  lemma {:induction false} StripPlain(a: string, rest: string)
    requires '\'' !in a
    ensures StripLiterals(a + rest) == a + StripLiterals(rest)
  {
    if a == "" {
      Unit(rest);
      Unit(StripLiterals(rest));
    } else {
      Cons(a, rest);
      StripPlain(a[1..], rest);
      Assoc([a[0]], a[1..], StripLiterals(rest));
    }
  }

  lemma RenderHead(ts: seq<Token>)
    requires ValidTerm(ts) && ts != []
    ensures !ts[0].Literal? && !ts[0].Word? ==>
              Render(ts) != "" && Render(ts)[0] != '\'' && !IsLetter(Render(ts)[0])
  {
  }

  lemma ValidTail(ts: seq<Token>)
    requires ValidTerm(ts) && ts != []
    ensures ValidTerm(ts[1..])
  {
    var us := ts[1..];
    forall i | 0 <= i < |us| - 1
      ensures Separate(us[i], us[i + 1])
    {
      assert us[i] == ts[i + 1] && us[i + 1] == ts[i + 2];
    }
  }

  lemma StripLiteralToken(ts: seq<Token>)
    requires ValidTerm(ts) && ts != [] && ts[0].Literal?
    ensures StripLiterals(Render(ts)) == StripLiterals(Render(ts[1..]))
  {
    var lit, rest := RenderToken(ts[0]), Render(ts[1..]);
    ValidTail(ts);
    if |ts| > 1 {
      assert Separate(ts[0], ts[1]);
      RenderHead(ts[1..]);
    }
    LiteralIsLexed(ts[0].body, ts[0].suffix, rest);
    assert Render(ts) == lit + rest && lit != "" && (lit + rest)[|lit|..] == rest;
  }

  lemma NoQuote(t: Token)
    requires ValidToken(t) && !t.Literal? && !t.Column?
    ensures '\'' !in RenderToken(t)
  {
  }

  lemma StripToken(ts: seq<Token>)
    requires ValidTerm(ts) && ts != [] && !ts[0].Column? && !ts[0].Literal?
    ensures StripLiterals(Render(ts)) == RenderToken(ts[0]) + StripLiterals(Render(ts[1..]))
  {
    NoQuote(ts[0]);
    StripPlain(RenderToken(ts[0]), Render(ts[1..]));
  }

  lemma StripColumn(ts: seq<Token>)
    requires ts != [] && ts[0].Column?
    ensures var s := StripLiterals(Render(ts)); s != "" && s[0] == '`'
  {
    var tail := ts[0].name + "`" + Render(ts[1..]);
    Assoc("`", ts[0].name + "`", Render(ts[1..]));
    Assoc("`", ts[0].name, "`");
    StripPlain("`", tail);
  }

  lemma ReplaceStep(s: string)
    ensures HoleAtStart(s) ==> ReplaceAll(s, HOLE, "") == ReplaceAll(s[2..], HOLE, "")
    ensures s != "" && !HoleAtStart(s) ==> ReplaceAll(s, HOLE, "") == [s[0]] + ReplaceAll(s[1..], HOLE, "")
  {
    HoleStarts(s);
    if HoleAtStart(s) {
      assert "" + ReplaceAll(s[2..], HOLE, "") == ReplaceAll(s[2..], HOLE, "");
    } else if |s| == 1 {
      assert s == [s[0]] + s[1..];
    }
  }

  lemma {:induction false} ReplacePlain(a: string, rest: string)
    requires '%' !in a
    ensures ReplaceAll(a + rest, HOLE, "") == a + ReplaceAll(rest, HOLE, "")
  {
    if a == "" {
      Unit(rest);
      Unit(ReplaceAll(rest, HOLE, ""));
    } else {
      Cons(a, rest);
      ReplacePlain(a[1..], rest);
      ReplaceStep(a + rest);
      Assoc([a[0]], a[1..], ReplaceAll(rest, HOLE, ""));
    }
  }

  /** The stripped term starts with an `s` only if a word does. */
  lemma {:induction false} StrippedHead(ts: seq<Token>)
    requires ValidTerm(ts)
    ensures var s := StripLiterals(Render(ts));
            s != "" && s[0] == 's' <==> ts != [] && ts[0].Word? && ts[0].name[0] == 's'
  {
    if ts != [] {
      ValidTail(ts);
      match ts[0]
      case Literal(_, _) =>
        StripLiteralToken(ts);
        StrippedHead(ts[1..]);
        if |ts| > 1 { assert Separate(ts[0], ts[1]); }
      case Column(_) => StripColumn(ts);
      case _ => StripToken(ts);
    }
  }

  /** The word after the first token is taken for the rest of a hole. */
  predicate SplitsWord(ts: seq<Token>) {
    |ts| > 1 && ts[0] == Symbol('%') && ts[1].Word? && ts[1].name != "" && ts[1].name[0] == 's'
  }

  lemma LeftOfLiteral(ts: seq<Token>)
    requires ValidTerm(ts) && ts != [] && (ts[0].Literal? || ts[0].Hole?)
    ensures Left(ts) == Left(ts[1..])
  {
    if ts[0].Literal? {
      StripLiteralToken(ts);
    } else {
      var tail := StripLiterals(Render(ts[1..]));
      StripToken(ts);
      assert (HOLE + tail)[2..] == tail;
      ReplaceStep(HOLE + tail);
    }
  }

  lemma LeftOfName(ts: seq<Token>)
    requires ValidTerm(ts) && ts != [] && (ts[0].Column? || ts[0].Word?)
    ensures ReadsRows(Left(ts))
  {
    var s := StripLiterals(Render(ts));
    if ts[0].Column? {
      StripColumn(ts);
    } else {
      StripToken(ts);
    }
    ReplaceStep(s);
    assert s[0] in Left(ts);
  }

  lemma LeftOfSymbol(ts: seq<Token>)
    requires ValidTerm(ts) && ts != [] && ts[0].Symbol? && !SplitsWord(ts)
    ensures Left(ts) == [ts[0].c] + Left(ts[1..])
  {
    var tail := StripLiterals(Render(ts[1..]));
    ValidTail(ts);
    StripToken(ts);
    StrippedHead(ts[1..]);
    assert ([ts[0].c] + tail)[1..] == tail;
    ReplaceStep([ts[0].c] + tail);
  }

  lemma LeftOfSplit(ts: seq<Token>)
    requires ValidTerm(ts) && SplitsWord(ts)
    ensures Left(ts) == ts[1].name[1..] + Left(ts[2..])
  {
    ValidTail(ts);
    assert ts[1..][1..] == ts[2..];
    StripToken(ts);
    StripToken(ts[1..]);
    ReplaceSplit(ts[1].name, StripLiterals(Render(ts[2..])));
  }

  lemma ReplaceSplit(name: string, tail: string)
    requires IsIdentifier(name) && name[0] == 's'
    ensures ReplaceAll("%" + (name + tail), HOLE, "") == name[1..] + ReplaceAll(tail, HOLE, "")
  {
    var s := "%" + (name + tail);
    Cons(name, tail);
    assert HoleAtStart(s) && s[2..] == name[1..] + tail;
    ReplaceStep(s);
    assert forall c :: c in name[1..] ==> c in name;
    ReplacePlain(name[1..], tail);
  }

  lemma ReadsConcat(a: string, b: string)
    ensures ReadsRows(a + b) <==> ReadsRows(a) || ReadsRows(b)
  {
    assert forall c :: c in a + b <==> c in a || c in b;
  }

  // ---- The terms that the test accepts ----

  /** A name that follows a percent sign as if both were a hole and a number. */
  predicate LikeHole(name: string) {
    name != "" && name[0] == 's' && forall c :: c in name[1..] ==> IsDigit(c)
  }

  predicate Misread(t: Token, u: Token) {
    t == Symbol('%') && u.Word? && LikeHole(u.name)
  }

  /** The token at `i` is no column, and no word unless it is misread. */
  predicate NamelessAt(ts: seq<Token>, i: nat)
    requires i < |ts|
  {
    !ts[i].Column? && (ts[i].Word? ==> i > 0 && Misread(ts[i - 1], ts[i]))
  }

  predicate Nameless(ts: seq<Token>) {
    forall i :: 0 <= i < |ts| ==> NamelessAt(ts, i)
  }

  lemma NamelessTail(ts: seq<Token>)
    requires ts != [] && !ts[0].Column? && !ts[0].Word? && !(|ts| > 1 && Misread(ts[0], ts[1]))
    ensures Nameless(ts) <==> Nameless(ts[1..])
  {
    var us := ts[1..];
    forall i | 0 <= i < |us|
      ensures NamelessAt(us, i) <==> NamelessAt(ts, i + 1)
    {
    }
    assert NamelessAt(ts, 0);
    forall i | 1 <= i < |ts|
      ensures NamelessAt(ts, i) <==> NamelessAt(us, i - 1)
    {
      assert NamelessAt(us, i - 1) <==> NamelessAt(ts, i - 1 + 1);
    }
  }

  lemma NamelessSplit(ts: seq<Token>)
    requires SplitsWord(ts)
    ensures Nameless(ts) <==> LikeHole(ts[1].name) && Nameless(ts[2..])
  {
    var us := ts[2..];
    assert NamelessAt(ts, 0) && (NamelessAt(ts, 1) <==> LikeHole(ts[1].name));
    forall i | 0 <= i < |us|
      ensures NamelessAt(us, i) <==> NamelessAt(ts, i + 2)
    {
      assert us[i] == ts[i + 2] && (i > 0 ==> us[i - 1] == ts[i + 1]);
    }
    forall i | 2 <= i < |ts|
      ensures NamelessAt(ts, i) <==> NamelessAt(us, i - 2)
    {
      assert NamelessAt(us, i - 2) <==> NamelessAt(ts, i - 2 + 2);
    }
  }

  lemma WordTail(name: string)
    requires IsIdentifier(name) && name[0] == 's'
    ensures ReadsRows(name[1..]) <==> !LikeHole(name)
  {
    assert forall c :: c in name[1..] ==> c in name;
  }

  /**
   * `_is_constant_sql` accepts a rendered term exactly when it holds no column,
   * and no other name but one misread as the end of a hole.
   */
  lemma {:induction false} ConstantIffMisread(ts: seq<Token>)
    requires ValidTerm(ts)
    ensures IsConstantSql(Render(ts)) <==> Nameless(ts)
    decreases |ts|
  {
    if ts != [] {
      ValidTail(ts);
      if SplitsWord(ts) {
        ValidTail(ts[1..]);
        assert ts[1..][1..] == ts[2..];
        ConstantIffMisread(ts[2..]);
        LeftOfSplit(ts);
        ReadsConcat(ts[1].name[1..], Left(ts[2..]));
        WordTail(ts[1].name);
        NamelessSplit(ts);
      } else if ts[0].Column? || ts[0].Word? {
        LeftOfName(ts);
        assert !NamelessAt(ts, 0);
      } else {
        ConstantIffMisread(ts[1..]);
        NamelessTail(ts);
        if ts[0].Symbol? {
          LeftOfSymbol(ts);
          ReadsConcat([ts[0].c], Left(ts[1..]));
        } else {
          LeftOfLiteral(ts);
        }
      }
    }
  }

  /** No word of the term is misread. */
  predicate Unmistakable(ts: seq<Token>) {
    forall i :: 0 < i < |ts| ==> !Misread(ts[i - 1], ts[i])
  }

  /** Then the test accepts it exactly when it holds neither a column nor any other name. */
  lemma ConstantIffNameless(ts: seq<Token>)
    requires ValidTerm(ts) && Unmistakable(ts)
    ensures IsConstantSql(Render(ts)) <==> !Refers(ts)
  {
    ConstantIffMisread(ts);
    forall i | 0 <= i < |ts|
      ensures NamelessAt(ts, i) <==> !ts[i].Column? && !ts[i].Word?
    {
      if i > 0 { assert !Misread(ts[i - 1], ts[i]); }
    }
  }

  /** The remainder of 5 by a bare column `s` is taken for a constant. */
  lemma RemainderByColumnIsMisread()
    ensures var ts := [Symbol('5'), Symbol('%'), Word("s")];
            ValidTerm(ts) && Refers(ts) && IsConstantSql(Render(ts))
  {
    var ts := [Symbol('5'), Symbol('%'), Word("s")];
    assert Misread(ts[1], ts[2]) && Word("s") in ts;
    ConstantIffMisread(ts);
  }

  // ---- What a term means for the rows ----

  type Row<V> = map<string, V>

  datatype Term<V> = Term(tokens: seq<Token>, params: seq<V>, descending: bool)

  /** How the database evaluates a term, given the columns it names. */
  type Evaluator<!V> = (seq<Token>, seq<V>, Row<V>) -> V

  function NamesOf(ts: seq<Token>): set<string> {
    if ts == [] then {}
    else (if ts[0].Column? || ts[0].Word? then {ts[0].name} else {}) + NamesOf(ts[1..])
  }

  /** The value of a term in a row: a term sees only the columns it names. */
  function ValueOf<V>(ev: Evaluator<V>, t: Term<V>, row: Row<V>): V {
    ev(t.tokens, t.params, Visible(NamesOf(t.tokens), row))
  }

  function Visible<V>(names: set<string>, row: Row<V>): Row<V> {
    map n | n in row && n in names :: row[n]
  }

  predicate Dropped<V>(t: Term<V>) {
    IsConstantSql(Render(t.tokens))
  }

  /** The terms that reach the statement. */
  function Kept<V>(terms: seq<Term<V>>): seq<Term<V>> {
    if terms == [] then []
    else (if Dropped(terms[0]) then [] else [terms[0]]) + Kept(terms[1..])
  }

  /** No term is dropped that names anything. */
  predicate Harmless<V>(terms: seq<Term<V>>) {
    forall i :: 0 <= i < |terms| && Dropped(terms[i]) ==> !Refers(terms[i].tokens)
  }

  /** Rendered terms without a misread word are harmless. */
  lemma UnmistakableIsHarmless<V>(terms: seq<Term<V>>)
    requires forall i :: 0 <= i < |terms| ==> ValidTerm(terms[i].tokens) && Unmistakable(terms[i].tokens)
    ensures Harmless(terms)
  {
    forall i | 0 <= i < |terms| && Dropped(terms[i])
      ensures !Refers(terms[i].tokens)
    {
      ConstantIffNameless(terms[i].tokens);
    }
  }

  lemma {:induction false} NamelessHasNoNames(ts: seq<Token>)
    requires !Refers(ts)
    ensures NamesOf(ts) == {}
  {
    if ts != [] {
      assert ts[0] in ts;
      assert forall t :: t in ts[1..] ==> t in ts;
      NamelessHasNoNames(ts[1..]);
    }
  }

  lemma NamelessIsConstant<V>(ev: Evaluator<V>, t: Term<V>, r: Row<V>, q: Row<V>)
    requires !Refers(t.tokens)
    ensures ValueOf(ev, t, r) == ValueOf(ev, t, q)
  {
    NamelessHasNoNames(t.tokens);
    assert Visible({}, r) == Visible({}, q);
  }

  // ---- ORDER BY ----

  /** Whether `r` comes strictly before `q`, for any comparison of values. */
  predicate Precedes<V(==)>(ev: Evaluator<V>, less: (V, V) -> bool, terms: seq<Term<V>>, r: Row<V>, q: Row<V>) {
    if terms == [] then false
    else
      var a, b := ValueOf(ev, terms[0], r), ValueOf(ev, terms[0], q);
      if a == b then Precedes(ev, less, terms[1..], r, q)
      else if terms[0].descending then less(b, a)
      else less(a, b)
  }

  /** The rows in order, ties in their original order. */
  function OrderedRows<V(==)>(ev: Evaluator<V>, less: (V, V) -> bool, terms: seq<Term<V>>, rows: seq<Row<V>>)
    : seq<Row<V>>
  {
    Sorted((r, q) => Precedes(ev, less, terms, r, q), rows)
  }

  lemma {:induction false} KeptPrecedes<V>(ev: Evaluator<V>, less: (V, V) -> bool, terms: seq<Term<V>>,
                                           r: Row<V>, q: Row<V>)
    requires Harmless(terms)
    ensures Precedes(ev, less, Kept(terms), r, q) == Precedes(ev, less, terms, r, q)
  {
    if terms != [] {
      KeptPrecedes(ev, less, terms[1..], r, q);
      if Dropped(terms[0]) {
        NamelessIsConstant(ev, terms[0], r, q);
        assert Kept(terms) == Kept(terms[1..]);
      } else {
        assert Kept(terms)[1..] == Kept(terms[1..]);
      }
    }
  }

  /** Dropping terms that name nothing leaves the order of every table as it was. */
  lemma OrderUnchanged<V>(ev: Evaluator<V>, less: (V, V) -> bool, terms: seq<Term<V>>, rows: seq<Row<V>>)
    requires Harmless(terms)
    ensures OrderedRows(ev, less, Kept(terms), rows) == OrderedRows(ev, less, terms, rows)
  {
    forall r: Row<V>, q: Row<V>
      ensures Precedes(ev, less, Kept(terms), r, q) == Precedes(ev, less, terms, r, q)
    {
      KeptPrecedes(ev, less, terms, r, q);
    }
    SortedSame((r, q) => Precedes(ev, less, Kept(terms), r, q), (r, q) => Precedes(ev, less, terms, r, q), rows);
  }

  /** An evaluation to which one term is the value of a column, and all others are equal. */
  function Probe(ts: seq<Token>, name: string): Evaluator<int> {
    (us: seq<Token>, ps: seq<int>, row: Row<int>) => if us == ts && name in row then row[name] else 0
  }

  const LESS: (int, int) -> bool := (a: int, b: int) => a < b

  /** The direction of the first term with these tokens. */
  predicate FirstDescends(terms: seq<Term<int>>, ts: seq<Token>) {
    terms != [] && if terms[0].tokens == ts then terms[0].descending else FirstDescends(terms[1..], ts)
  }

  lemma {:induction false} ProbePrecedes(terms: seq<Term<int>>, ts: seq<Token>, name: string, a: int, b: int)
    requires name in NamesOf(ts) && a != b && exists i :: 0 <= i < |terms| && terms[i].tokens == ts
    ensures Precedes(Probe(ts, name), LESS, terms, map[name := a], map[name := b])
         == if FirstDescends(terms, ts) then b < a else a < b
  {
    if terms[0].tokens != ts {
      var i :| 0 <= i < |terms| && terms[i].tokens == ts;
      assert terms[1..][i - 1].tokens == ts;
      ProbePrecedes(terms[1..], ts, name, a, b);
    }
  }

  lemma {:induction false} ProbeIsBlind(terms: seq<Term<int>>, ts: seq<Token>, name: string, r: Row<int>, q: Row<int>)
    requires forall t :: t in terms ==> t.tokens != ts
    ensures !Precedes(Probe(ts, name), LESS, terms, r, q)
  {
    if terms != [] {
      assert terms[0] in terms && forall t :: t in terms[1..] ==> t in terms;
      ProbeIsBlind(terms[1..], ts, name, r, q);
    }
  }

  lemma {:induction false} KeptMembers<V>(terms: seq<Term<V>>)
    ensures forall t :: t in Kept(terms) <==> t in terms && !Dropped(t)
  {
    if terms != [] {
      KeptMembers(terms[1..]);
      assert forall t :: t in terms <==> t == terms[0] || t in terms[1..];
    }
  }

  lemma {:induction false} SomeName(ts: seq<Token>) returns (name: string)
    requires Refers(ts)
    ensures name in NamesOf(ts)
  {
    if ts[0].Column? || ts[0].Word? {
      name := ts[0].name;
    } else {
      var t :| t in ts && (t.Column? || t.Word?);
      assert t in ts[1..];
      name := SomeName(ts[1..]);
    }
  }

  lemma SortedTwo<R>(before: (R, R) -> bool, r: R, q: R)
    ensures Sorted(before, [r, q]) == if before(q, r) then [q, r] else [r, q]
  {
    Single(q);
    assert [r, q][1..] == [q] && Sorted(before, [q]) == [q];
    assert Insert(before, r, [q]) == if before(q, r) then [q] + Insert(before, r, []) else [r] + [q];
  }

  /** A dropped term that names a column decides the order of two rows. */
  lemma DroppedNameShows(terms: seq<Term<int>>, i: nat)
    requires i < |terms| && Dropped(terms[i]) && Refers(terms[i].tokens)
    ensures exists ev: Evaluator<int>, less: (int, int) -> bool, rows: seq<Row<int>> ::
              OrderedRows(ev, less, Kept(terms), rows) != OrderedRows(ev, less, terms, rows)
  {
    var ts := terms[i].tokens;
    var name := SomeName(ts);
    var ev := Probe(ts, name);
    var a, b := if FirstDescends(terms, ts) then 0 else 1, if FirstDescends(terms, ts) then 1 else 0;
    var r, q: Row<int> := map[name := a], map[name := b];
    assert r[name] != q[name];
    KeptMembers(terms);
    ProbePrecedes(terms, ts, name, b, a);
    ProbeIsBlind(Kept(terms), ts, name, q, r);
    SortedTwo((x, y) => Precedes(ev, LESS, terms, x, y), r, q);
    SortedTwo((x, y) => Precedes(ev, LESS, Kept(terms), x, y), r, q);
    assert OrderedRows(ev, LESS, Kept(terms), [r, q]) != OrderedRows(ev, LESS, terms, [r, q]);
  }

  /** Dropping terms leaves every order as it was exactly when none of those dropped names anything. */
  lemma OrderUnchangedIff(terms: seq<Term<int>>)
    ensures Harmless(terms) <==>
              forall ev: Evaluator<int>, less: (int, int) -> bool, rows: seq<Row<int>> ::
                OrderedRows(ev, less, Kept(terms), rows) == OrderedRows(ev, less, terms, rows)
  {
    if Harmless(terms) {
      forall ev: Evaluator<int>, less: (int, int) -> bool, rows: seq<Row<int>>
        ensures OrderedRows(ev, less, Kept(terms), rows) == OrderedRows(ev, less, terms, rows)
      {
        OrderUnchanged(ev, less, terms, rows);
      }
    } else {
      var i :| 0 <= i < |terms| && Dropped(terms[i]) && Refers(terms[i].tokens);
      DroppedNameShows(terms, i);
    }
  }

  // ---- GROUP BY ----

  predicate SameGroup<V(==)>(ev: Evaluator<V>, terms: seq<Term<V>>, r: Row<V>, q: Row<V>) {
    terms == []
    || (ValueOf(ev, terms[0], r) == ValueOf(ev, terms[0], q) && SameGroup(ev, terms[1..], r, q))
  }

  /** The rows in the group of `r`, or those outside it. */
  function Select<V(==)>(ev: Evaluator<V>, terms: seq<Term<V>>, r: Row<V>, rows: seq<Row<V>>, inside: bool)
    : (s: seq<Row<V>>)
    ensures |s| <= |rows|
  {
    if rows == [] then []
    else
      (if SameGroup(ev, terms, r, rows[0]) == inside then [rows[0]] else [])
      + Select(ev, terms, r, rows[1..], inside)
  }

  function Partition<V(==)>(ev: Evaluator<V>, terms: seq<Term<V>>, rows: seq<Row<V>>): seq<seq<Row<V>>>
    decreases |rows|
  {
    if rows == [] then []
    else
      [[rows[0]] + Select(ev, terms, rows[0], rows[1..], true)]
      + Partition(ev, terms, Select(ev, terms, rows[0], rows[1..], false))
  }

  function Singletons<V>(rows: seq<Row<V>>): (gs: seq<seq<Row<V>>>)
    ensures |gs| == |rows| && forall i :: 0 <= i < |rows| ==> gs[i] == [rows[i]]
  {
    if rows == [] then [] else [[rows[0]]] + Singletons(rows[1..])
  }

  /**
   * The groups of rows that a query yields a row for. Without GROUP BY there is
   * exactly one if it aggregates, and otherwise every row stands for itself.
   */
  function Groups<V(==)>(ev: Evaluator<V>, aggregates: bool, terms: seq<Term<V>>, rows: seq<Row<V>>)
    : seq<seq<Row<V>>>
  {
    if terms != [] then Partition(ev, terms, rows)
    else if aggregates then [rows]
    else Singletons(rows)
  }

  lemma {:induction false} KeptSameGroup<V>(ev: Evaluator<V>, terms: seq<Term<V>>, r: Row<V>, q: Row<V>)
    requires Harmless(terms)
    ensures SameGroup(ev, Kept(terms), r, q) == SameGroup(ev, terms, r, q)
  {
    if terms != [] {
      KeptSameGroup(ev, terms[1..], r, q);
      if Dropped(terms[0]) {
        NamelessIsConstant(ev, terms[0], r, q);
        assert Kept(terms) == Kept(terms[1..]);
      } else {
        assert Kept(terms)[1..] == Kept(terms[1..]);
      }
    }
  }

  lemma {:induction false} KeptSelect<V>(ev: Evaluator<V>, terms: seq<Term<V>>, r: Row<V>, rows: seq<Row<V>>,
                                         inside: bool)
    requires Harmless(terms)
    ensures Select(ev, Kept(terms), r, rows, inside) == Select(ev, terms, r, rows, inside)
  {
    if rows != [] {
      KeptSameGroup(ev, terms, r, rows[0]);
      KeptSelect(ev, terms, r, rows[1..], inside);
    }
  }

  lemma {:induction false} KeptPartition<V>(ev: Evaluator<V>, terms: seq<Term<V>>, rows: seq<Row<V>>)
    requires Harmless(terms)
    ensures Partition(ev, Kept(terms), rows) == Partition(ev, terms, rows)
    decreases |rows|
  {
    if rows != [] {
      KeptSelect(ev, terms, rows[0], rows[1..], true);
      KeptSelect(ev, terms, rows[0], rows[1..], false);
      KeptPartition(ev, terms, Select(ev, terms, rows[0], rows[1..], false));
    }
  }

  lemma {:induction false} SelectAll<V>(ev: Evaluator<V>, r: Row<V>, rows: seq<Row<V>>)
    ensures Select(ev, [], r, rows, true) == rows && Select(ev, [], r, rows, false) == []
  {
    if rows != [] {
      SelectAll(ev, r, rows[1..]);
    }
  }

  /** Terms that are all dropped put every row into one group. */
  lemma ConstantPartition<V>(ev: Evaluator<V>, terms: seq<Term<V>>, rows: seq<Row<V>>)
    requires Harmless(terms) && Kept(terms) == []
    ensures Partition(ev, terms, rows) == if rows == [] then [] else [rows]
  {
    KeptPartition(ev, terms, rows);
    if rows != [] {
      SelectAll(ev, rows[0], rows[1..]);
      assert [rows[0]] + rows[1..] == rows;
      assert Partition(ev, [], rows) == [rows] + Partition(ev, [], []);
    }
  }

  /**
   * Dropping terms that name nothing leaves the groups as they were, unless all
   * of them are dropped: then an aggregate over an empty table gets a group it
   * did not have, and a query without aggregates falls apart into its rows.
   */
  lemma GroupsUnchanged<V>(ev: Evaluator<V>, aggregates: bool, terms: seq<Term<V>>, rows: seq<Row<V>>)
    requires Harmless(terms)
    ensures Groups(ev, aggregates, Kept(terms), rows) == Groups(ev, aggregates, terms, rows)
       <==> terms == [] || Kept(terms) != [] || (if aggregates then rows != [] else |rows| <= 1)
  {
    KeptPartition(ev, terms, rows);
    if terms != [] && Kept(terms) == [] {
      ConstantPartition(ev, terms, rows);
      if rows != [] {
        assert Singletons(rows)[0] == [rows[0]];
        assert |rows| == 1 ==> rows == [rows[0]] && Singletons(rows) == [rows];
      }
    }
  }

  lemma {:induction false} ProbeSeparates(terms: seq<Term<int>>, ts: seq<Token>, name: string, r: Row<int>, q: Row<int>)
    requires name in NamesOf(ts) && name in r && name in q && r[name] != q[name]
    requires exists i :: 0 <= i < |terms| && terms[i].tokens == ts
    ensures !SameGroup(Probe(ts, name), terms, r, q)
  {
    if terms[0].tokens != ts {
      var i :| 0 <= i < |terms| && terms[i].tokens == ts;
      assert terms[1..][i - 1].tokens == ts;
      ProbeSeparates(terms[1..], ts, name, r, q);
    }
  }

  lemma {:induction false} ProbeUnites(terms: seq<Term<int>>, ts: seq<Token>, name: string, r: Row<int>, q: Row<int>)
    requires forall t :: t in terms ==> t.tokens != ts
    ensures SameGroup(Probe(ts, name), terms, r, q)
  {
    if terms != [] {
      assert terms[0] in terms && forall t :: t in terms[1..] ==> t in terms;
      ProbeUnites(terms[1..], ts, name, r, q);
    }
  }

  lemma PartitionTwo<V>(ev: Evaluator<V>, terms: seq<Term<V>>, r: Row<V>, q: Row<V>)
    ensures Partition(ev, terms, [r, q]) == if SameGroup(ev, terms, r, q) then [[r, q]] else [[r], [q]]
  {
    var same := SameGroup(ev, terms, r, q);
    assert [r, q][1..] == [q] && [q][1..] == [];
    assert Select(ev, terms, r, [q], true) == if same then [q] else [];
    assert Select(ev, terms, r, [q], false) == if same then [] else [q];
    assert Partition(ev, terms, []) == [];
    assert Select(ev, terms, q, [], true) == [] && Select(ev, terms, q, [], false) == [];
    assert [q] + [] == [q] && [r] + [q] == [r, q] && [r] + [] == [r];
    assert Partition(ev, terms, [q]) == [[q] + []] + Partition(ev, terms, []);
    if same {
      assert Partition(ev, terms, [r, q]) == [[r] + [q]] + Partition(ev, terms, []);
    } else {
      assert Partition(ev, terms, [r, q]) == [[r] + []] + Partition(ev, terms, [q]);
    }
  }

  /** A dropped term that names a column separates two rows, which are one group without it. */
  lemma DroppedNameSeparates(terms: seq<Term<int>>, i: nat) returns (ev: Evaluator<int>, rows: seq<Row<int>>)
    requires i < |terms| && Dropped(terms[i]) && Refers(terms[i].tokens)
    ensures |rows| == 2 && Partition(ev, terms, rows) != [rows] && Partition(ev, Kept(terms), rows) == [rows]
  {
    var ts := terms[i].tokens;
    var name := SomeName(ts);
    ev := Probe(ts, name);
    var r, q: Row<int> := map[name := 0], map[name := 1];
    rows := [r, q];
    KeptMembers(terms);
    ProbeSeparates(terms, ts, name, r, q);
    ProbeUnites(Kept(terms), ts, name, r, q);
    PartitionTwo(ev, terms, r, q);
    PartitionTwo(ev, Kept(terms), r, q);
  }

  /** Over tables with rows, dropping terms leaves the groups of aggregates exactly when none of them names anything. */
  lemma GroupsOfAggregatesIff(terms: seq<Term<int>>)
    ensures Harmless(terms) <==>
              forall ev: Evaluator<int>, rows: seq<Row<int>> :: rows != [] ==>
                Groups(ev, true, Kept(terms), rows) == Groups(ev, true, terms, rows)
  {
    if Harmless(terms) {
      forall ev: Evaluator<int>, rows: seq<Row<int>> | rows != []
        ensures Groups(ev, true, Kept(terms), rows) == Groups(ev, true, terms, rows)
      {
        GroupsUnchanged(ev, true, terms, rows);
      }
    } else {
      var i :| 0 <= i < |terms| && Dropped(terms[i]) && Refers(terms[i].tokens);
      var ev, rows := DroppedNameSeparates(terms, i);
      assert Groups(ev, true, Kept(terms), rows) != Groups(ev, true, terms, rows);
    }
  }

  /** Dropping terms leaves the groups of every table exactly when some term is left and none dropped names anything. */
  lemma GroupsUnchangedIff(aggregates: bool, terms: seq<Term<int>>)
    ensures (terms == [] || (Kept(terms) != [] && Harmless(terms))) <==>
              forall ev: Evaluator<int>, rows: seq<Row<int>> ::
                Groups(ev, aggregates, Kept(terms), rows) == Groups(ev, aggregates, terms, rows)
  {
    if terms == [] || (Kept(terms) != [] && Harmless(terms)) {
      forall ev: Evaluator<int>, rows: seq<Row<int>>
        ensures Groups(ev, aggregates, Kept(terms), rows) == Groups(ev, aggregates, terms, rows)
      {
        GroupsUnchanged(ev, aggregates, terms, rows);
      }
    } else if Kept(terms) != [] {
      var i :| 0 <= i < |terms| && Dropped(terms[i]) && Refers(terms[i].tokens);
      var ev, rows := DroppedNameSeparates(terms, i);
      assert Groups(ev, aggregates, Kept(terms), rows) != Groups(ev, aggregates, terms, rows);
    } else {
      var ev: Evaluator<int>, row: Row<int> := Probe([], ""), map[];
      if aggregates {
        assert Groups(ev, true, [], []) != Groups(ev, true, terms, []);
      } else {
        EqualRowsAreOneGroup(ev, terms, row);
        PartitionTwo(ev, terms, row, row);
        assert |Singletons([row, row])| == 2;
        assert Groups(ev, false, [], [row, row]) != Groups(ev, false, terms, [row, row]);
      }
    }
  }

  lemma {:induction false} EqualRowsAreOneGroup<V>(ev: Evaluator<V>, terms: seq<Term<V>>, r: Row<V>)
    ensures SameGroup(ev, terms, r, r)
  {
    if terms != [] {
      EqualRowsAreOneGroup(ev, terms[1..], r);
    }
  }
}
