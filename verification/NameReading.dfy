/**
 * Reading a named statement back the way a YQL lexer does: names count only
 * where they stand in the code, not in literals, quoted names or comments.
 */
module NameReading {
  import opened Lists
  import opened Placeholders
  import opened PyText

  // ---- The lexer ----

  /** Whether a backslash in a literal escapes the character after it, as well as a doubled quote. */
  datatype Dialect = Ansi | Backslash

  /**
   * Where the lexer stands; a minus, a slash or an asterisk may be half of a
   * comment sign, an at sign half of the `@@` around a literal of several lines.
   */
  datatype Mode =
    | Code
    | Minus
    | Slash
    | Quoted(quote: char)
    | Escaped(quote: char)
    | LineComment
    | BlockComment
    | Asterisk
    | At
    | Multiline
    | MultilineAt

  predicate Outside(m: Mode) {
    m.Code? || m.Minus? || m.Slash? || m.At?
  }

  predicate IsQuote(c: char) {
    c == '\'' || c == '"' || c == '`'
  }

  /** The mode after a character; a doubled quote closes a literal and opens it again. */
  function Next(d: Dialect, m: Mode, c: char): Mode {
    match m
    case Quoted(q) => if c == q then Code else if c == '\\' && d.Backslash? then Escaped(q) else m
    case Escaped(q) => Quoted(q)
    case LineComment => if c == '\n' then Code else LineComment
    case BlockComment => if c == '*' then Asterisk else BlockComment
    case Asterisk => if c == '/' then Code else if c == '*' then Asterisk else BlockComment
    case Multiline => if c == '@' then MultilineAt else Multiline
    case MultilineAt => if c == '@' then Code else Multiline
    case _ =>
      if IsQuote(c) then Quoted(c)
      else if c == '-' then (if m.Minus? then LineComment else Minus)
      else if c == '*' && m.Slash? then BlockComment
      else if c == '/' then Slash
      else if c == '@' then (if m.At? then Multiline else At)
      else Code
  }

  function WordRun(s: string): (n: nat)
    ensures n <= |s| && (n < |s| ==> !IsWordChar(s[n]))
  {
    if s != "" && IsWordChar(s[0]) then 1 + WordRun(s[1..]) else 0
  }

  /** In the code, `$element_` and the longest identifier that continues it are one name. */
  function ReadNames(d: Dialect, m: Mode, s: string): seq<Piece<string>>
    decreases |s|
  {
    if s == "" then []
    else if Outside(m) && PREFIX <= s then
      var n := |PREFIX| + WordRun(s[|PREFIX|..]);
      [Par(s[..n])] + ReadNames(d, Code, s[n..])
    else [Ch(s[0])] + ReadNames(d, Next(d, m, s[0]), s[1..])
  }

  /** Every hole stands in the code, and no character follows it that would extend its name. */
  predicate ClearHoles(d: Dialect, m: Mode, s: string)
    decreases |s|
  {
    if s == "" then true
    else if HoleAtStart(s) then
      Outside(m) && !(|s| > 2 && IsWordChar(s[2])) && ClearHoles(d, Code, s[2..])
    else ClearHoles(d, Next(d, m, s[0]), s[1..])
  }

  // ---- The named text ----

  lemma {:induction false} WordRunSplit(d: string, t: string)
    requires forall c :: c in d ==> IsWordChar(c)
    ensures WordRun(d + t) == |d| + WordRun(t)
  {
    if d == "" {
      assert d + t == t;
    } else {
      assert (d + t)[1..] == d[1..] + t;
      WordRunSplit(d[1..], t);
    }
  }

  /** A prefix of the named text without `$` was there before the naming. */
  lemma {:induction false} PlainPrefix(p: string, s: string, k: nat)
    requires '$' !in p && p <= NameHoles(s, k)
    ensures p <= s
  {
    if p != "" {
      assert s != "";
      assert p[0] == NameHoles(s, k)[0];
      NamedHead(s, k);
      assert !HoleAtStart(s);
      assert p[1..] <= NameHoles(s, k)[1..];
      PlainPrefix(p[1..], s[1..], k);
      assert p == [p[0]] + p[1..] && s == [s[0]] + s[1..];
    }
  }

  lemma FindAgain(s: string, i: nat, j: nat)
    requires i + j <= |s| && PREFIX <= s[i..][j..]
    ensures Contains(s, PREFIX)
  {
    assert s[i..][j..] == s[i + j..];
    FindIsFirst(s, PREFIX, i + j);
  }

  lemma ContainsTail(s: string, i: nat)
    requires i <= |s| && !Contains(s, PREFIX)
    ensures !Contains(s[i..], PREFIX)
  {
    var j := Find(s[i..], PREFIX);
    if j >= 0 {
      FindAgain(s, i, j);
    }
  }

  /** The text after a named hole does not run into its name. */
  lemma NameEnds(s: string, k: nat)
    ensures WordRun(NameHoles(s, k)) == 0 <==> !(s != "" && !HoleAtStart(s) && IsWordChar(s[0]))
  {
    if HoleAtStart(s) {
      assert NameHoles(s, k)[0] == '$';
    }
  }

  lemma PrefixCons(p: string, s: string)
    requires p != "" && s != "" && p[0] == s[0] && p[1..] <= s[1..]
    ensures p <= s
  {
    assert p == [p[0]] + p[1..] && s == [s[0]] + s[1..];
  }

  /** Naming `$element_` into a text that lacks it puts it only where the holes were. */
  lemma NoAccidentalName(s: string, k: nat)
    requires !Contains(s, PREFIX) && s != "" && !HoleAtStart(s)
    ensures !(PREFIX <= NameHoles(s, k))
  {
    NamedHead(s, k);
    if PREFIX <= NameHoles(s, k) {
      assert PREFIX[1..] <= NameHoles(s, k)[1..];
      PlainPrefix(PREFIX[1..], s[1..], k);
      PrefixCons(PREFIX, s);
    }
  }

  /** The first name that is read, and what is left to read. */
  lemma {:induction false} ReadFirstName(d: Dialect, m: Mode, s: string, k: nat)
    requires HoleAtStart(s) && Outside(m)
    ensures var rest := NameHoles(s[2..], k + 1);
            var n := WordRun(rest);
            ReadNames(d, m, NameHoles(s, k)) == [Par(Name(k) + rest[..n])] + ReadNames(d, Code, rest[n..])
  {
    var rest := NameHoles(s[2..], k + 1);
    var t, n := Name(k) + rest, |Name(k)| + WordRun(rest);
    assert PREFIX <= t && n == |PREFIX| + WordRun(t[|PREFIX|..]) by {
      DropPrefix(PREFIX, Decimal(k), rest);
      WordRunSplit(Decimal(k), rest);
    }
    ReadPrefixed(d, m, t, n);
    assert t[..n] == Name(k) + rest[..WordRun(rest)] && t[n..] == rest[WordRun(rest)..] by {
      SplitAt(Name(k), rest, WordRun(rest));
    }
  }

  lemma {:induction false} ReadPrefixed(d: Dialect, m: Mode, s: string, n: nat)
    requires Outside(m) && PREFIX <= s && n == |PREFIX| + WordRun(s[|PREFIX|..])
    ensures n <= |s| && ReadNames(d, m, s) == [Par(s[..n])] + ReadNames(d, Code, s[n..])
  {
  }

  lemma DropPrefix(p: string, d: string, rest: string)
    ensures p <= p + d + rest && (p + d + rest)[|p|..] == d + rest
  {
  }

  // ---- What the database sees ----

  predicate AllBound<B>(pieces: seq<Piece<string>>, binds: map<string, B>) {
    forall x :: x in pieces ==> x.Par? ==> x.p in binds
  }

  /** The names that are read, looked up in the dictionary. */
  function LookUp<B>(pieces: seq<Piece<string>>, binds: map<string, B>): (ps: seq<Piece<B>>)
    requires AllBound(pieces, binds)
    ensures |ps| == |pieces|
  {
    if pieces == [] then []
    else
      var x := pieces[0];
      [if x.Par? then Par(binds[x.p]) else Ch(x.c)] + LookUp(pieces[1..], binds)
  }

  /** Every name is bound, and the pieces with the bound values in place are `meaning`. */
  predicate LooksUpTo<B(==)>(pieces: seq<Piece<string>>, binds: map<string, B>, meaning: seq<Piece<B>>) {
    AllBound(pieces, binds) && LookUp(pieces, binds) == meaning
  }

  lemma LooksUpToCons<B>(x: Piece<string>, xs: seq<Piece<string>>, binds: map<string, B>,
                         y: Piece<B>, ys: seq<Piece<B>>)
    ensures LooksUpTo([x] + xs, binds, [y] + ys)
       <==> (if x.Par? then x.p in binds && y == Par(binds[x.p]) else y == Ch(x.c)) && LooksUpTo(xs, binds, ys)
  {
    var all := [x] + xs;
    assert all[0] == x && all[1..] == xs && x in all && forall z :: z in all <==> z == x || z in xs;
    assert ([y] + ys)[0] == y && ([y] + ys)[1..] == ys;
    if AllBound(all, binds) {
      assert AllBound(xs, binds);
    }
  }

  /** The names of the holes, from the k-th on, are bound to these values. */
  predicate Binds<B(==)>(binds: map<string, B>, k: nat, bs: seq<B>) {
    var names := Names(k, |bs|);
    forall i :: 0 <= i < |bs| ==> names[i] in binds && binds[names[i]] == bs[i]
  }

  lemma BindsTail<B>(binds: map<string, B>, k: nat, bs: seq<B>)
    requires Binds(binds, k, bs) && bs != []
    ensures Name(k) in binds && binds[Name(k)] == bs[0] && Binds(binds, k + 1, bs[1..])
  {
    var names := Names(k, |bs|);
    assert names[0] == Name(k) && names[1..] == Names(k + 1, |bs| - 1);
    assert forall i :: 0 <= i < |bs| - 1 ==> names[1..][i] == names[i + 1] && bs[1..][i] == bs[i + 1];
  }

  /** A name that swallows text: what should follow it is missing. */
  lemma {:induction false} SwallowedIsMissing<B>(d: Dialect, s: string, k: nat, binds: map<string, B>, bs: seq<B>)
    requires s != "" && !HoleAtStart(s) && IsWordChar(s[0]) && |bs| == HoleCount(s)
    ensures var rest := NameHoles(s, k);
            !LooksUpTo(ReadNames(d, Code, rest[WordRun(rest)..]), binds, Fill(s, bs))
  {
    var rest := NameHoles(s, k);
    var left := rest[WordRun(rest)..];
    var read := ReadNames(d, Code, left);
    assert Fill(s, bs)[0] == Ch(s[0]);
    if AllBound(read, binds) && read != [] {
      assert LookUp(read, binds)[0] == (if read[0].Par? then Par(binds[read[0].p]) else Ch(read[0].c));
      assert read[0].Ch? ==> read[0].c == left[0] && !IsWordChar(left[0]);
    }
  }

  /**
   * The named text, with the names looked up, is the text with the values in
   * place of its holes, exactly when every hole is clear.
   */
  lemma {:induction false} NamedReads<B>(d: Dialect, m: Mode, s: string, k: nat, binds: map<string, B>, bs: seq<B>)
    requires !Contains(s, PREFIX) && |bs| == HoleCount(s) && Binds(binds, k, bs)
    ensures LooksUpTo(ReadNames(d, m, NameHoles(s, k)), binds, Fill(s, bs)) <==> ClearHoles(d, m, s)
    decreases |s|
  {
    if s == "" {
    } else if HoleAtStart(s) {
      if Outside(m) {
        NamedReadsHole(d, m, s, k, binds, bs);
      } else {
        HiddenHole(d, m, s, k, binds, bs);
      }
    } else {
      ContainsTail(s, 1);
      NamedReads(d, Next(d, m, s[0]), s[1..], k, binds, bs);
      NoAccidentalName(s, k);
      NamedHead(s, k);
      LooksUpToCons(Ch(s[0]), ReadNames(d, Next(d, m, s[0]), NameHoles(s[1..], k)), binds, Ch(s[0]), Fill(s[1..], bs));
    }
  }

  /** A hole inside a literal, a quoted name or a comment is read as text. */
  lemma {:induction false} HiddenHole<B>(d: Dialect, m: Mode, s: string, k: nat, binds: map<string, B>, bs: seq<B>)
    requires HoleAtStart(s) && !Outside(m) && |bs| == HoleCount(s)
    ensures !LooksUpTo(ReadNames(d, m, NameHoles(s, k)), binds, Fill(s, bs))
  {
    var named := NameHoles(s, k);
    var read := ReadNames(d, Next(d, m, named[0]), named[1..]);
    LooksUpToCons(Ch(named[0]), read, binds, Par(bs[0]), Fill(s[2..], bs[1..]));
  }

  lemma {:induction false} NamedReadsHole<B>(d: Dialect, m: Mode, s: string, k: nat, binds: map<string, B>, bs: seq<B>)
    requires HoleAtStart(s) && Outside(m)
    requires !Contains(s, PREFIX) && |bs| == HoleCount(s) && Binds(binds, k, bs)
    ensures LooksUpTo(ReadNames(d, m, NameHoles(s, k)), binds, Fill(s, bs)) <==> ClearHoles(d, m, s)
    decreases |s|, 0
  {
    var tail, rest := s[2..], NameHoles(s[2..], k + 1);
    var n := WordRun(rest);
    ContainsTail(s, 2);
    BindsTail(binds, k, bs);
    ReadFirstName(d, m, s, k);
    NameEnds(tail, k + 1);
    LooksUpToCons(Par(Name(k) + rest[..n]), ReadNames(d, Code, rest[n..]), binds, Par(bs[0]), Fill(tail, bs[1..]));
    if n == 0 {
      assert Name(k) + rest[..n] == Name(k) && rest[n..] == rest;
      NamedReads(d, Code, tail, k + 1, binds, bs[1..]);
    } else {
      SwallowedIsMissing(d, tail, k + 1, binds, bs[1..]);
    }
  }

  // ---- Reading the names themselves ----

  lemma {:induction false} LookUpIdentity(ps: seq<Piece<string>>, names: map<string, string>)
    requires AllBound(ps, names) && forall n :: n in names ==> names[n] == n
    ensures LookUp(ps, names) == ps
  {
    if ps != [] {
      LookUpIdentity(ps[1..], names);
      assert ps[0] in ps;
      assert ps == [ps[0]] + ps[1..];
    }
  }

  lemma {:induction false} FilledNames(s: string, names: seq<string>)
    requires |names| == HoleCount(s)
    ensures forall x :: x in Fill(s, names) ==> x.Par? ==> x.p in names
  {
    if s == "" {
    } else if HoleAtStart(s) {
      FilledNames(s[2..], names[1..]);
    } else {
      FilledNames(s[1..], names);
    }
  }

  /**
   * The k-th hole is read back as the k-th name, everything else as it was,
   * exactly when every hole is clear.
   */
  lemma NamesReadBack(d: Dialect, m: Mode, s: string, k: nat)
    requires !Contains(s, PREFIX)
    ensures ReadNames(d, m, NameHoles(s, k)) == Fill(s, Names(k, HoleCount(s))) <==> ClearHoles(d, m, s)
  {
    var names := Names(k, HoleCount(s));
    var id := map n | n in names :: n;
    NamedReads(d, m, s, k, id, names);
    var read := ReadNames(d, m, NameHoles(s, k));
    FilledNames(s, names);
    if AllBound(read, id) {
      LookUpIdentity(read, id);
    }
  }

  /** A hole directly before a digit: the digit is swallowed by the name. */
  lemma HoleBeforeDigitIsLost(d: Dialect)
    ensures ReadNames(d, Code, NameHoles("%s0", 1)) != Fill("%s0", [Name(1)])
  {
    assert "%s0"[2..] == "0" && "0"[1..] == "";
    assert Find("%s0", PREFIX) < 0;
    assert Names(1, 1) == [Name(1)];
    NamesReadBack(d, Code, "%s0", 1);
  }

  /** A hole in a literal: the name is part of the literal. */
  lemma QuotedHoleIsLost(d: Dialect)
    ensures ReadNames(d, Code, NameHoles("'%s'", 1)) != Fill("'%s'", [Name(1)])
  {
    assert "'%s'"[1..] == "%s'" && "%s'"[2..] == "'" && "'"[1..] == "";
    assert Find("'%s'", PREFIX) < 0;
    assert Names(1, 1) == [Name(1)];
    NamesReadBack(d, Code, "'%s'", 1);
  }

  // ---- Reading the values ----

  /** The database reads the named statement as `meaning`. */
  predicate ReadsAs<B(==)>(d: Dialect, named: string, binds: map<string, B>, meaning: seq<Piece<B>>) {
    LooksUpTo(ReadNames(d, Code, named), binds, meaning)
  }

  /**
   * The named statement with its dictionary means what the text and its list
   * meant, exactly when every hole is clear.
   */
  lemma NamedMeaning<B>(d: Dialect, s: string, bs: seq<B>)
    requires !Contains(s, PREFIX) && |bs| == HoleCount(s)
    ensures ReadsAs(d, NameHoles(s, 1), Bindings(Names(1, HoleCount(s)), bs), Fill(s, bs)) <==> ClearHoles(d, Code, s)
  {
    var names := Names(1, HoleCount(s));
    forall i | 0 <= i < |names|
      ensures names[i] in Bindings(names, bs) && Bindings(names, bs)[names[i]] == bs[i]
    {
      BindingsAt(names, bs, i);
    }
    NamedReads(d, Code, s, 1, Bindings(names, bs), bs);
  }
}
