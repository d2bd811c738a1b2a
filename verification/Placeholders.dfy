/**
 * Naming the `%s` placeholders of a finished statement (`_replace_placeholders`)
 * and the dictionary of its names.
 */
module Placeholders {
  import opened Lists
  import opened PyText

  const HOLE := "%s"
  const PREFIX := "$element_"

  /** A statement seen without its encoding: characters, and parameters in place. */
  datatype Piece<P> = Ch(c: char) | Par(p: P)

  predicate HoleAtStart(s: string) {
    |s| >= 2 && s[0] == '%' && s[1] == 's'
  }

  function HoleCount(s: string): nat {
    if s == "" then 0
    else if HoleAtStart(s) then 1 + HoleCount(s[2..])
    else HoleCount(s[1..])
  }

  /** The text `s` with its k-th hole standing for `ps[k]`. */
  function Fill<P>(s: string, ps: seq<P>): seq<Piece<P>>
    requires |ps| == HoleCount(s)
  {
    if s == "" then []
    else if HoleAtStart(s) then [Par(ps[0])] + Fill(s[2..], ps[1..])
    else [Ch(s[0])] + Fill(s[1..], ps)
  }

  /** `s` ends in a percent sign, which a following `s` would turn into a hole. */
  predicate EndsOpen(s: string) {
    s != "" && s[|s| - 1] == '%'
  }

  lemma {:induction false} HoleCountConcat(a: string, b: string)
    requires !EndsOpen(a)
    ensures HoleCount(a + b) == HoleCount(a) + HoleCount(b)
  {
    if a == "" {
      assert a + b == b;
    } else if HoleAtStart(a) {
      assert (a + b)[2..] == a[2..] + b;
      HoleCountConcat(a[2..], b);
    } else {
      assert (a + b)[1..] == a[1..] + b;
      HoleCountConcat(a[1..], b);
    }
  }

  /** Texts and their parameter lists may be concatenated side by side. */
  lemma {:induction false} FillConcat<P>(a: string, b: string, pa: seq<P>, pb: seq<P>)
    requires !EndsOpen(a) && |pa| == HoleCount(a) && |pb| == HoleCount(b)
    ensures HoleCount(a + b) == |pa + pb|
    ensures Fill(a + b, pa + pb) == Fill(a, pa) + Fill(b, pb)
  {
    HoleCountConcat(a, b);
    if a == "" {
      Unit(b);
      Unit(pb);
      Unit(Fill(b, pb));
    } else if HoleAtStart(a) {
      assert (a + b)[2..] == a[2..] + b;
      Cons(pa, pb);
      FillConcat(a[2..], b, pa[1..], pb);
      Assoc([Par(pa[0])], Fill(a[2..], pa[1..]), Fill(b, pb));
    } else {
      Cons(a, b);
      FillConcat(a[1..], b, pa, pb);
      Assoc([Ch(a[0])], Fill(a[1..], pa), Fill(b, pb));
    }
  }

  // ---- Naming the holes ----

  function Name(k: nat): string {
    PREFIX + Decimal(k)
  }

  lemma NamesDistinct(i: nat, j: nat)
    ensures Name(i) == Name(j) ==> i == j
  {
    NumeralOfDecimal(i);
    NumeralOfDecimal(j);
    if Name(i) == Name(j) {
      assert Decimal(i) == Name(i)[|PREFIX|..] == Name(j)[|PREFIX|..] == Decimal(j);
    }
  }

  /** The names `Name(k)`, `Name(k + 1)`, ... of `n` consecutive holes. */
  function Names(k: nat, n: nat): (ns: seq<string>)
    ensures |ns| == n && forall i :: 0 <= i < n ==> ns[i] == Name(k + i)
    decreases n
  {
    if n == 0 then [] else [Name(k)] + Names(k + 1, n - 1)
  }

  /** A single left-to-right pass that numbers the holes from `k`. */
  function NameHoles(s: string, k: nat): string {
    if s == "" then ""
    else if HoleAtStart(s) then Name(k) + NameHoles(s[2..], k + 1)
    else [s[0]] + NameHoles(s[1..], k)
  }

  lemma HoleStarts(s: string)
    ensures HOLE <= s <==> HoleAtStart(s)
  {
    if HoleAtStart(s) {
      assert s[..2] == HOLE;
    }
  }

  lemma {:induction false} FindSkips(a: string, b: string)
    requires HoleCount(a) == 0 && !EndsOpen(a)
    ensures Find(a + b, HOLE) == if Find(b, HOLE) < 0 then -1 else |a| + Find(b, HOLE)
  {
    if a == "" {
      assert a + b == b;
    } else {
      assert (a + b)[1..] == a[1..] + b;
      FindSkips(a[1..], b);
      HoleStarts(a + b);
    }
  }

  /** What `Find` says about the holes before and after the position it returns. */
  lemma {:induction false} FirstHole(s: string)
    ensures Contains(s, HOLE) <==> HoleCount(s) > 0
    ensures var i := Find(s, HOLE);
            i >= 0 ==> HoleCount(s[..i]) == 0 && HoleCount(s) == 1 + HoleCount(s[i + 2..])
  {
    HoleStarts(s);
    if s == "" || HoleAtStart(s) {
    } else {
      FirstHole(s[1..]);
      var i := Find(s, HOLE);
      if i >= 0 {
        assert s[1..][i - 1 + 2..] == s[i + 2..];
        assert s[..i][1..] == s[1..][..i - 1];
      }
    }
  }

  /** The single pass copies everything up to the first hole. */
  lemma {:induction false} NameSkips(s: string, i: nat, k: nat)
    requires i <= |s| && (Find(s, HOLE) < 0 || i <= Find(s, HOLE))
    ensures NameHoles(s, k) == s[..i] + NameHoles(s[i..], k)
  {
    if i == 0 {
      assert s[..0] == "" && s[0..] == s;
      Unit(NameHoles(s, k));
    } else {
      HoleStarts(s);
      NameSkips(s[1..], i - 1, k);
      NamedHead(s, k);
      var t := NameHoles(s[i..], k);
      SplitHead(s, i);
      assert NameHoles(s, k) == [s[0]] + NameHoles(s[1..], k);
      Assoc([s[0]], s[1..][..i - 1], t);
    }
  }

  lemma NamedHead(s: string, k: nat)
    requires s != ""
    ensures NameHoles(s, k) != ""
    ensures if HoleAtStart(s) then NameHoles(s, k)[0] == '$'
            else NameHoles(s, k)[0] == s[0] && NameHoles(s, k)[1..] == NameHoles(s[1..], k)
  {
  }

  lemma SplitHead(s: string, i: nat)
    requires 1 <= i <= |s|
    ensures s[1..][i - 1..] == s[i..] && s[..i] == [s[0]] + s[1..][..i - 1]
  {
  }

  lemma NameFirstHole(s: string, k: nat)
    requires Find(s, HOLE) >= 0
    ensures var i := Find(s, HOLE);
            NameHoles(s, k) == s[..i] + (Name(k) + NameHoles(s[i + 2..], k + 1))
  {
    var i := Find(s, HOLE);
    NameSkips(s, i, k);
    HoleStarts(s[i..]);
    assert s[i..][2..] == s[i + 2..];
  }

  lemma NameHasNoHole(pre: string, k: nat)
    requires HoleCount(pre) == 0
    ensures HoleCount(pre + Name(k)) == 0 && !EndsOpen(pre + Name(k))
  {
    var n := Name(k);
    assert n[|n| - 1] in Decimal(k);
    NoHoleAdded(pre, n);
  }

  lemma NoHoleAdded(pre: string, n: string)
    requires HoleCount(pre) == 0 && n != "" && n[0] != 's' && '%' !in n
    ensures HoleCount(pre + n) == 0 && !EndsOpen(pre + n)
  {
    PercentFree(n);
    if EndsOpen(pre) {
      var p := pre[..|pre| - 1];
      assert pre == p + ['%'];
      assert pre + n == p + (['%'] + n);
      assert (['%'] + n)[1..] == n;
      HoleCountPrefix(p, ['%'] + n, ['%']);
    } else {
      HoleCountConcat(pre, n);
    }
  }

  lemma {:induction false} PercentFree(s: string)
    requires '%' !in s
    ensures HoleCount(s) == 0
  {
    if s != "" {
      PercentFree(s[1..]);
    }
  }

  /** What follows `a` decides the holes of `a + b` only through its first character. */
  lemma {:induction false} HoleCountPrefix(a: string, b: string, c: string)
    requires HoleCount(a + c) == 0 && b != "" && c != "" && b[0] == c[0] && HoleCount(b) == 0
    ensures HoleCount(a + b) == 0
  {
    if a == "" {
      assert a + b == b;
    } else {
      assert (a + b)[1..] == a[1..] + b && (a + c)[1..] == a[1..] + c;
      assert (a + b)[0] == (a + c)[0] && (a + b)[1] == (a + c)[1];
      HoleCountPrefix(a[1..], b, c);
    }
  }

  /**
   * `_replace_placeholders`: rescan and replace the first hole until none is left.
   * It terminates, and equals the single pass `NameHoles`.
   */
  method ReplacePlaceholders(sql: string) returns (named: string, rows: seq<string>)
    ensures named == NameHoles(sql, 1)
    ensures rows == Names(1, HoleCount(sql))
  {
    named, rows := sql, [];
    var counter := 1;
    ghost var done, rest := "", sql;
    while Contains(named, HOLE)
      invariant named == done + rest
      invariant HoleCount(done) == 0 && !EndsOpen(done)
      invariant NameHoles(sql, 1) == done + NameHoles(rest, counter)
      invariant counter >= 1 && rows == Names(1, counter - 1)
      invariant counter - 1 + HoleCount(rest) == HoleCount(sql)
      decreases HoleCount(rest)
    {
      ghost var i := Find(rest, HOLE);
      var name := Name(counter);
      LoopStep(done, rest, counter);
      named := ReplaceFirst(named, HOLE, name);
      rows := rows + [name];
      NamesSnoc(counter);
      done, rest := done + rest[..i] + name, rest[i + 2..];
      counter := counter + 1;
    }
    LoopEnd(done, rest, counter);
  }

  lemma LoopStep(done: string, rest: string, k: nat)
    requires HoleCount(done) == 0 && !EndsOpen(done) && Contains(done + rest, HOLE)
    ensures Find(rest, HOLE) >= 0
    ensures var i := Find(rest, HOLE);
            var done' := done + rest[..i] + Name(k);
            && ReplaceFirst(done + rest, HOLE, Name(k)) == done' + rest[i + 2..]
            && HoleCount(done') == 0 && !EndsOpen(done')
            && HoleCount(rest) == 1 + HoleCount(rest[i + 2..])
            && done + NameHoles(rest, k) == done' + NameHoles(rest[i + 2..], k + 1)
  {
    FindSkips(done, rest);
    ReplaceAfter(done, rest, Name(k));
    StepNames(done, rest, k);
    StepCounts(done, rest, k);
  }

  lemma LoopEnd(done: string, rest: string, k: nat)
    requires HoleCount(done) == 0 && !EndsOpen(done) && !Contains(done + rest, HOLE)
    ensures HoleCount(rest) == 0 && NameHoles(rest, k) == rest
  {
    FindSkips(done, rest);
    FirstHole(rest);
    NameSkips(rest, |rest|, k);
    assert rest[|rest|..] == "" && rest[..|rest|] == rest;
    Unit(rest);
  }

  /** One iteration moves the text up to and including the first hole to the done part. */
  lemma StepNames(done: string, rest: string, k: nat)
    requires Find(rest, HOLE) >= 0
    ensures var i := Find(rest, HOLE);
            done + NameHoles(rest, k) == (done + rest[..i] + Name(k)) + NameHoles(rest[i + 2..], k + 1)
  {
    var i := Find(rest, HOLE);
    NameFirstHole(rest, k);
    Reassociate(done, rest[..i], Name(k), NameHoles(rest[i + 2..], k + 1));
  }

  lemma Reassociate(a: string, b: string, c: string, d: string)
    ensures a + (b + (c + d)) == (a + b + c) + d
  {
  }

  lemma StepCounts(done: string, rest: string, k: nat)
    requires HoleCount(done) == 0 && !EndsOpen(done) && Find(rest, HOLE) >= 0
    ensures var i := Find(rest, HOLE);
            var done' := done + rest[..i] + Name(k);
            && HoleCount(done') == 0 && !EndsOpen(done')
            && HoleCount(rest) == 1 + HoleCount(rest[i + 2..])
  {
    var i := Find(rest, HOLE);
    FirstHole(rest);
    HoleCountConcat(done, rest[..i]);
    NameHasNoHole(done + rest[..i], k);
  }

  lemma ReplaceAfter(done: string, rest: string, name: string)
    requires HoleCount(done) == 0 && !EndsOpen(done)
    requires Find(rest, HOLE) >= 0
    ensures var i := Find(rest, HOLE);
            ReplaceFirst(done + rest, HOLE, name) == done + rest[..i] + name + rest[i + 2..]
  {
    FindSkips(done, rest);
    ReplaceAt(done + rest, name, |done| + Find(rest, HOLE));
    SpliceAfter(done, rest, Find(rest, HOLE), name);
  }

  lemma SpliceAfter(a: string, b: string, i: nat, name: string)
    requires i + 2 <= |b|
    ensures (a + b)[..|a| + i] + name + (a + b)[|a| + i + 2..] == a + b[..i] + name + b[i + 2..]
  {
    assert (a + b)[..|a| + i] == a + b[..i] by { SplitAt(a, b, i); }
    assert (a + b)[|a| + i + 2..] == b[i + 2..] by { SplitAt(a, b, i + 2); }
  }

  lemma ReplaceAt(s: string, name: string, i: nat)
    requires Find(s, HOLE) == i
    ensures i + 2 <= |s| && ReplaceFirst(s, HOLE, name) == s[..i] + name + s[i + 2..]
  {
  }

  lemma NamesSnoc(k: nat)
    requires k >= 1
    ensures Names(1, k - 1) + [Name(k)] == Names(1, k)
  {
  }

  // ---- Binding the names ----

  /** The dictionary of a statement: the k-th name stands for the k-th resolved value. */
  function Bindings<B>(rows: seq<string>, resolved: seq<B>): map<string, B>
    requires |rows| <= |resolved|
  {
    if rows == [] then map[]
    else var n := |rows| - 1; Bindings(rows[..n], resolved)[rows[n] := resolved[n]]
  }

  lemma {:induction false} BindingsAt<B>(rows: seq<string>, resolved: seq<B>, i: nat)
    requires i < |rows| <= |resolved| && rows == Names(1, |rows|)
    ensures rows[i] in Bindings(rows, resolved) && Bindings(rows, resolved)[rows[i]] == resolved[i]
    decreases |rows|
  {
    var n := |rows| - 1;
    assert rows[..n] == Names(1, n);
    if i < n {
      BindingsAt(rows[..n], resolved, i);
      NamesDistinct(1 + i, 1 + n);
    }
  }
}
