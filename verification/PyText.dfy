/** The Python string operations the backend relies on, over `string`. */
module PyText {

  /** `str.find`: the index of the first occurrence of `p` in `s`, or -1. */
  function Find(s: string, p: string): (i: int)
    requires p != ""
    ensures -1 <= i && (i >= 0 ==> i + |p| <= |s| && p <= s[i..])
  {
    if |s| < |p| then -1
    else if p <= s then 0
    else
      var r := Find(s[1..], p);
      if r < 0 then -1 else r + 1
  }

  /** `Find` misses nothing: no occurrence starts before the index it returns. */
  lemma {:induction false} FindIsFirst(s: string, p: string, j: nat)
    requires p != "" && j <= |s| && p <= s[j..]
    ensures 0 <= Find(s, p) <= j
  {
    if j > 0 && !(p <= s) {
      assert s[1..][j - 1..] == s[j..];
      FindIsFirst(s[1..], p, j - 1);
    }
  }

  /** `p in s`. */
  predicate Contains(s: string, p: string)
    requires p != ""
  {
    Find(s, p) >= 0
  }

  /** `s.replace(old, new, 1)`. */
  function ReplaceFirst(s: string, old_: string, new_: string): string
    requires old_ != ""
  {
    var i := Find(s, old_);
    if i < 0 then s else s[..i] + new_ + s[i + |old_|..]
  }

  /** `s.replace(old, new)`: left to right, occurrences do not overlap. */
  function ReplaceAll(s: string, old_: string, new_: string): string
    requires old_ != ""
    decreases |s|
  {
    if |s| < |old_| then s
    else if old_ <= s then new_ + ReplaceAll(s[|old_|..], old_, new_)
    else [s[0]] + ReplaceAll(s[1..], old_, new_)
  }

  predicate IsLetter(c: char) {
    'a' <= c <= 'z' || 'A' <= c <= 'Z'
  }

  predicate IsDigit(c: char) {
    '0' <= c <= '9'
  }

  /** A character that may continue an identifier. */
  predicate IsWordChar(c: char) {
    IsLetter(c) || IsDigit(c) || c == '_'
  }

  /** `str(n)` for a non-negative integer. */
  function Decimal(n: nat): (s: string)
    ensures s != "" && forall c :: c in s ==> IsDigit(c)
  {
    if n < 10 then [('0' as int + n) as char]
    else Decimal(n / 10) + [('0' as int + n % 10) as char]
  }

  /** `int(s)` for a string of digits. */
  function Numeral(s: string): int
    requires forall c :: c in s ==> IsDigit(c)
  {
    if s == "" then 0
    else 10 * Numeral(s[..|s| - 1]) + (s[|s| - 1] as int - '0' as int)
  }

  lemma {:induction false} NumeralOfDecimal(n: nat)
    ensures Numeral(Decimal(n)) == n
  {
    if n >= 10 {
      NumeralOfDecimal(n / 10);
      var s := Decimal(n);
      assert s[..|s| - 1] == Decimal(n / 10);
    }
  }

  /** `sep.join(parts)`. */
  function Join(parts: seq<string>, sep: string): string {
    if parts == [] then ""
    else if |parts| == 1 then parts[0]
    else parts[0] + sep + Join(parts[1..], sep)
  }
}
