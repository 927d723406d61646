/**
  The JavaScript string operations the table relies on: `trim`, the `\s` class,
  `split` and `join` on one character, the numeric test of the query serializer,
  `String(n)` for integers and `replace` with a string pattern.
*/
module Strings {
  import opened Wrappers

  /** White space and line terminators, the set shared by `String.prototype.trim` and `\s`. */
  predicate IsWhitespace(c: char) {
    || c == ' ' || c == '\t' || c == '\n' || c == '\r' || c == '\U{000B}' || c == '\U{000C}'
    || c == '\U{00A0}' || c == '\U{1680}' || ('\U{2000}' <= c <= '\U{200A}')
    || c == '\U{2028}' || c == '\U{2029}' || c == '\U{202F}' || c == '\U{205F}'
    || c == '\U{3000}' || c == '\U{FEFF}'
  }

  predicate AllWhitespace(s: string) {
    forall i :: 0 <= i < |s| ==> IsWhitespace(s[i])
  }

  /** Neither end of `s` is white space (the empty string qualifies). */
  predicate Trimmed(s: string) {
    s == [] || (!IsWhitespace(s[0]) && !IsWhitespace(s[|s| - 1]))
  }

  /** The end of the run of white space that starts at `i`. */
  function SkipWhitespace(s: string, i: nat): (n: nat)
    requires i <= |s|
    ensures i <= n <= |s|
    ensures forall j :: i <= j < n ==> IsWhitespace(s[j])
    ensures n == |s| || !IsWhitespace(s[n])
    decreases |s| - i
  {
    if i < |s| && IsWhitespace(s[i]) then SkipWhitespace(s, i + 1) else i
  }

  /** The start of the run of white space that ends at `k`, looking no further back than `lo`. */
  function SkipWhitespaceBack(s: string, lo: nat, k: nat): (m: nat)
    requires lo <= k <= |s|
    ensures lo <= m <= k
    ensures forall j :: m <= j < k ==> IsWhitespace(s[j])
    ensures m == lo || !IsWhitespace(s[m - 1])
    decreases k
  {
    if lo < k && IsWhitespace(s[k - 1]) then SkipWhitespaceBack(s, lo, k - 1) else k
  }

  /** `s.trim()`: `s` without its leading and trailing white space. */
  function Trim(s: string): (r: string)
    ensures Trimmed(r)
    ensures exists n, m :: 0 <= n <= m <= |s| && r == s[n..m] && AllWhitespace(s[..n]) && AllWhitespace(s[m..])
  {
    var n := SkipWhitespace(s, 0);
    var m := SkipWhitespaceBack(s, n, |s|);
    assert AllWhitespace(s[..n]) && AllWhitespace(s[m..]);
    s[n..m]
  }

  /** Trimming removes exactly white space: nothing is left of an all-blank string,
      and a string whose ends are not blank is returned as it is. */
  lemma TrimEmptyIff(s: string)
    ensures Trim(s) == [] <==> AllWhitespace(s)
    ensures Trimmed(s) ==> Trim(s) == s
  {
    var n := SkipWhitespace(s, 0);
    var m := SkipWhitespaceBack(s, n, |s|);
    if Trimmed(s) && s != [] {
      assert n == 0 && m == |s|;
      assert s[0..|s|] == s;
    }
  }

  // ---------------------------------------------------------------- split and join

  /** Number of occurrences of `c` in `s`. */
  function Count(s: string, c: char): nat {
    multiset(s)[c]
  }

  /** Index of the first `c` in `s` (`s.indexOf(c)` when it is found). */
  function IndexOf(s: string, c: char): (i: nat)
    requires c in s
    ensures i < |s| && s[i] == c && c !in s[..i]
  {
    if s[0] == c then 0
    else
      var i := IndexOf(s[1..], c) + 1;
      assert s[..i] == [s[0]] + s[1..][..i - 1];
      i
  }

  /** `s.split(sep)` for a one-character separator: always one more piece than separators. */
  function Split(s: string, sep: char): (parts: seq<string>)
    ensures |parts| == Count(s, sep) + 1
    ensures forall i :: 0 <= i < |parts| ==> sep !in parts[i]
  {
    if sep in s then
      var i := IndexOf(s, sep);
      var rest := Split(s[i + 1..], sep);
      CountAround(s, i);
      var parts := [s[..i]] + rest;
      assert forall j :: 1 <= j < |parts| ==> parts[j] == rest[j - 1];
      parts
    else
      assert multiset(s)[sep] == 0;
      [s]
  }

  /** Joining the pieces of a split gives back the string: the pieces are exactly the
      text between the separators. */
  lemma {:induction false} JoinSplit(s: string, sep: char)
    ensures Join(Split(s, sep), sep) == s
    decreases |s|
  {
    if sep in s {
      var i := IndexOf(s, sep);
      JoinSplit(s[i + 1..], sep);
      var parts := Split(s, sep);
      assert parts == [s[..i]] + Split(s[i + 1..], sep);
      assert parts[1..] == Split(s[i + 1..], sep);
      assert s == s[..i] + [sep] + s[i + 1..];
    }
  }

  /** Occurrences of `s[i]` on either side of position `i`. */
  lemma CountAround(s: string, i: nat)
    requires i < |s|
    ensures Count(s, s[i]) == Count(s[..i], s[i]) + 1 + Count(s[i + 1..], s[i])
  {
    assert s == s[..i] + [s[i]] + s[i + 1..];
    assert multiset(s) == multiset(s[..i]) + multiset([s[i]]) + multiset(s[i + 1..]);
  }

  /** `parts.join(sep)` for a one-character separator. */
  function Join(parts: seq<string>, sep: char): string {
    if parts == [] then ""
    else if |parts| == 1 then parts[0]
    else parts[0] + [sep] + Join(parts[1..], sep)
  }

  /** Appending one more piece: the separator goes only between pieces. */
  lemma {:induction false} JoinSnoc(parts: seq<string>, p: string, sep: char)
    ensures Join(parts + [p], sep) == if parts == [] then p else Join(parts, sep) + [sep] + p
  {
    if |parts| == 1 {
      assert (parts + [p])[1..] == [p];
    } else if |parts| > 1 {
      assert (parts + [p])[1..] == parts[1..] + [p];
      JoinSnoc(parts[1..], p, sep);
    }
  }

  /** Joining non-empty pieces is empty exactly when there are no pieces. */
  lemma {:induction false} JoinEmptyIff(parts: seq<string>, sep: char)
    requires forall i :: 0 <= i < |parts| ==> parts[i] != ""
    ensures Join(parts, sep) == "" <==> parts == []
  {
    if |parts| > 1 {
      assert |Join(parts, sep)| >= |parts[0]| + 1;
    }
  }

  /** The index of the first separator in `a + [sep] + b` when `a` has none. */
  lemma IndexOfAfterPrefix(a: string, b: string, sep: char)
    requires sep !in a
    ensures sep in a + [sep] + b && IndexOf(a + [sep] + b, sep) == |a|
  {
    var s := a + [sep] + b;
    assert s[..|a|] == a;
    IndexOfIs(s, sep, |a|);
  }

  /** The first occurrence is at `k` when `s[k]` is one and nothing before it is. */
  lemma {:induction false} IndexOfIs(s: string, c: char, k: nat)
    requires k < |s| && s[k] == c && c !in s[..k]
    ensures IndexOf(s, c) == k
  {
    if k > 0 {
      assert s[0] == s[..k][0];
      assert s[1..][..k - 1] == s[..k][1..];
      IndexOfIs(s[1..], c, k - 1);
    }
  }

  /** Splitting undoes joining, as long as no piece contains the separator. */
  lemma {:induction false} SplitJoin(parts: seq<string>, sep: char)
    requires |parts| >= 1
    requires forall i :: 0 <= i < |parts| ==> sep !in parts[i]
    ensures Split(Join(parts, sep), sep) == parts
  {
    if |parts| > 1 {
      var a, b := parts[0], Join(parts[1..], sep);
      IndexOfAfterPrefix(a, b, sep);
      var s := a + [sep] + b;
      assert s[..|a|] == a && s[|a| + 1..] == b;
      SplitJoin(parts[1..], sep);
      assert [a] + parts[1..] == parts;
    }
  }

  // ---------------------------------------------------------------- numbers

  predicate IsDigit(c: char) {
    '0' <= c <= '9'
  }

  /** The states of a scanner for `^[-+]?[0-9]+(\.[0-9]+)?$`: nothing read yet, a sign,
      integer digits, a dot after them, fraction digits. */
  datatype NumberState = Start | Signed | IntDigits | Dot | FracDigits

  /** One character of the scan; `None` when the pattern cannot match any more. */
  function NumberStep(st: NumberState, c: char): Option<NumberState> {
    match st
    case Start => if c == '-' || c == '+' then Some(Signed) else if IsDigit(c) then Some(IntDigits) else None
    case Signed => if IsDigit(c) then Some(IntDigits) else None
    case IntDigits => if IsDigit(c) then Some(IntDigits) else if c == '.' then Some(Dot) else None
    case Dot => if IsDigit(c) then Some(FracDigits) else None
    case FracDigits => if IsDigit(c) then Some(FracDigits) else None
  }

  /** The rest of `s` from position `i` takes the scanner from `st` to an accepting state. */
  predicate NumberFrom(s: string, i: nat, st: NumberState)
    requires i <= |s|
    decreases |s| - i
  {
    if i == |s| then st == IntDigits || st == FracDigits
    else
      match NumberStep(st, s[i])
      case None => false
      case Some(next) => NumberFrom(s, i + 1, next)
  }

  /** The whole string matches `^[-+]?[0-9]+(\.[0-9]+)?$`. */
  predicate IsNumeric(s: string) {
    NumberFrom(s, 0, Start)
  }

  /** An accepted suffix holds only sign, digit and dot characters, and is not empty
      unless the scanner was already in an accepting state. */
  lemma {:induction false} NumberFromChars(s: string, i: nat, st: NumberState)
    requires i <= |s| && NumberFrom(s, i, st)
    ensures forall j :: i <= j < |s| ==> IsDigit(s[j]) || s[j] in "+-."
    ensures st != IntDigits && st != FracDigits ==> i < |s|
    decreases |s| - i
  {
    if i < |s| {
      NumberFromChars(s, i + 1, NumberStep(st, s[i]).value);
    }
  }

  /** A numeric string is not empty and consists only of sign, digit and dot characters. */
  lemma NumericChars(s: string)
    requires IsNumeric(s)
    ensures s != []
    ensures forall j :: 0 <= j < |s| ==> IsDigit(s[j]) || s[j] in "+-."
  {
    NumberFromChars(s, 0, Start);
  }

  function DigitChar(d: nat): (c: char)
    requires d < 10
    ensures IsDigit(c) && c as int - '0' as int == d
  {
    ('0' as int + d) as char
  }

  /** The value of a string of decimal digits. */
  function DecimalValue(t: string): nat
    requires forall i :: 0 <= i < |t| ==> IsDigit(t[i])
  {
    if t == [] then 0
    else
      assert IsDigit(t[|t| - 1]);
      DecimalValue(t[..|t| - 1]) * 10 + (t[|t| - 1] as int - '0' as int)
  }

  /** A decimal numeral as `String` writes it: digits only, with no leading zero unless
      the numeral is "0". */
  predicate IsDecimal(t: string) {
    && t != []
    && (forall i :: 0 <= i < |t| ==> IsDigit(t[i]))
    && (t[0] == '0' ==> |t| == 1)
  }

  /** `String(n)` for a non-negative integer: its decimal digits. */
  function NatToString(n: nat): (s: string)
    ensures IsDecimal(s) && DecimalValue(s) == n
    ensures s[0] == '0' <==> n == 0
  {
    if n < 10 then [DigitChar(n)]
    else
      var s := NatToString(n / 10) + [DigitChar(n % 10)];
      assert s[..|s| - 1] == NatToString(n / 10);
      s
  }

  /** `String(n)` for an integer: a minus sign for negative numbers, then the decimal
      numeral of the magnitude. */
  function IntToString(n: int): (s: string)
    ensures '.' !in s && s != ""
    ensures n >= 0 ==> IsDecimal(s) && DecimalValue(s) == n
    ensures n < 0 ==> |s| >= 2 && s[0] == '-' && IsDecimal(s[1..]) && DecimalValue(s[1..]) == -n
  {
    if n < 0 then
      var s := "-" + NatToString(-n);
      assert s[1..] == NatToString(-n);
      s
    else NatToString(n)
  }

  /** Different integers have different texts, so array positions name different keys. */
  lemma IntToStringInjective(a: int, b: int)
    requires IntToString(a) == IntToString(b)
    ensures a == b
  {
  }

  // ---------------------------------------------------------------- replace

  /** `pat` occurs in `s` at position `i`. */
  predicate OccursAt(s: string, pat: string, i: nat) {
    i + |pat| <= |s| && s[i..i + |pat|] == pat
  }

  function FindFrom(s: string, pat: string, from: nat): (r: Option<nat>)
    requires from <= |s| + 1
    ensures r.Some? ==> from <= r.value && OccursAt(s, pat, r.value)
    ensures r.Some? ==> forall j :: from <= j < r.value ==> !OccursAt(s, pat, j)
    ensures r.None? ==> forall j :: from <= j ==> !OccursAt(s, pat, j)
    decreases |s| + 1 - from
  {
    if from + |pat| > |s| then None
    else if s[from..from + |pat|] == pat then Some(from)
    else FindFrom(s, pat, from + 1)
  }

  /** `s.indexOf(pat)`: the first position where `pat` occurs. */
  function Find(s: string, pat: string): (r: Option<nat>)
    ensures r.Some? ==> OccursAt(s, pat, r.value)
    ensures r.Some? ==> forall j: nat :: j < r.value ==> !OccursAt(s, pat, j)
    ensures r.None? ==> forall j: nat :: !OccursAt(s, pat, j)
  {
    FindFrom(s, pat, 0)
  }

  /** `s.replace(pat, rep)` with a string pattern: only the first occurrence is replaced. */
  function ReplaceFirst(s: string, pat: string, rep: string): string {
    match Find(s, pat)
    case None => s
    case Some(i) => s[..i] + rep + s[i + |pat|..]
  }
}
