/** The handful of JavaScript string operations the application relies on, with
    their exact edge-case behaviour: `startsWith`, `indexOf`, `replace` with a
    string pattern (first occurrence only), `split(c)[0]`, `split(c).pop()`,
    `lastIndexOf`, `substring(0, k)`, `toLowerCase`, `includes` and decimal
    rendering of numbers. */
module Text {

  /** `s.startsWith(prefix)`. */
  predicate StartsWith(s: string, prefix: string) {
    |prefix| <= |s| && s[..|prefix|] == prefix
  }

  /** `s.endsWith(suffix)`. */
  predicate EndsWith(s: string, suffix: string) {
    |suffix| <= |s| && s[|s| - |suffix|..] == suffix
  }

  /** `pat` occurs in `s` at index `i`. */
  predicate OccursAt(s: string, pat: string, i: int) {
    0 <= i && i + |pat| <= |s| && s[i..i + |pat|] == pat
  }

  /** First index at or after `from` where `pat` occurs, or -1. */
  function IndexFrom(s: string, pat: string, from: nat): (r: int)
    ensures r == -1 || (from <= r && OccursAt(s, pat, r))
    ensures r >= 0 ==> forall j :: from <= j < r ==> !OccursAt(s, pat, j)
    ensures r == -1 ==> forall j :: from <= j ==> !OccursAt(s, pat, j)
    decreases |s| - from
  {
    if from + |pat| > |s| then -1
    else if s[from..from + |pat|] == pat then from
    else IndexFrom(s, pat, from + 1)
  }

  /** `s.indexOf(pat)`: the first occurrence of `pat` in `s`, or -1. */
  function IndexOf(s: string, pat: string): (r: int)
    ensures r == -1 || OccursAt(s, pat, r)
    ensures r >= 0 ==> forall j :: 0 <= j < r ==> !OccursAt(s, pat, j)
    ensures r == -1 ==> forall j :: !OccursAt(s, pat, j)
  {
    IndexFrom(s, pat, 0)
  }

  /** `s.includes(pat)`. */
  predicate Contains(s: string, pat: string) {
    IndexOf(s, pat) >= 0
  }

  /** `s.replace(pat, rep)` with a string pattern: only the first occurrence is replaced. */
  function ReplaceFirst(s: string, pat: string, rep: string): string {
    var i := IndexOf(s, pat);
    if i < 0 then s else s[..i] + rep + s[i + |pat|..]
  }

  /** Replacing a prefix of `s` swaps that prefix and keeps the rest. */
  lemma ReplacePrefix(s: string, pat: string, rep: string)
    requires StartsWith(s, pat)
    ensures ReplaceFirst(s, pat, rep) == rep + s[|pat|..]
  {
    assert OccursAt(s, pat, 0);
  }

  /** A pattern longer than `s` cannot occur, so `s` comes back unchanged. */
  lemma ReplaceLongerPattern(s: string, pat: string, rep: string)
    requires |pat| > |s|
    ensures ReplaceFirst(s, pat, rep) == s
  {
  }

  /** A one-character pattern occurs exactly where that character stands. */
  lemma OccursAtChar(s: string, c: char, j: int)
    ensures OccursAt(s, [c], j) <==> (0 <= j < |s| && s[j] == c)
  {
    if 0 <= j < |s| {
      assert s[j..j + 1] == [s[j]];
    }
  }

  /** A non-empty pattern whose first character never appears in `s` does not occur in it. */
  lemma AbsentLeadCharMeansAbsent(s: string, pat: string)
    requires |pat| > 0 && pat[0] !in s
    ensures !Contains(s, pat)
  {
  }

  /** `s.split(c)[0]`: everything before the first `c`, or all of `s` when there is none. */
  function BeforeFirst(s: string, c: char): (r: string)
    ensures c !in r
    ensures StartsWith(s, r)
    ensures c in s ==> |r| < |s| && s[|r|] == c
    ensures c !in s ==> r == s
  {
    var i := IndexOf(s, [c]);
    OccursAtChar(s, c, i);
    if i < 0 then
      assert forall j :: 0 <= j < |s| ==> s[j] != c by {
        forall j | 0 <= j < |s| ensures s[j] != c {
          OccursAtChar(s, c, j);
        }
      }
      s
    else
      assert forall j :: 0 <= j < i ==> s[j] != c by {
        forall j | 0 <= j < i ensures s[j] != c {
          OccursAtChar(s, c, j);
        }
      }
      s[..i]
  }

  /** The split of `prefix + [c] + rest` at its first `c`, when `prefix` holds no `c`. */
  lemma BeforeFirstOfJoin(prefix: string, c: char, rest: string)
    requires c !in prefix
    ensures BeforeFirst(prefix + [c] + rest, c) == prefix
  {
    var s := prefix + [c] + rest;
    var r := BeforeFirst(s, c);
    assert s[|prefix|] == c;
    assert s[..|prefix|] == prefix;
  }

  /** Two joins at a separator that neither prefix holds agree exactly when their
      prefixes and their rests agree. */
  lemma SplitAtFirst(a1: string, r1: string, a2: string, r2: string, c: char)
    requires c !in a1 && c !in a2
    requires a1 + [c] + r1 == a2 + [c] + r2
    ensures a1 == a2 && r1 == r2
  {
    BeforeFirstOfJoin(a1, c, r1);
    BeforeFirstOfJoin(a2, c, r2);
    var s := a1 + [c] + r1;
    assert r1 == s[|a1| + 1..];
    assert r2 == (a2 + [c] + r2)[|a2| + 1..];
  }

  /** `s.lastIndexOf(c)`: the position of the last `c`, or -1. */
  function LastIndexOf(s: string, c: char): (r: int)
    ensures -1 <= r < |s|
    ensures r >= 0 ==> s[r] == c
    ensures forall j :: r < j < |s| ==> s[j] != c
    ensures r == -1 <==> c !in s
  {
    if |s| == 0 then -1
    else if s[|s| - 1] == c then |s| - 1
    else
      var r := LastIndexOf(s[..|s| - 1], c);
      assert s == s[..|s| - 1] + [s[|s| - 1]];
      r
  }

  /** `s.split(c).pop()`: everything after the last `c`, or all of `s` when there is none. */
  function AfterLast(s: string, c: char): (r: string)
    ensures c !in r
    ensures EndsWith(s, r)
    ensures c in s ==> |r| < |s| && s[|s| - |r| - 1] == c
    ensures c !in s ==> r == s
  {
    s[LastIndexOf(s, c) + 1..]
  }

  /** `s.substring(0, k)`: a negative end counts as 0 and an end past `|s|` as `|s|`. */
  function SubstringTo(s: string, k: int): (r: string)
    ensures StartsWith(s, r)
    ensures 0 <= k <= |s| ==> |r| == k
    ensures k <= 0 ==> r == ""
  {
    if k <= 0 then "" else if k >= |s| then s else s[..k]
  }

  /** The ASCII lower-case form of one character; every other character is kept. */
  function LowerChar(c: char): char {
    if 'A' <= c <= 'Z' then (c as int + 32) as char else c
  }

  /** `s.toLowerCase()` on ASCII letters. */
  function Lower(s: string): (r: string)
    ensures |r| == |s|
    ensures forall k :: 0 <= k < |s| ==> r[k] == LowerChar(s[k])
  {
    seq(|s|, k requires 0 <= k < |s| => LowerChar(s[k]))
  }

  /** Case-insensitive equality of two account addresses. */
  predicate SameAddress(a: string, b: string) {
    Lower(a) == Lower(b)
  }

  /** A character that is a decimal digit. */
  predicate IsDigit(c: char) {
    '0' <= c <= '9'
  }

  /** The decimal digit for `d`. */
  function Digit(d: nat): (c: char)
    requires d < 10
    ensures IsDigit(c)
  {
    ((d + '0' as int) as char)
  }

  /** The numeric value of a digit character. */
  function DigitValue(c: char): (d: nat)
    requires IsDigit(c)
    ensures d < 10
  {
    c as int - '0' as int
  }

  /** `String(n)` / template-literal rendering of a non-negative integer. */
  function NatToDecimal(n: nat): (r: string)
    ensures |r| > 0
    ensures forall k :: 0 <= k < |r| ==> IsDigit(r[k])
    ensures |r| > 1 ==> r[0] != '0'
  {
    if n < 10 then [Digit(n)] else NatToDecimal(n / 10) + [Digit(n % 10)]
  }

  /** The value a string of decimal digits denotes. */
  function DecimalValue(s: string): (n: nat)
    requires forall k :: 0 <= k < |s| ==> IsDigit(s[k])
  {
    if |s| == 0 then 0 else DecimalValue(s[..|s| - 1]) * 10 + DigitValue(s[|s| - 1])
  }

  /** Reading back the rendered digits gives the number. */
  lemma {:induction false} DecimalRoundTrip(n: nat)
    ensures DecimalValue(NatToDecimal(n)) == n
  {
    if n >= 10 {
      var s := NatToDecimal(n);
      assert s[..|s| - 1] == NatToDecimal(n / 10);
      DecimalRoundTrip(n / 10);
    }
  }

  /** Different numbers render differently. */
  lemma DecimalInjective(m: nat, n: nat)
    requires NatToDecimal(m) == NatToDecimal(n)
    ensures m == n
  {
    DecimalRoundTrip(m);
    DecimalRoundTrip(n);
  }
}
