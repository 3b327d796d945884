/**
 * The few pieces of Python string semantics the model relies on:
 * `str.find`, `in`, `'sep'.join(parts)`, slicing with an empty result
 * when the bounds cross, `max(0, x)`, `max(xs)` of a non-empty list,
 * `' ' * n` with a non-positive `n`,
 * and the decimal conversions `str(n)` and `int(s)`.
 */
module PyStr {
  import opened Wrappers

  /** `needle` occurs in `hay` starting at index `i`. */
  predicate OccursAt(hay: string, needle: string, i: int) {
    0 <= i && i + |needle| <= |hay| && hay[i..i + |needle|] == needle
  }

  /** `hay.find(needle, i)`: the first occurrence at or after `i`, or -1. */
  function FindFrom(hay: string, needle: string, i: nat): int
    decreases |hay| - i
  {
    if i + |needle| > |hay| then -1
    else if hay[i..i + |needle|] == needle then i
    else FindFrom(hay, needle, i + 1)
  }

  /**
   * `hay.find(needle, i)` is -1, or the first position at or after `i`
   * where `needle` occurs; it is -1 exactly when it occurs nowhere there.
   */
  lemma {:induction false} FindFromFirst(hay: string, needle: string, i: nat)
    ensures var r := FindFrom(hay, needle, i);
      && (r == -1 || (i <= r && OccursAt(hay, needle, r)))
      && (r != -1 ==> forall j :: i <= j < r ==> !OccursAt(hay, needle, j))
      && (r == -1 ==> forall j :: i <= j ==> !OccursAt(hay, needle, j))
    decreases |hay| - i
  {
    if i + |needle| <= |hay| && hay[i..i + |needle|] != needle {
      FindFromFirst(hay, needle, i + 1);
    }
  }

  /** `hay.find(needle)`. */
  function Find(hay: string, needle: string): int {
    FindFrom(hay, needle, 0)
  }

  /** `hay.find(needle) != -1`, which is also Python's `needle in hay`. */
  predicate Contains(hay: string, needle: string) {
    Find(hay, needle) != -1
  }

  /** `find` returns the lowest index of an occurrence, and -1 exactly when there is none. */
  lemma FindIsFirstOccurrence(hay: string, needle: string)
    ensures Find(hay, needle) != -1 ==> OccursAt(hay, needle, Find(hay, needle))
    ensures Find(hay, needle) != -1 ==>
      forall j :: 0 <= j < Find(hay, needle) ==> !OccursAt(hay, needle, j)
    ensures Contains(hay, needle) <==> exists j :: OccursAt(hay, needle, j)
  {
    FindFromFirst(hay, needle, 0);
  }

  /** Every string contains the empty string (`s.find('') == 0`). */
  lemma ContainsEmpty(hay: string)
    ensures Find(hay, "") == 0
  {
    assert OccursAt(hay, "", 0);
  }

  /** A string contains itself and every string it starts with. */
  lemma ContainsPrefix(hay: string, needle: string)
    requires |needle| <= |hay| && hay[..|needle|] == needle
    ensures Contains(hay, needle)
  {
    assert OccursAt(hay, needle, 0);
  }

  /** `sep.join(parts)`. */
  function Join(parts: seq<string>, sep: string): (r: string)
    ensures |parts| == 0 ==> r == ""
    ensures |parts| == 1 ==> r == parts[0]
  {
    if |parts| == 0 then ""
    else if |parts| == 1 then parts[0]
    else parts[0] + sep + Join(parts[1..], sep)
  }

  /** `s[i:j]` for in-range bounds: empty when the bounds cross. */
  function Slice(s: string, i: nat, j: nat): (r: string)
    requires i <= |s| && j <= |s|
    ensures |r| == if i <= j then j - i else 0
    ensures i <= j ==> r == s[i..j]
  {
    if i <= j then s[i..j] else ""
  }

  /** `max(0, x)`. */
  function Max0(x: int): nat {
    if x < 0 then 0 else x
  }

  /** `max(xs)` of a non-empty list: an entry that no entry exceeds. */
  function MaxOf(xs: seq<int>): (m: int)
    requires |xs| > 0
    ensures forall k :: 0 <= k < |xs| ==> xs[k] <= m
    ensures exists k :: 0 <= k < |xs| && xs[k] == m
  {
    if |xs| == 1 then xs[0]
    else
      var rest := MaxOf(xs[1..]);
      assert forall k :: 1 <= k < |xs| ==> xs[k] == xs[1..][k - 1];
      if xs[0] >= rest then xs[0] else rest
  }

  /** `' ' * n`: empty when `n` is not positive. */
  function Spaces(n: int): (r: string)
    ensures |r| == if n <= 0 then 0 else n
  {
    if n <= 0 then "" else seq(n, _ => ' ')
  }

  /** `' ' * n` consists of spaces only. */
  lemma SpacesAreSpaces(n: int)
    ensures forall k :: 0 <= k < |Spaces(n)| ==> Spaces(n)[k] == ' '
  {
  }

  /** The digit character for `d`. */
  function DigitChar(d: nat): char
    requires d < 10
  {
    ('0' as int + d) as char
  }

  predicate IsDigit(ch: char) {
    '0' <= ch <= '9'
  }

  /** `str(n)` for a non-negative `n`: its decimal digits, most significant first, no leading zero. */
  function NatToString(n: nat): (r: string)
    ensures |r| > 0
    decreases n
  {
    if n < 10 then [DigitChar(n)] else NatToString(n / 10) + [DigitChar(n % 10)]
  }

  /** Every character of `s` is a decimal digit. */
  predicate AllDigits(s: string) {
    forall k :: 0 <= k < |s| ==> IsDigit(s[k])
  }

  /** The number a string of decimal digits denotes. */
  function DigitsValue(s: string): nat
    requires AllDigits(s)
  {
    if |s| == 0 then 0
    else DigitsValue(s[..|s| - 1]) * 10 + (s[|s| - 1] as int - '0' as int)
  }

  /**
   * `int(s)` on a sign (`-` or `+`) followed by ASCII decimal digits, or on
   * the digits alone; `None` for every other string. Python's `int` also
   * accepts surrounding whitespace, `_` between digits and non-ASCII
   * decimal digits, which are `None` here.
   */
  function ParseInt(s: string): (r: Option<int>)
    ensures AllDigits(s) && |s| > 0 ==> r == Some(DigitsValue(s))
    ensures |s| == 0 ==> r.None?
  {
    if |s| == 0 then None
    else
      assert AllDigits(s) ==> IsDigit(s[0]);
      if (s[0] == '-' || s[0] == '+') && |s| > 1 && AllDigits(s[1..]) then
        var v: int := DigitsValue(s[1..]);
        Some(if s[0] == '-' then -v else v)
      else if AllDigits(s) then Some(DigitsValue(s))
      else None
  }

  /** `str(n)` is all digits and reads back as `n`. */
  lemma {:induction false} NatToStringDigits(n: nat)
    ensures AllDigits(NatToString(n))
    ensures DigitsValue(NatToString(n)) == n
    decreases n
  {
    var r := NatToString(n);
    if n >= 10 {
      NatToStringDigits(n / 10);
      assert r[..|r| - 1] == NatToString(n / 10);
    }
  }

  /** `int(str(n)) == n`. */
  lemma IntOfStr(n: nat)
    ensures ParseInt(NatToString(n)) == Some(n)
  {
    NatToStringDigits(n);
  }

  /** Different numbers have different decimal strings. */
  lemma NatToStringInjective(m: nat, n: nat)
    requires NatToString(m) == NatToString(n)
    ensures m == n
  {
    NatToStringDigits(m);
    NatToStringDigits(n);
  }
}
