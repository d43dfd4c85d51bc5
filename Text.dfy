/**
 * The few Python string builtins the sensor relies on, on `seq<char>`:
 * `str.lower` (ASCII range), the substring test `needle in haystack`,
 * `str.strip()`, `sep.join(parts)`, and, for stating round trips,
 * `str.split(sep)` and `str.count(c)`.
 */
module Text {
  import opened Wrappers

  predicate IsUpper(c: char) {
    'A' <= c <= 'Z'
  }

  /** `str.lower` on one character; characters outside A-Z are kept. */
  function LowerChar(c: char): (r: char)
    ensures !IsUpper(r)
    ensures !IsUpper(c) ==> r == c
    ensures IsUpper(c) ==> r as int - c as int == 'a' as int - 'A' as int
  {
    if IsUpper(c) then (c as int - 'A' as int + 'a' as int) as char else c
  }

  /**
   * `str.lower` on a whole string, character by character: each of A-Z
   * becomes the letter 32 code points later, a-z, and every other character
   * is kept.
   */
  function Lower(s: string): (r: string)
    ensures |r| == |s|
    ensures forall i :: 0 <= i < |r| ==> !IsUpper(r[i])
    ensures forall i :: 0 <= i < |s| && !IsUpper(s[i]) ==> r[i] == s[i]
    ensures forall i :: 0 <= i < |s| && IsUpper(s[i]) ==> r[i] as int - s[i] as int == 'a' as int - 'A' as int
  {
    seq(|s|, i requires 0 <= i < |s| => LowerChar(s[i]))
  }

  /** Lower-casing twice is lower-casing once. */
  lemma LowerIdempotent(s: string)
    ensures Lower(Lower(s)) == Lower(s)
  {
  }

  /** Only the empty string lower-cases to the empty string. */
  lemma LowerEmpty(s: string)
    ensures Lower(s) == [] <==> s == []
  {
  }

  /** `needle` occurs in `haystack` starting at index `i`. */
  ghost predicate OccursAt(haystack: string, needle: string, i: int) {
    0 <= i && i + |needle| <= |haystack| && haystack[i..i + |needle|] == needle
  }

  /** Python's `needle in haystack` on strings. */
  function Contains(haystack: string, needle: string): bool
    decreases |haystack|
  {
    needle <= haystack || (|haystack| > 0 && Contains(haystack[1..], needle))
  }

  /** An occurrence at any position makes `Contains` true. */
  lemma {:induction false} OccursContains(haystack: string, needle: string, i: int)
    requires OccursAt(haystack, needle, i)
    ensures Contains(haystack, needle)
    decreases i
  {
    if i == 0 {
      assert needle <= haystack;
    } else {
      var tail := haystack[1..];
      assert tail[i - 1..i - 1 + |needle|] == haystack[i..i + |needle|];
      OccursContains(tail, needle, i - 1);
    }
  }

  /** `Contains` is exactly "occurs at some position". */
  lemma {:induction false} ContainsIff(haystack: string, needle: string)
    ensures Contains(haystack, needle) <==> exists i :: OccursAt(haystack, needle, i)
    decreases |haystack|
  {
    if exists i :: OccursAt(haystack, needle, i) {
      var i :| OccursAt(haystack, needle, i);
      OccursContains(haystack, needle, i);
    }
    if Contains(haystack, needle) {
      if needle <= haystack {
        assert OccursAt(haystack, needle, 0);
      } else {
        var tail := haystack[1..];
        ContainsIff(tail, needle);
        var i :| OccursAt(tail, needle, i);
        assert haystack[i + 1..i + 1 + |needle|] == tail[i..i + |needle|];
        assert OccursAt(haystack, needle, i + 1);
      }
    }
  }

  /** The empty needle occurs everywhere; nothing else occurs in the empty string. */
  lemma {:induction false} ContainsEmpty(haystack: string, needle: string)
    ensures Contains(haystack, [])
    ensures Contains([], needle) <==> needle == []
  {
  }

  /** Python's `str.isspace` on one character. */
  predicate IsSpace(c: char) {
    || c == ' ' || c == '\t' || c == '\n' || c == '\r'
    || c == '\U{0B}' || c == '\U{0C}'
    || ('\U{1C}' <= c <= '\U{1F}')
    || c == '\U{85}' || c == '\U{A0}' || c == '\U{1680}'
    || ('\U{2000}' <= c <= '\U{200A}')
    || c == '\U{2028}' || c == '\U{2029}' || c == '\U{202F}' || c == '\U{205F}' || c == '\U{3000}'
  }

  /** The first position at or after `a` that does not hold whitespace, or `|s|`. */
  function StripStart(s: string, a: nat): (start: nat)
    requires a <= |s|
    ensures a <= start <= |s|
    ensures forall i :: a <= i < start ==> IsSpace(s[i])
    ensures start < |s| ==> !IsSpace(s[start])
    decreases |s| - a
  {
    if a < |s| && IsSpace(s[a]) then StripStart(s, a + 1) else a
  }

  /** The position just after the last character before `b` and at or after `a` that is not whitespace, or `a`. */
  function StripEnd(s: string, a: nat, b: nat): (end: nat)
    requires a <= b <= |s|
    ensures a <= end <= b
    ensures forall i :: end <= i < b ==> IsSpace(s[i])
    ensures a < end ==> !IsSpace(s[end - 1])
    decreases b
  {
    if a < b && IsSpace(s[b - 1]) then StripEnd(s, a, b - 1) else b
  }

  /**
   * Python's `str.strip()`: the infix of `s` left after removing leading and
   * trailing whitespace; it neither starts nor ends with whitespace.
   */
  function Strip(s: string): (r: string)
    ensures exists a, b :: 0 <= a <= b <= |s| && r == s[a..b]
                           && (forall i :: 0 <= i < a ==> IsSpace(s[i]))
                           && (forall i :: b <= i < |s| ==> IsSpace(s[i]))
    ensures r != [] ==> !IsSpace(r[0]) && !IsSpace(r[|r| - 1])
  {
    var a := StripStart(s, 0);
    var b := StripEnd(s, a, |s|);
    assert a < b ==> s[a..b][0] == s[a] && s[a..b][b - a - 1] == s[b - 1];
    s[a..b]
  }

  /** Python's `sep.join(parts)`. */
  function Join(sep: string, parts: seq<string>): string
    decreases |parts|
  {
    if |parts| == 0 then ""
    else if |parts| == 1 then parts[0]
    else parts[0] + sep + Join(sep, parts[1..])
  }

  /** Python's `s.count(c)` for a single character. */
  function Count(c: char, s: string): nat
    decreases |s|
  {
    if s == [] then 0 else (if s[0] == c then 1 else 0) + Count(c, s[1..])
  }

  lemma {:induction false} CountAppend(c: char, a: string, b: string)
    ensures Count(c, a + b) == Count(c, a) + Count(c, b)
    decreases |a|
  {
    if a == [] {
      assert a + b == b;
    } else {
      assert (a + b)[0] == a[0];
      assert (a + b)[1..] == a[1..] + b;
      CountAppend(c, a[1..], b);
    }
  }

  /** A character that does not occur is counted zero times. */
  lemma {:induction false} CountAbsent(c: char, s: string)
    requires c !in s
    ensures Count(c, s) == 0
    decreases |s|
  {
    if s != [] {
      CountAbsent(c, s[1..]);
    }
  }

  /** The first index of `c` in `s`, if any. */
  function IndexOf(s: string, c: char): (r: Option<nat>)
    ensures r.None? <==> c !in s
    ensures r.Some? ==> r.value < |s| && s[r.value] == c && c !in s[..r.value]
    decreases |s|
  {
    if s == [] then None
    else if s[0] == c then Some(0)
    else match IndexOf(s[1..], c)
      case None => None
      case Some(k) => assert s[1..][..k] == s[1..k + 1]; Some(k + 1)
  }

  /** The first occurrence of `c` in `a + [c] + b` is right after `a` when `c` is not in `a`. */
  lemma IndexOfAfter(a: string, c: char, b: string)
    requires c !in a
    ensures IndexOf(a + [c] + b, c) == Some(|a|)
  {
    var s := a + [c] + b;
    var r := IndexOf(s, c);
    assert s[|a|] == c;
    assert forall j :: 0 <= j < |a| ==> s[j] == a[j];
    assert forall j :: 0 <= j < r.value ==> s[..r.value][j] == s[j];
  }

  /** Python's `s.split(sep)` for a one-character separator (never empty). */
  function Split(s: string, sep: char): (r: seq<string>)
    ensures |r| >= 1
    decreases |s|
  {
    match IndexOf(s, sep)
    case None => [s]
    case Some(k) => [s[..k]] + Split(s[k + 1..], sep)
  }

  /**
   * Joining on a one-character separator that no part contains puts exactly
   * `|parts| - 1` separators in the result, and splitting on it gives the
   * parts back.
   */
  lemma {:induction false} SplitJoin(sep: char, parts: seq<string>)
    requires |parts| >= 1
    requires forall i :: 0 <= i < |parts| ==> sep !in parts[i]
    ensures Split(Join([sep], parts), sep) == parts
    ensures Count(sep, Join([sep], parts)) == |parts| - 1
    decreases |parts|
  {
    if |parts| == 1 {
      CountAbsent(sep, parts[0]);
    } else {
      var rest := Join([sep], parts[1..]);
      var s := parts[0] + [sep] + rest;
      assert Join([sep], parts) == s;
      SplitJoin(sep, parts[1..]);
      IndexOfAfter(parts[0], sep, rest);
      assert s[..|parts[0]|] == parts[0];
      assert s[|parts[0]| + 1..] == rest;
      CountAbsent(sep, parts[0]);
      CountAppend(sep, parts[0] + [sep], rest);
      CountAppend(sep, parts[0], [sep]);
    }
  }

  predicate IsDigit(c: char) {
    '0' <= c <= '9'
  }

  /** A string made of decimal digits only (the empty string included). */
  predicate AllDigits(s: string) {
    forall i :: 0 <= i < |s| ==> IsDigit(s[i])
  }

  /** The number a string of decimal digits spells; 0 for the empty string. */
  function DecimalValue(s: string): nat
    requires AllDigits(s)
    decreases |s|
  {
    if s == [] then 0
    else DecimalValue(s[..|s| - 1]) * 10 + (s[|s| - 1] as int - '0' as int)
  }

  /** Python's `str(n)` for a natural number. */
  function DecimalText(n: nat): (r: string)
    ensures r != [] && AllDigits(r)
    ensures |r| > 1 ==> r[0] != '0'
  {
    var last := ('0' as int + n % 10) as char;
    if n < 10 then [last] else DecimalText(n / 10) + [last]
  }

  /** Reading back the decimal text of a number gives the number. */
  lemma {:induction false} DecimalRoundTrip(n: nat)
    ensures DecimalValue(DecimalText(n)) == n
  {
    var s := DecimalText(n);
    if n >= 10 {
      DecimalRoundTrip(n / 10);
      assert s[..|s| - 1] == DecimalText(n / 10);
    }
  }

  /** No character that `repr` escapes or that decides its quote. */
  predicate PlainText(s: string) {
    forall i :: 0 <= i < |s| ==> s[i] !in "\\'\n\r\t"
  }

  /** One character of Python's `repr` of a `str` quoted with `quote`. */
  function EscapeChar(c: char, quote: char): string {
    if c == '\\' then "\\\\"
    else if c == quote then ['\\', quote]
    else if c == '\n' then "\\n"
    else if c == '\r' then "\\r"
    else if c == '\t' then "\\t"
    else [c]
  }

  function EscapeAll(s: string, quote: char): string
    decreases |s|
  {
    if s == [] then "" else EscapeChar(s[0], quote) + EscapeAll(s[1..], quote)
  }

  /**
   * Python's `repr` of a `str`: single quotes unless the text holds a single
   * quote and no double quote; backslash, the quote and \n, \r, \t escaped.
   */
  function Repr(s: string): (r: string)
    ensures |r| >= 2
  {
    var quote := if '\'' in s && '"' !in s then '"' else '\'';
    [quote] + EscapeAll(s, quote) + [quote]
  }

  lemma {:induction false} EscapePlain(s: string)
    requires PlainText(s)
    ensures EscapeAll(s, '\'') == s
    decreases |s|
  {
    if s != [] {
      assert PlainText(s[1..]) by {
        forall i | 0 <= i < |s| - 1 ensures s[1..][i] !in "\\'\n\r\t" {
          assert s[1..][i] == s[i + 1];
        }
      }
      EscapePlain(s[1..]);
      assert s[0] !in "\\'\n\r\t";
      assert s == [s[0]] + s[1..];
    }
  }

  /** The `repr` of a plain string is the string in single quotes. */
  lemma ReprPlain(s: string)
    requires PlainText(s)
    ensures Repr(s) == "'" + s + "'"
  {
    assert '\'' !in s by {
      forall i | 0 <= i < |s| ensures s[i] != '\'' {
        assert s[i] !in "\\'\n\r\t";
      }
    }
    EscapePlain(s);
  }
}
