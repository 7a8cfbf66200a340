/**
 * String helpers used by the address formatting, column detection and SQL
 * pattern models: prefixes and substrings, joining and splitting, ASCII case
 * mapping, whitespace trimming and decimal rendering of integers.
 */
module Text {
  import opened Wrappers

  predicate IsPrefix(p: string, s: string) {
    |p| <= |s| && s[..|p|] == p
  }

  /** The first index from `j` on at which `t` occurs in `s`. */
  function IndexFrom(s: string, t: string, j: nat): (r: Option<nat>)
    requires j <= |s|
    ensures r.Some? ==> j <= r.value && r.value + |t| <= |s| && IsPrefix(t, s[r.value..])
    ensures r.Some? ==> forall k :: j <= k < r.value ==> !IsPrefix(t, s[k..])
    ensures r.None? ==> forall k :: j <= k <= |s| ==> !IsPrefix(t, s[k..])
    decreases |s| - j
  {
    if IsPrefix(t, s[j..]) then Some(j)
    else if j == |s| then None
    else IndexFrom(s, t, j + 1)
  }

  /** The first index at which `t` occurs in `s` (JavaScript `indexOf`). */
  function IndexOf(s: string, t: string): (r: Option<nat>)
    ensures r.Some? ==> r.value + |t| <= |s| && IsPrefix(t, s[r.value..])
    ensures r.Some? ==> forall j :: 0 <= j < r.value ==> !IsPrefix(t, s[j..])
    ensures r.None? ==> forall j :: 0 <= j <= |s| ==> !IsPrefix(t, s[j..])
  {
    IndexFrom(s, t, 0)
  }

  /** `t` occurs somewhere in `s` (Python `t in s`, SQL `LIKE '%t%'` without wildcards). */
  predicate Contains(s: string, t: string) {
    IndexOf(s, t).Some?
  }

  /** `t` occurs in `s` iff it starts `s` or occurs in the rest of `s`. */
  lemma {:induction false} ContainsUnfold(s: string, t: string)
    ensures |s| == 0 ==> (Contains(s, t) <==> IsPrefix(t, s))
    ensures |s| > 0 ==> (Contains(s, t) <==> IsPrefix(t, s) || Contains(s[1..], t))
  {
    assert s[0..] == s;
    if |s| > 0 {
      var r, q := IndexOf(s, t), IndexOf(s[1..], t);
      if q.Some? {
        assert s[q.value + 1..] == s[1..][q.value..];
      }
      if r.Some? && r.value > 0 {
        assert s[r.value..] == s[1..][r.value - 1..];
      }
    }
  }

  /** `parts` joined with `sep` between neighbours (Python `sep.join`, JavaScript `join`). */
  function Join(parts: seq<string>, sep: string): string {
    if |parts| == 0 then ""
    else if |parts| == 1 then parts[0]
    else parts[0] + sep + Join(parts[1..], sep)
  }

  /** A join starts with its first piece. */
  lemma {:induction false} JoinHead(parts: seq<string>, sep: string)
    requires |parts| > 0
    ensures IsPrefix(parts[0], Join(parts, sep))
  {
    if |parts| > 1 {
      var rest := sep + Join(parts[1..], sep);
      assert Join(parts, sep) == parts[0] + rest;
      assert (parts[0] + rest)[..|parts[0]|] == parts[0];
    }
  }

  /** JavaScript `s.split(sep)` for a non-empty separator: the pieces between occurrences. */
  function Split(s: string, sep: string): (r: seq<string>)
    requires |sep| > 0
    ensures |r| >= 1
    decreases |s|
  {
    match IndexOf(s, sep)
    case None => [s]
    case Some(i) => [s[..i]] + Split(s[i + |sep|..], sep)
  }

  /** No suffix starting inside `a` begins with `t` when `t`'s first character is not in `a`. */
  lemma {:induction false} NoMatchInside(a: string, b: string, t: string)
    requires |t| > 0 && t[0] !in a
    ensures forall k :: 0 <= k < |a| ==> !IsPrefix(t, (a + b)[k..])
  {
    forall k | 0 <= k < |a| ensures !IsPrefix(t, (a + b)[k..]) {
      assert (a + b)[k..][0] == a[k];
    }
  }

  lemma {:induction false} IndexOfAfterPrefix(a: string, b: string, t: string)
    requires |t| > 0 && t[0] !in a && IsPrefix(t, b)
    ensures IndexOf(a + b, t) == Some(|a|)
  {
    NoMatchInside(a, b, t);
    assert (a + b)[|a|..] == b;
  }

  lemma {:induction false} IndexOfAbsent(a: string, t: string)
    requires |t| > 0 && t[0] !in a
    ensures IndexOf(a, t) == None
  {
    NoMatchInside(a, "", t);
    assert a + "" == a;
  }

  /** Splitting a piece free of the separator's first character, the separator and a rest peels off the piece. */
  lemma {:induction false} SplitAfterPiece(head: string, sep: string, rest: string)
    requires |sep| > 0 && sep[0] !in head
    ensures Split(head + sep + rest, sep) == [head] + Split(rest, sep)
  {
    var s := head + sep + rest;
    assert s == head + (sep + rest);
    assert IsPrefix(sep, sep + rest);
    IndexOfAfterPrefix(head, sep + rest, sep);
    assert s[..|head|] == head;
    assert s[|head| + |sep|..] == rest;
  }

  /**
   * Splitting undoes joining when the pieces never contain the separator's
   * first character.
   */
  lemma {:induction false} SplitJoin(parts: seq<string>, sep: string)
    requires |parts| >= 1 && |sep| > 0
    requires forall k :: 0 <= k < |parts| ==> sep[0] !in parts[k]
    ensures Split(Join(parts, sep), sep) == parts
    decreases |parts|
  {
    if |parts| == 1 {
      IndexOfAbsent(parts[0], sep);
    } else {
      var head, tail := parts[0], parts[1..];
      assert forall k :: 0 <= k < |tail| ==> sep[0] !in tail[k] by {
        forall k | 0 <= k < |tail| ensures sep[0] !in tail[k] {
          assert tail[k] == parts[k + 1];
        }
      }
      assert Join(parts, sep) == head + sep + Join(tail, sep);
      SplitAfterPiece(head, sep, Join(tail, sep));
      SplitJoin(tail, sep);
      assert parts == [head] + tail;
    }
  }

  // ASCII case mapping (Python `str.upper`, JavaScript `toLowerCase`, SQL UPPER/LOWER).

  function UpperChar(c: char): char {
    if 'a' <= c <= 'z' then (c as int - 32) as char else c
  }

  function LowerChar(c: char): char {
    if 'A' <= c <= 'Z' then (c as int + 32) as char else c
  }

  function ToUpper(s: string): (r: string)
    ensures |r| == |s|
    ensures forall i :: 0 <= i < |s| ==> r[i] == UpperChar(s[i])
  {
    seq(|s|, i requires 0 <= i < |s| => UpperChar(s[i]))
  }

  function ToLower(s: string): (r: string)
    ensures |r| == |s|
    ensures forall i :: 0 <= i < |s| ==> r[i] == LowerChar(s[i])
  {
    seq(|s|, i requires 0 <= i < |s| => LowerChar(s[i]))
  }

  /** Upper-casing twice is upper-casing once, and leaves no lower-case ASCII letter. */
  lemma {:induction false} UpperIdempotent(s: string)
    ensures ToUpper(ToUpper(s)) == ToUpper(s)
    ensures forall i :: 0 <= i < |s| ==> !('a' <= ToUpper(s)[i] <= 'z')
  {
  }

  /**
   * The characters JavaScript `trim` removes: the WhiteSpace and
   * LineTerminator productions of ECMA-262, that is tab, vertical tab, form feed, space, no-break space, the byte order mark,
   * the other space separators (general category Zs), line feed, carriage
   * return, and the line and paragraph separators.
   */
  predicate IsWhitespace(c: char) {
    || c == '\t' || c == '\n' || c == '\U{000B}' || c == '\U{000C}' || c == '\r' || c == ' '
    || c == '\U{00A0}' || c == '\U{1680}' || ('\U{2000}' <= c <= '\U{200A}')
    || c == '\U{2028}' || c == '\U{2029}' || c == '\U{202F}' || c == '\U{205F}'
    || c == '\U{3000}' || c == '\U{FEFF}'
  }

  /** JavaScript `trim`: drop leading and trailing whitespace. */
  function Trim(s: string): (r: string)
    decreases |s|
  {
    if |s| > 0 && IsWhitespace(s[0]) then Trim(s[1..])
    else if |s| > 0 && IsWhitespace(s[|s| - 1]) then Trim(s[..|s| - 1])
    else s
  }

  /** A string of whitespace only trims to the empty string, and only such a string does. */
  lemma {:induction false} TrimEmpty(s: string)
    ensures Trim(s) == "" <==> forall i :: 0 <= i < |s| ==> IsWhitespace(s[i])
    decreases |s|
  {
    if |s| > 0 && IsWhitespace(s[0]) {
      TrimEmpty(s[1..]);
      assert forall i :: 1 <= i < |s| ==> s[i] == s[1..][i - 1];
    } else if |s| > 0 && IsWhitespace(s[|s| - 1]) {
      TrimEmpty(s[..|s| - 1]);
      assert forall i :: 0 <= i < |s| - 1 ==> s[i] == s[..|s| - 1][i];
    }
  }

  // Decimal rendering of integers (Python `str(int)`, JavaScript template literals).

  function DigitChar(d: nat): char
    requires d < 10
  {
    "0123456789"[d]
  }

  predicate IsDigit(c: char) {
    '0' <= c <= '9'
  }

  function DigitValue(c: char): nat
    requires IsDigit(c)
  {
    c as int - '0' as int
  }

  /** The number a string of decimal digits denotes. */
  function DigitsValue(s: string): nat
    requires forall i :: 0 <= i < |s| ==> IsDigit(s[i])
  {
    if |s| == 0 then 0 else DigitsValue(s[..|s| - 1]) * 10 + DigitValue(s[|s| - 1])
  }

  function NatToString(n: nat): (r: string)
    ensures |r| >= 1
    ensures forall i :: 0 <= i < |r| ==> IsDigit(r[i])
  {
    if n < 10 then [DigitChar(n)] else NatToString(n / 10) + [DigitChar(n % 10)]
  }

  function IntToString(i: int): string {
    if i < 0 then "-" + NatToString(-i) else NatToString(i)
  }

  /** Reading back the decimal rendering of `n` gives `n`, with no leading zero. */
  lemma {:induction false} NatToStringRoundTrip(n: nat)
    ensures DigitsValue(NatToString(n)) == n
    ensures n > 0 ==> NatToString(n)[0] != '0'
  {
    if n >= 10 {
      NatToStringRoundTrip(n / 10);
      var s := NatToString(n);
      assert s[..|s| - 1] == NatToString(n / 10);
    }
  }
}
