/**
 * The app's display formatting: the one-line postal address and the
 * distance-in-metres label with en-US thousands grouping.
 */
module Formatting {
  import opened Text

  // One-line address.

  /** The address fields the one-line rendering reads. */
  datatype AddressLines = AddressLines(line1: string, line2: string, city: string, zipcode: string)

  /** The fixed tail every one-line address ends with. */
  function CityTail(a: AddressLines): string {
    ", " + a.city + ", CO, " + a.zipcode
  }

  /** `addressOneLineFull`: line 1, then line 2 after a space when it is non-empty, then city, state and zip. */
  function OneLineFull(a: AddressLines): (r: string)
    ensures IsPrefix(a.line1, r)
    ensures |r| >= |CityTail(a)| && r[|r| - |CityTail(a)|..] == CityTail(a)
    ensures a.line2 == "" ==> r == a.line1 + CityTail(a)
    ensures a.line2 != "" ==> |r| == |a.line1| + 1 + |a.line2| + |CityTail(a)|
                              && r[|a.line1|..|r| - |CityTail(a)|] == " " + a.line2
    ensures |r| == |a.line1| + |CityTail(a)| <==> a.line2 == ""
  {
    var head := if |a.line2| > 0 then a.line1 + " " + a.line2 else a.line1;
    var r := head + CityTail(a);
    assert r[..|a.line1|] == a.line1;
    assert a.line2 != "" ==> r[|a.line1|..|r| - |CityTail(a)|] == " " + a.line2;
    assert r[|r| - |CityTail(a)|..] == CityTail(a);
    r
  }

  // Distance label.

  /** `Math.round`: the nearest integer, halves rounded up. */
  function RoundHalfUp(x: real): (n: int)
    ensures n as real - 0.5 <= x < n as real + 0.5
  {
    (x + 0.5).Floor
  }

  lemma {:induction false} DigitCharValue(d: nat)
    requires d < 10
    ensures IsDigit(DigitChar(d)) && DigitValue(DigitChar(d)) == d
  {
  }

  lemma {:induction false} ThreeDigitsValue(a: char, b: char, c: char)
    requires IsDigit(a) && IsDigit(b) && IsDigit(c)
    ensures DigitsValue([a, b, c]) == DigitValue(a) * 100 + DigitValue(b) * 10 + DigitValue(c)
  {
    var s := [a, b, c];
    assert s[..2] == [a, b];
    assert [a, b][..1] == [a];
    assert [a][..0] == [];
    assert DigitsValue([a]) == DigitValue(a);
    assert DigitsValue([a, b]) == DigitValue(a) * 10 + DigitValue(b);
    assert DigitsValue(s) == DigitsValue([a, b]) * 10 + DigitValue(c);
  }

  /** Three digits with leading zeros: a non-leading thousands group. */
  function Pad3(k: nat): (r: string)
    requires k < 1000
    ensures |r| == 3 && forall i :: 0 <= i < 3 ==> IsDigit(r[i])
    ensures DigitsValue(r) == k
  {
    DigitCharValue(k / 100);
    DigitCharValue(k / 10 % 10);
    DigitCharValue(k % 10);
    ThreeDigitsValue(DigitChar(k / 100), DigitChar(k / 10 % 10), DigitChar(k % 10));
    [DigitChar(k / 100), DigitChar(k / 10 % 10), DigitChar(k % 10)]
  }

  /**
   * en-US digit grouping: digits and commas, a comma exactly at every fourth
   * place counted from the end, so a leading group of one to three digits
   * and then groups of exactly three.
   */
  predicate CommaGrouped(r: string) {
    && |r| % 4 != 0
    && (forall i :: 0 <= i < |r| ==> IsDigit(r[i]) || r[i] == ',')
    && (forall i :: 0 <= i < |r| ==> (r[i] == ',' <==> i > 0 && (|r| - i) % 4 == 0))
  }

  /** Decimal renderings below 10, 100 and 1000 have at most one, two and three digits. */
  lemma {:induction false} NatToStringShort(n: nat)
    ensures n < 10 ==> |NatToString(n)| == 1
    ensures n < 100 ==> |NatToString(n)| <= 2
    ensures n < 1000 ==> |NatToString(n)| <= 3
  {
    if n >= 10 {
      NatToStringShort(n / 10);
    }
  }

  /** Appending a comma and a three-digit group to a grouped rendering keeps it grouped. */
  lemma {:induction false} GroupStep(hi: string, lo: string)
    requires CommaGrouped(hi)
    requires |lo| == 3 && forall i :: 0 <= i < 3 ==> IsDigit(lo[i])
    ensures CommaGrouped(hi + "," + lo)
  {
    var r := hi + "," + lo;
    forall i | 0 <= i < |r| ensures (IsDigit(r[i]) || r[i] == ',') && (r[i] == ',' <==> i > 0 && (|r| - i) % 4 == 0) {
      if i < |hi| {
        assert r[i] == hi[i];
        assert |r| - i == (|hi| - i) + 4;
      } else if i > |hi| {
        assert r[i] == lo[i - |hi| - 1];
      }
    }
  }

  /** en-US grouping of a non-negative integer: commas between groups of three digits, no leading zero. */
  function GroupThousands(n: nat): (r: string)
    ensures |r| >= 1 && IsDigit(r[0])
    ensures CommaGrouped(r)
    ensures n > 0 ==> r[0] != '0'
    ensures n == 0 ==> r == "0"
  {
    if n < 1000 then
      NatToStringShort(n);
      NatToStringRoundTrip(n);
      NatToString(n)
    else
      var hi := GroupThousands(n / 1000);
      var lo := Pad3(n % 1000);
      GroupStep(hi, lo);
      hi + "," + lo
  }

  /** The digits of a grouped number, commas removed. */
  function Ungroup(s: string): (r: string)
    ensures forall i :: 0 <= i < |r| ==> r[i] in s && r[i] != ','
  {
    if |s| == 0 then ""
    else if s[|s| - 1] == ',' then Ungroup(s[..|s| - 1])
    else Ungroup(s[..|s| - 1]) + [s[|s| - 1]]
  }

  function Pow10(k: nat): nat {
    if k == 0 then 1 else 10 * Pow10(k - 1)
  }

  lemma {:induction false} UngroupAppend(a: string, b: string)
    ensures Ungroup(a + b) == Ungroup(a) + Ungroup(b)
    decreases |b|
  {
    if |b| > 0 {
      assert (a + b)[..|a + b| - 1] == a + b[..|b| - 1];
      UngroupAppend(a, b[..|b| - 1]);
    } else {
      assert a + b == a;
    }
  }

  lemma {:induction false} UngroupDigits(s: string)
    requires forall i :: 0 <= i < |s| ==> IsDigit(s[i])
    ensures Ungroup(s) == s
    decreases |s|
  {
    if |s| > 0 {
      UngroupDigits(s[..|s| - 1]);
      assert s == s[..|s| - 1] + [s[|s| - 1]];
    }
  }

  /** A concatenation of digit strings is a digit string. */
  lemma {:induction false} DigitsConcat(a: string, b: string)
    requires forall i :: 0 <= i < |a| ==> IsDigit(a[i])
    requires forall i :: 0 <= i < |b| ==> IsDigit(b[i])
    ensures forall i :: 0 <= i < |a + b| ==> IsDigit((a + b)[i])
  {
    forall i | 0 <= i < |a + b| ensures IsDigit((a + b)[i]) {
      if i < |a| {
        assert (a + b)[i] == a[i];
      } else {
        assert (a + b)[i] == b[i - |a|];
      }
    }
  }

  /** The arithmetic of appending one digit to the shifted value. */
  lemma {:induction false} ShiftStep(va: int, vb: int, p: int, d: int)
    ensures (va * p + vb) * 10 + d == va * (10 * p) + (vb * 10 + d)
  {
  }

  lemma {:induction false} DigitsValueAppend(a: string, b: string)
    requires forall i :: 0 <= i < |a| ==> IsDigit(a[i])
    requires forall i :: 0 <= i < |b| ==> IsDigit(b[i])
    ensures DigitsValue(a + b) == DigitsValue(a) * Pow10(|b|) + DigitsValue(b)
    decreases |b|
  {
    DigitsConcat(a, b);
    if |b| == 0 {
      assert a + b == a;
    } else {
      var b' := b[..|b| - 1];
      var last := b[|b| - 1];
      assert (a + b)[..|a + b| - 1] == a + b';
      assert (a + b)[|a + b| - 1] == last;
      DigitsValueAppend(a, b');
      ShiftStep(DigitsValue(a), DigitsValue(b'), Pow10(|b'|), DigitValue(last));
    }
  }

  /** Every character of a grouped rendering with its commas removed is a digit. */
  lemma {:induction false} UngroupedAreDigits(g: string)
    requires forall i :: 0 <= i < |g| ==> IsDigit(g[i]) || g[i] == ','
    ensures forall i :: 0 <= i < |Ungroup(g)| ==> IsDigit(Ungroup(g)[i])
  {
    forall i | 0 <= i < |Ungroup(g)| ensures IsDigit(Ungroup(g)[i]) {
      var c := Ungroup(g)[i];
      assert c in g && c != ',';
      var j :| 0 <= j < |g| && g[j] == c;
    }
  }

  /** Removing the commas from the grouped rendering and reading the digits gives back the number. */
  lemma {:induction false} GroupThousandsRoundTrip(n: nat)
    ensures forall i :: 0 <= i < |Ungroup(GroupThousands(n))| ==> IsDigit(Ungroup(GroupThousands(n))[i])
    ensures DigitsValue(Ungroup(GroupThousands(n))) == n
  {
    var g := GroupThousands(n);
    UngroupedAreDigits(g);
    if n < 1000 {
      NatToStringRoundTrip(n);
      UngroupDigits(g);
    } else {
      var hi := GroupThousands(n / 1000);
      var lo := Pad3(n % 1000);
      assert g == (hi + ",") + lo;
      GroupThousandsRoundTrip(n / 1000);
      UngroupAppend(hi + ",", lo);
      UngroupAppend(hi, ",");
      assert Ungroup(",") == "";
      UngroupDigits(lo);
      var u := Ungroup(hi);
      assert Ungroup(g) == u + lo;
      DigitsValueAppend(u, lo);
      assert Pow10(3) == 1000;
      assert DigitsValue(u + lo) == (n / 1000) * 1000 + n % 1000;
    }
  }

  /** The unit word: singular exactly for one metre, so zero is plural. */
  function Unit(n: int): string {
    if n == 1 then "meter" else "meters"
  }

  /** The rendered integer: a minus sign for negatives, then the grouped magnitude. */
  function FormatInteger(n: int): (r: string)
    ensures |r| >= 1
    ensures r[0] == '-' <==> n < 0
    ensures n < 0 ==> CommaGrouped(r[1..])
    ensures n >= 0 ==> CommaGrouped(r)
    ensures n == 0 <==> r == "0"
    ensures n > 0 ==> r[0] != '0'
    ensures n < 0 ==> |r| >= 2 && r[1] != '0'
  {
    if n < 0 then "-" + GroupThousands(-n) else GroupThousands(n)
  }

  /** Reads a rendered integer back: an optional minus sign, then digits and commas. */
  function ReadInteger(s: string): (r: int)
    requires forall i :: 0 <= i < |s| ==> IsDigit(s[i]) || s[i] == ',' || (i == 0 && s[i] == '-')
  {
    if |s| > 0 && s[0] == '-' then -(ReadGrouped(s[1..]) as int) else ReadGrouped(s)
  }

  function ReadGrouped(s: string): nat
    requires forall i :: 0 <= i < |s| ==> IsDigit(s[i]) || s[i] == ',' || (i == 0 && s[i] == '-')
  {
    var u := Ungroup(s);
    if forall i :: 0 <= i < |u| ==> IsDigit(u[i]) then DigitsValue(u) else 0
  }

  /** The grouped rendering holds only digits and commas and reads back as the number. */
  lemma {:induction false} ReadGroupedThousands(n: nat)
    ensures forall i :: 0 <= i < |GroupThousands(n)| ==> IsDigit(GroupThousands(n)[i]) || GroupThousands(n)[i] == ','
    ensures ReadGrouped(GroupThousands(n)) == n
  {
    GroupThousandsRoundTrip(n);
  }

  lemma {:induction false} FormatIntegerRoundTrip(n: int)
    ensures forall i :: 0 <= i < |FormatInteger(n)| ==> IsDigit(FormatInteger(n)[i]) || FormatInteger(n)[i] == ',' || (i == 0 && FormatInteger(n)[i] == '-')
    ensures ReadInteger(FormatInteger(n)) == n
  {
    var m: nat := if n < 0 then -n else n;
    var g := GroupThousands(m);
    ReadGroupedThousands(m);
    var s := FormatInteger(n);
    if n < 0 {
      assert s == "-" + g;
      assert s[1..] == g;
      forall i | 0 <= i < |s| ensures IsDigit(s[i]) || s[i] == ',' || (i == 0 && s[i] == '-') {
        if i > 0 {
          assert s[i] == g[i - 1];
        }
      }
      assert ReadInteger(s) == -(ReadGrouped(g) as int);
    } else {
      assert s == g;
    }
  }

  /** `formatDistance`: the rounded, grouped number, a space, then `meter` or `meters`. */
  function FormatDistance(meters: real): (r: string)
    ensures RoundHalfUp(meters) == 1 <==> r == "1 meter"
    ensures RoundHalfUp(meters) != 1 ==> |r| > 7 && r[|r| - 7..] == " meters"
  {
    var n := RoundHalfUp(meters);
    UnitLabel(n, FormatInteger(n));
    FormatInteger(n) + " " + Unit(n)
  }

  /** A label is `1 meter` exactly for one: any other number takes the longer plural word. */
  lemma {:induction false} UnitLabel(n: int, f: string)
    requires |f| >= 1 && (n == 1 ==> f == "1")
    ensures n == 1 <==> f + " " + Unit(n) == "1 meter"
    ensures n != 1 ==> |f + " " + Unit(n)| > 7 && (f + " " + Unit(n))[|f + " " + Unit(n)| - 7..] == " meters"
  {
    var r := f + " " + Unit(n);
    if n != 1 {
      assert |r| == |f| + 7;
      assert r[|r| - 7..] == " " + Unit(n);
    }
  }

  /**
   * The label reads back as the rounded distance followed by its unit word,
   * and the unit is singular exactly when the distance rounds to one.
   */
  lemma {:induction false} FormatDistanceReadsBack(meters: real)
    ensures var n := RoundHalfUp(meters);
            var r := FormatDistance(meters);
            var k := |r| - |Unit(n)| - 1;
            0 < k && r[k] == ' ' && r[k + 1..] == Unit(n)
            && (forall i :: 0 <= i < k ==> IsDigit(r[i]) || r[i] == ',' || (i == 0 && r[i] == '-'))
            && ReadInteger(r[..k]) == n
            && (n >= 0 ==> CommaGrouped(r[..k]) && (r[0] == '0' <==> n == 0))
            && (n < 0 ==> CommaGrouped(r[1..k]) && r[1] != '0')
    ensures FormatDistance(meters)[|FormatDistance(meters)| - 1] == 's' <==> RoundHalfUp(meters) != 1
  {
    var n := RoundHalfUp(meters);
    var f, u := FormatInteger(n), Unit(n);
    var r := FormatDistance(meters);
    assert r == f + " " + u;
    LabelSplit(f, u);
    FormatIntegerRoundTrip(n);
    var k := |r| - |u| - 1;
    assert k == |f| && r[..k] == f;
    assert r[1..k] == f[1..];
  }

  /** A label `f + " " + u` splits back into the number text, the space and the unit. */
  lemma {:induction false} LabelSplit(f: string, u: string)
    requires |u| > 0
    ensures var r := f + " " + u;
            && r[..|f|] == f && r[|f|] == ' ' && r[|f| + 1..] == u
            && (forall i :: 0 <= i < |f| ==> r[i] == f[i])
            && r[|r| - 1] == u[|u| - 1]
  {
    var r := f + " " + u;
    assert r[..|f|] == f;
    assert r[|f| + 1..] == u;
  }

  /** The labels the formatter documents: 52300 m is `52,300 meters`, 1 m is `1 meter`, 0 m is plural. */
  lemma {:induction false} FormatDistanceExamples()
    ensures FormatDistance(52300.0) == "52,300 meters"
    ensures FormatDistance(0.6) == "1 meter"
    ensures FormatDistance(0.2) == "0 meters"
  {
    assert RoundHalfUp(52300.0) == 52300;
    assert 52300 / 1000 == 52 && 52300 % 1000 == 300;
    assert GroupThousands(52) == "52";
    assert Pad3(300) == "300";
    assert GroupThousands(52300) == GroupThousands(52) + "," + Pad3(300);
    assert RoundHalfUp(0.6) == 1 && GroupThousands(1) == "1";
    assert RoundHalfUp(0.2) == 0 && GroupThousands(0) == "0";
  }
}
