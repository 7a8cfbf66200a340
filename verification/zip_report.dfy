/**
 * The command-line outage checker: finding a zip code's area in the
 * cooperative's outage report, the text shown for it, and the list of
 * affected zip codes with their severity marks. Number rendering
 * (`toLocaleString`, default number-to-text, `toFixed(1)`) is a parameter.
 */
module ZipReport {
  import opened Wrappers
  import opened Text
  import opened Query

  /** One polygon of a report: a zip code area and its figures. `crewCount` is `None` when absent. */
  datatype Area = Area(name: string, accounts: int, affected: int, percentAffected: real, crewCount: Option<int>)

  /** One report of the response, e.g. the one with id `"Zip"`. */
  datatype Report = Report(id: string, polygons: seq<Area>)

  /** `reportData.reports` of the parsed response. */
  datatype OutageData = OutageData(reports: seq<Report>)

  /** Array `find`: the index of the first element satisfying `p`, if any. */
  function Find<T>(s: seq<T>, p: T -> bool): (r: Option<nat>)
    ensures r.None? <==> forall i :: 0 <= i < |s| ==> !p(s[i])
    ensures r.Some? ==> r.value < |s| && p(s[r.value]) && forall j :: 0 <= j < r.value ==> !p(s[j])
  {
    if |s| == 0 then None
    else if p(s[0]) then Some(0)
    else
      match Find(s[1..], p)
      case None => None
      case Some(i) => Some(i + 1)
  }

  predicate IsZipReport(r: Report) {
    r.id == "Zip"
  }

  /** The first report with id `"Zip"`, if any. */
  function ZipReportOf(data: OutageData): (r: Option<Report>)
    ensures r.None? <==> forall i :: 0 <= i < |data.reports| ==> data.reports[i].id != "Zip"
    ensures r.Some? ==> r.value.id == "Zip" && r.value in data.reports
    ensures r.Some? ==> exists k :: 0 <= k < |data.reports| && data.reports[k] == r.value
                                   && forall j :: 0 <= j < k ==> data.reports[j].id != "Zip"
  {
    match Find(data.reports, IsZipReport)
    case None => None
    case Some(k) => Some(data.reports[k])
  }

  /**
   * `checkZipCode`: the first area named exactly `zip` in the first `"Zip"`
   * report; `None` (`null`) when there is no such report or no such area.
   */
  function CheckZipCode(data: OutageData, zip: string): (r: Option<Area>)
    ensures ZipReportOf(data).None? ==> r.None?
    ensures ZipReportOf(data).Some? ==>
              var polygons := ZipReportOf(data).value.polygons;
              && (r.None? <==> forall i :: 0 <= i < |polygons| ==> polygons[i].name != zip)
              && (r.Some? ==> exists k :: 0 <= k < |polygons| && polygons[k] == r.value
                                          && forall j :: 0 <= j < k ==> polygons[j].name != zip)
    ensures r.Some? ==> r.value.name == zip
  {
    match ZipReportOf(data)
    case None => None
    case Some(report) =>
      match Find(report.polygons, (a: Area) => a.name == zip)
      case None => None
      case Some(k) => Some(report.polygons[k])
  }

  const NotFound: string := "Zip code not found in service area"
  const OutageStatus: string := "\U{1F534} OUTAGE DETECTED"
  const PowerOnStatus: string := "\U{2705} POWER ON"
  /** The heavy horizontal rule under each heading: 34 box-drawing characters. */
  const Separator: string := Repeat('\U{2501}', 34)
  const PowerOnLine: string := "Status: Power is ON in your area"

  function Repeat(c: char, n: nat): (r: string)
    ensures |r| == n && forall i :: 0 <= i < n ==> r[i] == c
  {
    if n == 0 then "" else [c] + Repeat(c, n - 1)
  }

  /** JavaScript truthiness of `crewCount`: present and non-zero. */
  predicate CrewTruthy(a: Area) {
    a.crewCount.Some? && a.crewCount.value != 0
  }

  function CrewLine(a: Area): string
    requires a.crewCount.Some?
  {
    "Crews Working: " + IntToString(a.crewCount.value)
  }

  function OutLine(a: Area): string {
    "Status: Power is currently OUT for " + IntToString(a.affected) + " customers"
  }

  /** The status lines after the figures: the crew count when truthy and the outage line, or the power-on line. */
  function StatusLines(a: Area): (t: seq<string>)
    ensures 1 <= |t| <= 2
    ensures |t| == 2 <==> a.affected > 0 && CrewTruthy(a)
    ensures |t| == 2 ==> t[0] == CrewLine(a)
    ensures t[|t| - 1] == PowerOnLine <==> a.affected <= 0
    ensures a.affected > 0 ==> t[|t| - 1] == OutLine(a)
  {
    if a.affected > 0 then
      assert OutLine(a)[17] != PowerOnLine[17];
      (if CrewTruthy(a) then [CrewLine(a)] else []) + [OutLine(a)]
    else [PowerOnLine]
  }

  /** The lines `formatOutageInfo` joins for an area. */
  function InfoLines(a: Area, locale: int -> string, show: real -> string): (lines: seq<string>)
    ensures |lines| >= 6
    ensures lines[0] == "\n" + OutageStatus <==> a.affected > 0
    ensures lines[0] == "\n" + PowerOnStatus <==> a.affected <= 0
    ensures lines[1] == Separator
    ensures lines[2] == "Zip Code: " + a.name
    ensures lines[3] == "Total Accounts: " + locale(a.accounts)
    ensures lines[4] == "Affected: " + locale(a.affected) + " (" + show(a.percentAffected) + "%)"
    ensures |lines| == 7 <==> a.affected > 0 && CrewTruthy(a)
    ensures a.affected > 0 && CrewTruthy(a) ==> lines[5] == CrewLine(a)
    ensures lines[|lines| - 1] == PowerOnLine <==> a.affected <= 0
    ensures a.affected > 0 ==> lines[|lines| - 1] == OutLine(a)
  {
    var status := if a.affected > 0 then OutageStatus else PowerOnStatus;
    assert ("\n" + OutageStatus)[1] != ("\n" + PowerOnStatus)[1];
    var head := ["\n" + status, Separator, "Zip Code: " + a.name, "Total Accounts: " + locale(a.accounts),
                 "Affected: " + locale(a.affected) + " (" + show(a.percentAffected) + "%)"];
    var tail := StatusLines(a);
    var lines := head + tail;
    assert lines[5] == tail[0] && lines[|lines| - 1] == tail[|tail| - 1];
    lines
  }

  /**
   * `formatOutageInfo`: the fixed message for a missing area; otherwise the
   * lines above joined with newlines, so the text opens with the outage
   * banner exactly when customers are affected.
   */
  function FormatOutageInfo(area: Option<Area>, locale: int -> string, show: real -> string): (r: string)
    ensures area.None? ==> r == NotFound
    ensures area.Some? ==> (IsPrefix("\n" + OutageStatus, r) <==> area.value.affected > 0)
    ensures area.Some? ==> (IsPrefix("\n" + PowerOnStatus, r) <==> area.value.affected <= 0)
    ensures area.Some? ==> r == Join(InfoLines(area.value, locale, show), "\n")
  {
    match area
    case None => NotFound
    case Some(a) =>
      var lines := InfoLines(a, locale, show);
      JoinHead(lines, "\n");
      OneOfTwoHeads("\n" + OutageStatus, "\n" + PowerOnStatus, lines[0], Join(lines, "\n"));
      Join(lines, "\n")
  }

  /** A text that starts with one of two heads differing in their second character starts with that head only. */
  lemma {:induction false} OneOfTwoHeads(x: string, y: string, head: string, r: string)
    requires |x| >= 2 && |y| >= 2 && x[1] != y[1]
    requires head == x || head == y
    requires IsPrefix(head, r)
    ensures IsPrefix(x, r) <==> head == x
    ensures IsPrefix(y, r) <==> head == y
  {
    assert r[1] == r[..|head|][1] == head[1];
    if IsPrefix(x, r) {
      assert r[1] == r[..|x|][1] == x[1];
    }
    if IsPrefix(y, r) {
      assert r[1] == r[..|y|][1] == y[1];
    }
  }

  // Affected areas.

  function Percent(a: Area): real {
    a.percentAffected
  }

  predicate IsAffected(a: Area) {
    a.affected > 0
  }

  /**
   * `listAffectedAreas`: `None` when there is no `"Zip"` report; otherwise
   * exactly the areas with `affected > 0`, highest `percentAffected` first.
   */
  function AffectedAreas(data: OutageData): (r: Option<seq<Area>>)
    ensures r.None? <==> ZipReportOf(data).None?
    ensures r.Some? ==> SortedDescBy(r.value, Percent)
    ensures r.Some? ==> forall a :: a in r.value <==> a in ZipReportOf(data).value.polygons && a.affected > 0
    ensures r.Some? ==> multiset(r.value) <= multiset(ZipReportOf(data).value.polygons)
    ensures r.Some? ==> forall a :: multiset(r.value)[a]
                                    == if a.affected > 0 then multiset(ZipReportOf(data).value.polygons)[a] else 0
  {
    match ZipReportOf(data)
    case None => None
    case Some(report) =>
      var kept := Filter(report.polygons, IsAffected);
      var sorted := SortDesc(kept, Percent);
      assert forall a :: a in sorted <==> a in multiset(sorted);
      assert forall a :: a in kept <==> a in multiset(kept);
      forall a ensures multiset(sorted)[a] == if a.affected > 0 then multiset(report.polygons)[a] else 0 {
        FilterMultiset(report.polygons, IsAffected, a);
      }
      Some(sorted)
  }

  datatype Severity = Red | Orange | Yellow | Green {
    function Emoji(): string {
      match this
      case Red => "\U{1F534}"
      case Orange => "\U{1F7E0}"
      case Yellow => "\U{1F7E1}"
      case Green => "\U{1F7E2}"
    }

    /** Red is the most severe. */
    function Rank(): nat {
      match this
      case Red => 3
      case Orange => 2
      case Yellow => 1
      case Green => 0
    }
  }

  /** The severity mark: exactly 100 is red, above 50 orange, above 10 yellow, anything else green. */
  function SeverityOf(p: real): (s: Severity)
    ensures s == Red <==> p == 100.0
    ensures s == Orange <==> p != 100.0 && p > 50.0
    ensures s == Yellow <==> 10.0 < p <= 50.0
    ensures s == Green <==> p <= 10.0
  {
    if p == 100.0 then Red
    else if p > 50.0 then Orange
    else if p > 10.0 then Yellow
    else Green
  }

  /** Within 0..100 a higher percentage never gets a milder mark. */
  lemma {:induction false} SeverityMonotone(p: real, q: real)
    requires 0.0 <= p <= q <= 100.0
    ensures SeverityOf(p).Rank() <= SeverityOf(q).Rank()
  {
  }

  /** In the affected list, marks never get more severe further down, while percentages stay within 0..100. */
  lemma {:induction false} AffectedSeverityDescends(data: OutageData, i: nat, j: nat)
    requires AffectedAreas(data).Some?
    requires forall a :: a in ZipReportOf(data).value.polygons ==> 0.0 <= a.percentAffected <= 100.0
    requires i <= j < |AffectedAreas(data).value|
    ensures SeverityOf(AffectedAreas(data).value[i].percentAffected).Rank()
            >= SeverityOf(AffectedAreas(data).value[j].percentAffected).Rank()
  {
    SortedSeverity(AffectedAreas(data).value, i, j);
  }

  /** Along areas sorted by descending percentage within 0-100, the severity rank never rises. */
  lemma {:induction false} SortedSeverity(r: seq<Area>, i: nat, j: nat)
    requires SortedDescBy(r, Percent)
    requires forall a :: a in r ==> 0.0 <= a.percentAffected <= 100.0
    requires i <= j < |r|
    ensures SeverityOf(r[i].percentAffected).Rank() >= SeverityOf(r[j].percentAffected).Rank()
  {
    assert r[i] in r && r[j] in r;
    SeverityMonotone(r[j].percentAffected, r[i].percentAffected);
  }

  /** `padEnd(n)`: `s` followed by spaces up to width `n`. */
  function PadEnd(s: string, n: nat): (r: string)
    ensures |r| == if |s| >= n then |s| else n
    ensures r[..|s|] == s && forall i :: |s| <= i < |r| ==> r[i] == ' '
  {
    if |s| >= n then s else s + seq(n - |s|, _ => ' ')
  }

  /** `padStart(n)`: spaces up to width `n`, then `s`. */
  function PadStart(s: string, n: nat): (r: string)
    ensures |r| == if |s| >= n then |s| else n
    ensures r[|r| - |s|..] == s && forall i :: 0 <= i < |r| - |s| ==> r[i] == ' '
  {
    if |s| >= n then s else seq(n - |s|, _ => ' ') + s
  }

  /** The start of an area's line: its severity mark and its name padded to eight columns. */
  function Lead(a: Area): string {
    SeverityOf(a.percentAffected).Emoji() + " " + PadEnd(a.name, 8) + " - "
  }

  /**
   * One line of the affected list: the lead, the affected count right-aligned
   * in five columns, then the percentage to one decimal and the account count.
   */
  function AreaLine(a: Area, fixed1: real -> string): (r: string)
    ensures IsPrefix(Lead(a), r)
    ensures r == Lead(a) + PadStart(IntToString(a.affected), 5) + " out ("
                 + fixed1(a.percentAffected) + "% of " + IntToString(a.accounts) + ")"
  {
    var lead := Lead(a);
    var r := lead + PadStart(IntToString(a.affected), 5) + " out "
             + "(" + fixed1(a.percentAffected) + "% of " + IntToString(a.accounts) + ")";
    assert r[..|lead|] == lead;
    r
  }

  /** A number below 100000 renders in at most five digits. */
  lemma {:induction false} FiveDigits(n: nat)
    requires n < 100000
    ensures |NatToString(n)| <= 5
  {
    assert Pow10(5) == 100000;
    DigitsBelow(n, 4);
  }

  /** A number below `10^(k+1)` renders in at most `k + 1` digits. */
  lemma {:induction false} DigitsBelow(n: nat, k: nat)
    requires n < Pow10(k + 1)
    ensures |NatToString(n)| <= k + 1
    decreases k
  {
    if n >= 10 {
      assert k > 0;
      DigitsBelow(n / 10, k - 1);
    }
  }

  function Pow10(k: nat): nat {
    if k == 0 then 1 else 10 * Pow10(k - 1)
  }

  /**
   * The list is a table: for a zip code of at most eight characters and
   * fewer than 100000 affected customers, the name field ends at column 13,
   * the count fills columns 13 to 17 right-aligned, and ` out (` always
   * starts at column 18.
   */
  lemma {:induction false} AreaLineColumns(a: Area, fixed1: real -> string)
    requires |a.name| <= 8 && 0 <= a.affected < 100000
    ensures var r := AreaLine(a, fixed1);
            && |r| >= 24
            && r[..13] == Lead(a)
            && r[13..18] == PadStart(IntToString(a.affected), 5)
            && r[18..24] == " out ("
  {
    FiveDigits(a.affected);
    var lead := Lead(a);
    var count := PadStart(IntToString(a.affected), 5);
    assert |SeverityOf(a.percentAffected).Emoji()| == 1;
    assert |lead| == 13;
    assert |count| == 5;
    var r := AreaLine(a, fixed1);
    assert r == lead + count + (" out (" + fixed1(a.percentAffected) + "% of " + IntToString(a.accounts) + ")");
  }

  function AreaLines(areas: seq<Area>, fixed1: real -> string): (r: seq<string>)
    ensures |r| == |areas|
    ensures forall i :: 0 <= i < |areas| ==> IsPrefix(Lead(areas[i]), r[i])
    ensures forall i :: 0 <= i < |areas| ==> r[i] == AreaLine(areas[i], fixed1)
  {
    Map(areas, (a: Area) => AreaLine(a, fixed1))
  }

  const AllClear: string := "\n\U{2705} No outages reported"

  function Heading(n: nat): string {
    "\n\U{1F534} AFFECTED ZIP CODES (" + NatToString(n) + " total):"
  }

  /**
   * What `listAffectedAreas` prints for the list `AffectedAreas` found:
   * nothing without a `"Zip"` report, the all-clear line when no area is
   * affected, and otherwise a heading with the count, the rule and one line
   * per affected area in list order.
   */
  function AffectedListing(found: Option<seq<Area>>, fixed1: real -> string): (r: seq<string>)
    ensures found.None? ==> r == []
    ensures found.Some? && |found.value| == 0 ==> r == [AllClear]
    ensures found.Some? && |found.value| > 0 ==>
              && |r| == |found.value| + 2
              && r[0] == Heading(|found.value|)
              && r[1] == Separator
              && (forall i :: 0 <= i < |found.value| ==> IsPrefix(Lead(found.value[i]), r[i + 2]))
              && (forall i :: 0 <= i < |found.value| ==> r[i + 2] == AreaLine(found.value[i], fixed1))
  {
    if found.None? then []
    else if |found.value| == 0 then [AllClear]
    else
      var lines := AreaLines(found.value, fixed1);
      var r := [Heading(|found.value|), Separator] + lines;
      assert forall i :: 0 <= i < |lines| ==> r[i + 2] == lines[i];
      r
  }
}
