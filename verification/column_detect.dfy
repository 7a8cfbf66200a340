/**
 * The shapefile-to-parquet converter's column detection: which attribute
 * columns hold the full address, house number, street, city and zip code,
 * and the SQL expressions built from whatever was found.
 */
module ColumnDetect {
  import opened Wrappers
  import opened Text

  /** Python `next((c for c in cols if p(c)), None)`: the first column satisfying `p`. */
  function FirstMatch(cols: seq<string>, p: string -> bool): (r: Option<string>)
    ensures r.Some? ==> exists i :: 0 <= i < |cols| && cols[i] == r.value && p(cols[i])
                                     && forall j :: 0 <= j < i ==> !p(cols[j])
    ensures r.None? <==> forall i :: 0 <= i < |cols| ==> !p(cols[i])
  {
    if |cols| == 0 then None
    else if p(cols[0]) then Some(cols[0])
    else
      var r := FirstMatch(cols[1..], p);
      assert forall i :: 1 <= i < |cols| ==> cols[i] == cols[1..][i - 1];
      if r.Some? then
        var i :| 0 <= i < |cols[1..]| && cols[1..][i] == r.value && p(cols[1..][i])
                 && forall j :: 0 <= j < i ==> !p(cols[1..][j]);
        assert cols[i + 1] == r.value && forall j :: 0 <= j < i + 1 ==> !p(cols[j]);
        r
      else r
  }

  /** Python truthiness of an optional column name: `None` and `''` are falsy. */
  predicate Truthy(o: Option<string>) {
    o.Some? && o.value != ""
  }

  /** Python `a or b`: `a` when it is truthy, `b` otherwise. */
  function Or(a: Option<string>, b: Option<string>): (r: Option<string>)
    ensures Truthy(a) ==> r == a
    ensures !Truthy(a) ==> r == b
  {
    if Truthy(a) then a else b
  }

  predicate OneOf(c: string, names: seq<string>) {
    ToUpper(c) in names
  }

  predicate FullAddrHint(c: string) {
    Contains(ToUpper(c), "FULL") && Contains(ToUpper(c), "ADDR")
  }

  predicate FullAddrName(c: string) {
    OneOf(c, ["ADDRESS", "FULLADDR", "FULL_ADDRESS"])
  }

  predicate NumberHint(c: string) {
    Contains(ToUpper(c), "NUM") && Contains(ToUpper(c), "HOUSE")
  }

  predicate NumberName(c: string) {
    OneOf(c, ["ADD_NUMBER", "ADDNUM", "HSE_NBR"])
  }

  predicate StreetHint(c: string) {
    Contains(ToUpper(c), "STREET") || Contains(ToUpper(c), "ST_NAME")
  }

  predicate CityName(c: string) {
    OneOf(c, ["CITY", "CITYNAME", "MUNICIPAL", "PLACENAME"])
  }

  predicate ZipHint(c: string) {
    Contains(ToUpper(c), "ZIP") || Contains(ToUpper(c), "POSTAL")
  }

  /** The detected column for each field, `None` when nothing matched. */
  datatype Detected = Detected(
    fullAddr: Option<string>, addrNum: Option<string>, street: Option<string>,
    city: Option<string>, zip: Option<string>)

  /** The five detections, each a first match in column order with the listed fallbacks. */
  function Detect(cols: seq<string>): (d: Detected)
    ensures Truthy(FirstMatch(cols, FullAddrHint)) ==> d.fullAddr == FirstMatch(cols, FullAddrHint)
    ensures !Truthy(FirstMatch(cols, FullAddrHint)) ==> d.fullAddr == FirstMatch(cols, FullAddrName)
    ensures Truthy(FirstMatch(cols, NumberHint)) ==> d.addrNum == FirstMatch(cols, NumberHint)
    ensures !Truthy(FirstMatch(cols, NumberHint)) ==> d.addrNum == FirstMatch(cols, NumberName)
    ensures d.street == FirstMatch(cols, StreetHint)
    ensures d.city == FirstMatch(cols, CityName)
    ensures d.zip == FirstMatch(cols, ZipHint)
  {
    Detected(
      Or(FirstMatch(cols, FullAddrHint), FirstMatch(cols, FullAddrName)),
      Or(FirstMatch(cols, NumberHint), FirstMatch(cols, NumberName)),
      FirstMatch(cols, StreetHint),
      FirstMatch(cols, CityName),
      FirstMatch(cols, ZipHint))
  }

  /** A detected column name is one of the input columns and meets its field's test. */
  lemma {:induction false} DetectedColumnsQualify(cols: seq<string>)
    ensures var d := Detect(cols);
            (d.fullAddr.Some? ==> d.fullAddr.value in cols && (FullAddrHint(d.fullAddr.value) || FullAddrName(d.fullAddr.value)))
            && (d.addrNum.Some? ==> d.addrNum.value in cols && (NumberHint(d.addrNum.value) || NumberName(d.addrNum.value)))
            && (d.street.Some? ==> d.street.value in cols && StreetHint(d.street.value))
            && (d.city.Some? ==> d.city.value in cols && CityName(d.city.value))
            && (d.zip.Some? ==> d.zip.value in cols && ZipHint(d.zip.value))
  {
  }

  /** The SQL expression chosen for a field. */
  datatype Expr = Column(name: string) | ConcatWs(columns: seq<string>) | EmptyLiteral

  /** The address expression: the full-address column alone, else number then street as present, else `''`. */
  function AddressExpr(d: Detected): (e: Expr)
    ensures Truthy(d.fullAddr) ==> e == Column(d.fullAddr.value)
    ensures e == EmptyLiteral <==> !Truthy(d.fullAddr) && !Truthy(d.addrNum) && !Truthy(d.street)
    ensures e.ConcatWs? <==> !Truthy(d.fullAddr) && (Truthy(d.addrNum) || Truthy(d.street))
    ensures e.ConcatWs? ==> |e.columns| == (if Truthy(d.addrNum) then 1 else 0) + (if Truthy(d.street) then 1 else 0)
    ensures e.ConcatWs? ==> !Truthy(d.fullAddr) && 1 <= |e.columns| <= 2
    ensures e.ConcatWs? ==> (Truthy(d.addrNum) <==> d.addrNum.Some? && e.columns[0] == d.addrNum.value)
    ensures e.ConcatWs? ==> (Truthy(d.street) <==> d.street.Some? && e.columns[|e.columns| - 1] == d.street.value
                                                   && (|e.columns| == 2 || !Truthy(d.addrNum)))
  {
    if Truthy(d.fullAddr) then Column(d.fullAddr.value)
    else
      var parts := (if Truthy(d.addrNum) then [d.addrNum.value] else [])
                   + (if Truthy(d.street) then [d.street.value] else []);
      if |parts| > 0 then ConcatWs(parts) else EmptyLiteral
  }

  /** A house-number or street column, by the tests the converter uses. */
  predicate PartColumn(c: string) {
    NumberHint(c) || NumberName(c) || StreetHint(c)
  }

  /**
   * The address expression of a shapefile reads only columns the shapefile
   * has: the full-address column, or house-number and street columns, each
   * meeting its field's test.
   */
  lemma {:induction false} AddressExprColumns(cols: seq<string>)
    ensures var e := AddressExpr(Detect(cols));
            && (e.Column? ==> e.name in cols && (FullAddrHint(e.name) || FullAddrName(e.name)))
            && (e.ConcatWs? ==> forall k :: 0 <= k < |e.columns| ==> e.columns[k] in cols && PartColumn(e.columns[k]))
  {
    DetectedColumnsQualify(cols);
    ExprColumnsOf(Detect(cols), cols);
  }

  lemma {:induction false} ExprColumnsOf(d: Detected, cols: seq<string>)
    requires d.addrNum.Some? ==> d.addrNum.value in cols && PartColumn(d.addrNum.value)
    requires d.street.Some? ==> d.street.value in cols && PartColumn(d.street.value)
    ensures var e := AddressExpr(d);
            e.ConcatWs? ==> forall k :: 0 <= k < |e.columns| ==> e.columns[k] in cols && PartColumn(e.columns[k])
  {
    var e := AddressExpr(d);
    if e.ConcatWs? {
      forall k | 0 <= k < |e.columns| ensures e.columns[k] in cols && PartColumn(e.columns[k]) {
        if Truthy(d.addrNum) && k == 0 {
          assert e.columns[k] == d.addrNum.value;
        } else {
          assert e.columns[k] == d.street.value;
        }
      }
    }
  }

  /** The city or zip expression: the detected column, else the literal `''`. */
  function FieldExpr(o: Option<string>): (e: Expr)
    ensures e.Column? <==> Truthy(o)
    ensures e.Column? ==> e.name == o.value
    ensures !e.ConcatWs?
  {
    if Truthy(o) then Column(o.value) else EmptyLiteral
  }

  /** A double-quoted SQL identifier as the converter writes it. */
  function Quote(name: string): string {
    "\"" + name + "\""
  }

  function QuoteAll(names: seq<string>): (r: seq<string>)
    ensures |r| == |names|
    ensures forall i :: 0 <= i < |names| ==> r[i] == Quote(names[i])
  {
    seq(|names|, i requires 0 <= i < |names| => Quote(names[i]))
  }

  /** The SQL text of an expression. */
  function Render(e: Expr): string {
    match e
    case Column(n) => Quote(n)
    case ConcatWs(cs) => "CONCAT_WS(' ', " + Join(QuoteAll(cs), ", ") + ")"
    case EmptyLiteral => "''"
  }

  const ConcatPrefix: string := "CONCAT_WS(' ', "

  /**
   * The argument list of a rendered `CONCAT_WS` splits back into the quoted
   * column names, in order, when no name holds a comma.
   */
  lemma {:induction false} ConcatArgumentsSplit(cs: seq<string>)
    requires |cs| >= 1
    requires forall i :: 0 <= i < |cs| ==> ',' !in cs[i]
    ensures var r := Render(ConcatWs(cs));
            IsPrefix(ConcatPrefix, r) && r[|r| - 1] == ')'
            && Split(r[|ConcatPrefix|..|r| - 1], ", ") == QuoteAll(cs)
  {
    var q := QuoteAll(cs);
    var r := Render(ConcatWs(cs));
    assert r == ConcatPrefix + Join(q, ", ") + ")";
    assert r[|ConcatPrefix|..|r| - 1] == Join(q, ", ");
    forall k | 0 <= k < |q| ensures ", "[0] !in q[k] {
      assert q[k] == "\"" + cs[k] + "\"";
    }
    SplitJoin(q, ", ");
  }
}
