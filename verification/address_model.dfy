/**
 * The generator's address record: NENA address components read from the
 * state address feed, the `<Null>` scrub applied to optional attributes, and
 * the USPS-style first and second address lines built from the components.
 */
module AddressModel {
  import opened Wrappers
  import opened Text
  import Query

  /** A raw attribute value as the feed delivers it. */
  datatype Value = Null | Str(s: string) | Int(i: int)

  /** The feed's placeholder for a missing attribute. */
  const NullMarker: string := "<Null>"

  /** The `convert_null_strings` validator: the placeholder string becomes `None`, anything else passes. */
  function ConvertNullStrings(v: Value): (r: Value)
    ensures v == Str(NullMarker) ==> r == Null
    ensures v != Str(NullMarker) ==> r == v
  {
    if v.Str? && v.s == NullMarker then Null else v
  }

  /** One feed record, by source attribute name. */
  datatype RawAddress = RawAddress(
    objectId: int, latitude: real, longitude: real,
    placeType: Value, placeName: Value, county: Value, zipcode: Value,
    streetName: Value, addrNum: Value, numSuf: Value,
    building: Value, floor: Value, unit: Value,
    preMod: Value, preDir: Value, preType: Value, preSep: Value,
    postType: Value, postDir: Value, posMod: Value)

  /** A validated address record. */
  datatype Address = Address(
    id: int, latitude: real, longitude: real,
    placeType: Option<string>, city: string, county: string, zipcode: string,
    streetName: string, number: string, numberSuffix: Option<string>,
    building: Option<string>, floor: Option<string>, unit: Option<string>,
    preMod: Option<string>, preDir: Option<string>, preType: Option<string>, preSep: Option<int>,
    postType: Option<string>, postDir: Option<string>, postMod: Option<string>)

  /** The field whose value had the wrong type. */
  datatype ValidationError = ValidationError(field: string)

  function RequiredStr(v: Value, field: string): Result<string, ValidationError> {
    if v.Str? then Ok(v.s) else Err(ValidationError(field))
  }

  /** An optional string field: scrubbed first, then `None` or a string. */
  function OptionalStr(v: Value, field: string): Result<Option<string>, ValidationError> {
    match ConvertNullStrings(v)
    case Null => Ok(None)
    case Str(s) => Ok(Some(s))
    case Int(_) => Err(ValidationError(field))
  }

  /**
   * pydantic's lax reading of a string as an `int`: an optional sign, then
   * one or more ASCII digits.
   */
  function ParseIntText(t: string): (r: Option<int>)
    ensures r.Some? <==> |t| > 0 && (IsDigit(t[0]) || ((t[0] == '-' || t[0] == '+') && |t| > 1))
                         && forall i :: 0 < i < |t| ==> IsDigit(t[i])
  {
    var signed := |t| > 0 && (t[0] == '-' || t[0] == '+');
    var digits := if signed then t[1..] else t;
    if |digits| > 0 && forall i :: 0 <= i < |digits| ==> IsDigit(digits[i]) then
      var n: int := DigitsValue(digits);
      Some(if t[0] == '-' then -n else n)
    else
      assert signed ==> forall i :: 0 <= i < |digits| ==> digits[i] == t[i + 1];
      None
  }

  /** The text `str()` renders for an integer reads back as that integer. */
  lemma {:induction false} ParseIntTextRoundTrip(k: int)
    ensures ParseIntText(IntToString(k)) == Some(k)
  {
    var m: nat := if k < 0 then -k else k;
    NatToStringRoundTrip(m);
    if k < 0 {
      ParseNegative(NatToString(m));
    } else {
      ParseUnsigned(NatToString(m));
    }
  }

  lemma {:induction false} ParseUnsigned(s: string)
    requires |s| > 0 && forall i :: 0 <= i < |s| ==> IsDigit(s[i])
    ensures ParseIntText(s) == Some(DigitsValue(s) as int)
  {
    assert IsDigit(s[0]);
  }

  lemma {:induction false} ParseNegative(s: string)
    requires |s| > 0 && forall i :: 0 <= i < |s| ==> IsDigit(s[i])
    ensures ParseIntText("-" + s) == Some(-(DigitsValue(s) as int))
  {
    var t := "-" + s;
    assert t[0] == '-' && t[1..] == s;
  }

  /** The optional integer field `St_PreSep`: scrubbed first, then `None`, an integer, or a string of one. */
  function OptionalInt(v: Value, field: string): Result<Option<int>, ValidationError> {
    match ConvertNullStrings(v)
    case Null => Ok(None)
    case Int(i) => Ok(Some(i))
    case Str(t) =>
      match ParseIntText(t)
      case Some(i) => Ok(Some(i))
      case None => Err(ValidationError(field))
  }

  /** A separator delivered as the text of an integer is read as that integer. */
  lemma {:induction false} PreSepFromText(k: int, field: string)
    ensures OptionalInt(Str(IntToString(k)), field) == Ok(Some(k))
  {
    ParseIntTextRoundTrip(k);
    assert IntToString(k) != NullMarker by {
      assert IntToString(k)[0] != '<';
    }
  }

  /** What an optional string field holds once it has been scrubbed. */
  function Scrubbed(v: Value): Option<string> {
    match ConvertNullStrings(v)
    case Str(s) => Some(s)
    case _ => None
  }

  /** A `str | None` field accepts anything but a non-string value. */
  predicate StrOrAbsent(v: Value) {
    !v.Int?
  }

  /** The `int | None` field accepts nothing, the placeholder, an integer, or the text of one. */
  predicate IntOrAbsent(v: Value) {
    v.Str? ==> v.s == NullMarker || ParseIntText(v.s).Some?
  }

  /** Every field of the record has a type its declaration accepts. */
  predicate Acceptable(raw: RawAddress) {
    && raw.placeName.Str? && raw.county.Str? && raw.zipcode.Str?
    && raw.streetName.Str? && raw.addrNum.Str?
    && StrOrAbsent(raw.placeType) && StrOrAbsent(raw.numSuf) && StrOrAbsent(raw.building)
    && StrOrAbsent(raw.floor) && StrOrAbsent(raw.unit) && StrOrAbsent(raw.preMod)
    && StrOrAbsent(raw.preDir) && StrOrAbsent(raw.preType) && StrOrAbsent(raw.postType)
    && StrOrAbsent(raw.postDir) && StrOrAbsent(raw.posMod)
    && IntOrAbsent(raw.preSep)
  }

  /**
   * `AddressModel.model_validate`: the record is accepted exactly when every
   * field has an acceptable type; the twelve listed optional fields are
   * scrubbed of `<Null>`; city, county, zip code, street name and number are
   * taken as they are; the separator is read as an integer.
   */
  function Validate(raw: RawAddress): (r: Result<Address, ValidationError>)
    ensures r.Ok? ==> Acceptable(raw)
    ensures r.Ok? ==> r.value.id == raw.objectId
    ensures r.Ok? ==> r.value.latitude == raw.latitude && r.value.longitude == raw.longitude
    ensures r.Ok? ==> raw.county == Str(r.value.county)
    ensures r.Ok? && raw.preSep.Int? ==> r.value.preSep == Some(raw.preSep.i)
    ensures r.Ok? && raw.preSep.Null? ==> r.value.preSep == None
    ensures r.Ok? && raw.preSep.Str? && raw.preSep.s != NullMarker ==> r.value.preSep == ParseIntText(raw.preSep.s)
    ensures r.Ok? ==> raw.placeName == Str(r.value.city) && raw.zipcode == Str(r.value.zipcode)
    ensures r.Ok? ==> raw.streetName == Str(r.value.streetName) && raw.addrNum == Str(r.value.number)
    ensures r.Ok? ==> r.value.unit == Scrubbed(raw.unit) && r.value.building == Scrubbed(raw.building)
    ensures r.Ok? ==> r.value.floor == Scrubbed(raw.floor) && r.value.numberSuffix == Scrubbed(raw.numSuf)
    ensures r.Ok? ==> r.value.preMod == Scrubbed(raw.preMod) && r.value.preDir == Scrubbed(raw.preDir)
    ensures r.Ok? ==> r.value.preType == Scrubbed(raw.preType) && r.value.postType == Scrubbed(raw.postType)
    ensures r.Ok? ==> r.value.postDir == Scrubbed(raw.postDir) && r.value.postMod == Scrubbed(raw.posMod)
    ensures r.Ok? ==> r.value.placeType == Scrubbed(raw.placeType)
    ensures raw.preSep == Str(NullMarker) ==> r.Ok? ==> r.value.preSep == None
    ensures raw.placeName == Str(NullMarker) ==> r.Ok? ==> r.value.city == NullMarker
    ensures raw.placeName.Null? || raw.zipcode.Null? ==> r.Err?
  {
    var placeType :- OptionalStr(raw.placeType, "Place_Type");
    var city :- RequiredStr(raw.placeName, "PlaceName");
    var county :- RequiredStr(raw.county, "County");
    var zipcode :- RequiredStr(raw.zipcode, "Zipcode");
    var streetName :- RequiredStr(raw.streetName, "StreetName");
    var number :- RequiredStr(raw.addrNum, "AddrNum");
    var numberSuffix :- OptionalStr(raw.numSuf, "NumSuf");
    var building :- OptionalStr(raw.building, "Building");
    var floor :- OptionalStr(raw.floor, "Floor");
    var unit :- OptionalStr(raw.unit, "Unit");
    var preMod :- OptionalStr(raw.preMod, "St_PreMod");
    var preDir :- OptionalStr(raw.preDir, "PreDir");
    var preType :- OptionalStr(raw.preType, "PreType");
    var preSep :- OptionalInt(raw.preSep, "St_PreSep");
    var postType :- OptionalStr(raw.postType, "PostType");
    var postDir :- OptionalStr(raw.postDir, "PostDir");
    var postMod :- OptionalStr(raw.posMod, "St_PosMod");
    Ok(Address(raw.objectId, raw.latitude, raw.longitude, placeType, city, county, zipcode,
               streetName, number, numberSuffix, building, floor, unit,
               preMod, preDir, preType, preSep, postType, postDir, postMod))
  }

  /** Every record whose fields have acceptable types is accepted: together with `Validate`'s own contract, acceptance is exactly `Acceptable`. */
  lemma {:induction false} ValidateAccepts(raw: RawAddress)
    ensures Validate(raw).Ok? <==> Acceptable(raw)
  {
  }

  /** A record whose separator is the text of an integer validates with that integer, when its other fields are acceptable. */
  /** A separator delivered as the text of an integer is acceptable and validates to that integer. */
  lemma {:induction false} ValidatePreSepText(raw: RawAddress, k: int)
    requires raw.preSep == Str(IntToString(k))
    ensures IntOrAbsent(raw.preSep)
    ensures Validate(raw).Ok? ==> Validate(raw).value.preSep == Some(k)
  {
    ParseIntTextRoundTrip(k);
    assert IntToString(k) != NullMarker by {
      assert IntToString(k)[0] != '<';
    }
  }

  // Address line 1.

  /** The pre-type separator as rendered by `str()`; `None` and `0` are falsy. */
  function SepText(o: Option<int>): string {
    if o.Some? && o.value != 0 then IntToString(o.value) else ""
  }

  /**
   * The ten NENA component slots of line 1 in the order `address_line_1` tests
   * them, with the empty string standing for an absent component.
   */
  function Line1Slots(a: Address): seq<string> {
    [a.number, a.numberSuffix.GetOr(""), a.preMod.GetOr(""), a.preDir.GetOr(""),
     a.preType.GetOr(""), SepText(a.preSep), a.streetName,
     a.postType.GetOr(""), a.postDir.GetOr(""), a.postMod.GetOr("")]
  }

  /** `if value: parts.append(value)`: an empty string is falsy and adds nothing. */
  predicate NonEmpty(s: string) {
    s != ""
  }

  /** The tokens `address_line_1` collects: the truthy slots, in slot order. */
  function Line1Parts(a: Address): seq<string> {
    Query.Filter(Line1Slots(a), NonEmpty)
  }

  /**
   * `address_line_1`: empty exactly when every component is, and starting
   * with the address number whenever there is one.
   */
  function AddressLine1(a: Address): (r: string)
    ensures r == "" <==> forall k :: 0 <= k < |Line1Slots(a)| ==> Line1Slots(a)[k] == ""
    ensures a.number != "" ==> IsPrefix(a.number, r)
  {
    JoinFilled(Line1Slots(a));
    Join(Line1Parts(a), " ")
  }

  /**
   * The non-empty slots joined with spaces: empty exactly when every slot is,
   * and starting with the first slot when that one is filled.
   */
  lemma {:induction false} JoinFilled(slots: seq<string>)
    ensures var r := Join(Query.Filter(slots, NonEmpty), " ");
            && (r == "" <==> forall k :: 0 <= k < |slots| ==> slots[k] == "")
            && (|slots| > 0 && slots[0] != "" ==> IsPrefix(slots[0], r))
  {
    var parts := Query.Filter(slots, NonEmpty);
    if |parts| > 0 {
      JoinHead(parts, " ");
      assert parts[0] in parts;
    } else {
      forall k | 0 <= k < |slots| ensures slots[k] == "" {
        assert slots[k] in slots;
      }
    }
    if exists k :: 0 <= k < |slots| && slots[k] != "" {
      var k :| 0 <= k < |slots| && slots[k] != "";
      assert slots[k] in slots;
    }
    if |slots| > 0 && slots[0] != "" {
      assert parts[0] == slots[0];
    }
  }

  /** Joining the non-empty, space-free strings of a list with spaces can be split back apart. */
  lemma {:induction false} FilledTokensSplit(slots: seq<string>)
    requires exists k :: 0 <= k < |slots| && slots[k] != ""
    requires forall k :: 0 <= k < |slots| ==> ' ' !in slots[k]
    ensures Split(Join(Query.Filter(slots, NonEmpty), " "), " ") == Query.Filter(slots, NonEmpty)
  {
    var parts := Query.Filter(slots, NonEmpty);
    var k :| 0 <= k < |slots| && slots[k] != "";
    assert slots[k] in slots && NonEmpty(slots[k]);
    assert slots[k] in parts;
    forall j | 0 <= j < |parts| ensures ' ' !in parts[j] {
      assert parts[j] in parts;
      assert parts[j] in slots;
    }
    var sep := " ";
    assert sep[0] == ' ';
    SplitJoin(parts, sep);
  }

  /**
   * Line 1 is its tokens separated by single spaces: splitting it on spaces
   * gives back exactly the non-empty components, in the fixed NENA order,
   * when no component holds a space itself.
   */
  lemma {:induction false} Line1Tokens(a: Address)
    requires exists k :: 0 <= k < |Line1Slots(a)| && Line1Slots(a)[k] != ""
    requires forall k :: 0 <= k < |Line1Slots(a)| ==> ' ' !in Line1Slots(a)[k]
    ensures Split(AddressLine1(a), " ") == Line1Parts(a)
    ensures forall t :: t in Split(AddressLine1(a), " ") <==> t in Line1Slots(a) && t != ""
  {
    FilledTokensSplit(Line1Slots(a));
  }

  // Address line 2.

  function Designated(designator: string, o: Option<string>): seq<string> {
    if o.Some? && o.value != "" then [designator + " " + o.value] else []
  }

  predicate Filled(o: Option<string>) {
    o.Some? && o.value != ""
  }

  /**
   * `address_line_2`: building, floor and unit designators, present ones
   * only, in that order, separated by single spaces; one case per
   * combination of filled fields.
   */
  function AddressLine2(a: Address): (r: string)
    ensures var b, f, u := a.building, a.floor, a.unit;
            && (!Filled(b) && !Filled(f) && !Filled(u) ==> r == "")
            && (Filled(b) && !Filled(f) && !Filled(u) ==> r == "BLDG " + b.value)
            && (!Filled(b) && Filled(f) && !Filled(u) ==> r == "FL " + f.value)
            && (!Filled(b) && !Filled(f) && Filled(u) ==> r == "UNIT " + u.value)
            && (Filled(b) && Filled(f) && !Filled(u) ==> r == "BLDG " + b.value + " FL " + f.value)
            && (Filled(b) && !Filled(f) && Filled(u) ==> r == "BLDG " + b.value + " UNIT " + u.value)
            && (!Filled(b) && Filled(f) && Filled(u) ==> r == "FL " + f.value + " UNIT " + u.value)
            && (Filled(b) && Filled(f) && Filled(u) ==> r == "BLDG " + b.value + " FL " + f.value + " UNIT " + u.value)
  {
    var parts := Designated("BLDG", a.building) + Designated("FL", a.floor) + Designated("UNIT", a.unit);
    assert |parts| <= 3;
    JoinSmall(parts, " ");
    Join(parts, " ")
  }

  /** Joining up to three pieces, written out. */
  lemma {:induction false} JoinSmall(parts: seq<string>, sep: string)
    ensures |parts| == 0 ==> Join(parts, sep) == ""
    ensures |parts| == 1 ==> Join(parts, sep) == parts[0]
    ensures |parts| == 2 ==> Join(parts, sep) == parts[0] + sep + parts[1]
    ensures |parts| == 3 ==> Join(parts, sep) == parts[0] + sep + parts[1] + sep + parts[2]
  {
    if |parts| >= 2 {
      JoinSmall(parts[1..], sep);
      assert parts[1..][0] == parts[1];
      if |parts| == 3 {
        assert parts[1..][1] == parts[2];
      }
    }
  }

  // Row data.

  /** The row the generator writes for one address. */
  datatype RowData = RowData(id: int, addressLine1: string, addressLine2: string, city: string, zipcode: string)

  /** `to_row_data`: both address lines, city and zip code upper-cased; the id copied. */
  function ToRowData(a: Address): (r: RowData)
    ensures r.id == a.id
    ensures |r.addressLine1| == |AddressLine1(a)| && |r.addressLine2| == |AddressLine2(a)|
    ensures forall i :: 0 <= i < |r.addressLine1| ==> r.addressLine1[i] == UpperChar(AddressLine1(a)[i])
    ensures forall i :: 0 <= i < |r.addressLine2| ==> r.addressLine2[i] == UpperChar(AddressLine2(a)[i])
    ensures |r.city| == |a.city| && |r.zipcode| == |a.zipcode|
    ensures forall i :: 0 <= i < |r.city| ==> r.city[i] == UpperChar(a.city[i])
    ensures forall i :: 0 <= i < |r.zipcode| ==> r.zipcode[i] == UpperChar(a.zipcode[i])
  {
    RowData(a.id, ToUpper(AddressLine1(a)), ToUpper(AddressLine2(a)), ToUpper(a.city), ToUpper(a.zipcode))
  }

  /** Writing a row twice changes nothing: its text fields are already upper case. */
  lemma {:induction false} RowDataIsUpperCase(a: Address)
    ensures var r := ToRowData(a);
            ToUpper(r.addressLine1) == r.addressLine1 && ToUpper(r.addressLine2) == r.addressLine2
            && ToUpper(r.city) == r.city && ToUpper(r.zipcode) == r.zipcode
  {
    UpperIdempotent(AddressLine1(a));
    UpperIdempotent(AddressLine2(a));
    UpperIdempotent(a.city);
    UpperIdempotent(a.zipcode);
  }
}
