/**
 The license record: reading a current or legacy JSON object, deriving the fields a legacy one lacks, writing it back,
 and what loading license.json does with any file content. The JSON and ISO-8601 libraries are parameters.
 */
module LicenseCache {
  import opened Wrappers

  const EPOCH_ZERO_ISO := "1970-01-01T00:00:00+00:00"
  const GRACE_DAYS := 14
  const DAY := 86_400_000_000      // microseconds

  // ---------------------------------------------------------------------------------------------
  // JSON values
  // ---------------------------------------------------------------------------------------------

  /** A number is its literal; `zero` says whether Python takes it for false. */
  datatype Value =
    | Null
    | Boolean(bool)
    | Number(literal: string, zero: bool)
    | Text(text: string)
    | List(items: seq<Value>)
    | Object(members: Dict)

  type Dict = map<string, Value>

  predicate Truthy(v: Value)
  {
    match v
    case Null => false
    case Boolean(b) => b
    case Number(_, zero) => !zero
    case Text(t) => t != ""
    case List(items) => items != []
    case Object(members) => members != map[]
  }

  /** `data.get(key)`, and `data.get(key) or default`. */
  function Get(data: Dict, key: string): Value
  {
    if key in data then data[key] else Null
  }

  function GetOr(data: Dict, key: string, default: string): Value
  {
    if Truthy(Get(data, key)) then Get(data, key) else Text(default)
  }

  /** What `json.loads` does: JSONDecodeError, any other exception (nesting too deep, number too long), or a value. */
  datatype Parsed = NotJson | ParserRaises | Root(value: Value)

  /**
   `json.loads`, `json.dumps` of a dict, the order in which `list(d)` gives a dict's keys, and which literals are
   numerals that Python prints so, with whether they are zero.
   */
  datatype Json = Json(loads: string -> Parsed, dumps: Dict -> string, keys: Dict -> seq<string>,
                       numeral: string -> Option<bool>)

  /** A value that the library can produce. */
  predicate WellFormed(json: Json, v: Value)
    decreases v
  {
    match v
    case Number(literal, zero) => json.numeral(literal) == Some(zero)
    case List(items) => forall i :: 0 <= i < |items| ==> WellFormed(json, items[i])
    case Object(members) => forall k :: k in members ==> WellFormed(json, members[k])
    case _ => true
  }

  ghost predicate Faithful(json: Json)
  {
    && (forall d: Dict :: WellFormed(json, Object(d)) ==> json.loads(json.dumps(d)) == Root(Object(d)))
    && (forall text: string :: json.loads(text).Root? ==> WellFormed(json, json.loads(text).value))
  }

  // ---------------------------------------------------------------------------------------------
  // Dates
  // ---------------------------------------------------------------------------------------------

  /** A parsed date: microseconds on its own clock face, and its UTC offset if it has one. */
  datatype Moment = Moment(time: int, offset: Option<int>)

  /** `fromisoformat` (None when it raises ValueError), `isoformat`, and the first and last representable times. */
  datatype Calendar = Calendar(parse: string -> Option<Moment>, format: Moment -> string, first: int, last: int)

  predicate Representable(cal: Calendar, m: Moment)
  {
    cal.first <= m.time <= cal.last && (m.offset.Some? ==> -DAY < m.offset.value < DAY)
  }

  ghost predicate Lawful(cal: Calendar)
  {
    && (forall m: Moment :: Representable(cal, m) ==> cal.format(m) != "" && cal.parse(cal.format(m)) == Some(m))
    && (forall s: string :: cal.parse(s).Some? ==> Representable(cal, cal.parse(s).value))
  }

  /** The clock shows a representable time. */
  predicate IsNow(cal: Calendar, now: int)
  {
    cal.first <= now <= cal.last
  }

  function UtcNow(cal: Calendar, now: int): string
  {
    cal.format(Moment(now, Some(0)))
  }

  datatype Error = KeyError | TypeError | AttributeError | OverflowError | OSError | UnicodeDecodeError | ParserError

  /** The result of `anchor + timedelta(days=GRACE_DAYS)`. */
  function Later(m: Moment): Moment
  {
    m.(time := m.time + GRACE_DAYS * DAY)
  }

  /** `_compute_grace_until`: only a ValueError of the parse is caught; anything but text is a TypeError there. */
  function ComputeGraceUntil(cal: Calendar, anchor: Value): Result<Value, Error>
  {
    if !anchor.Text? then Failure(TypeError)
    else match cal.parse(anchor.text)
      case None => Success(Text(EPOCH_ZERO_ISO))
      case Some(m) =>
        if Later(m).time > cal.last then Failure(OverflowError) else Success(Text(cal.format(Later(m))))
  }

  // ---------------------------------------------------------------------------------------------
  // from_dict and to_dict
  // ---------------------------------------------------------------------------------------------

  /** The field annotations are not enforced: every field but `features` holds whatever the record held. */
  datatype License = License(licenseKey: Value, installUuid: Value, tier: Value, features: seq<Value>,
                             activatedAt: Value, expiresAt: Value, status: Value,
                             lastVerifiedAt: Value, lastServerTimestamp: Value, graceUntil: Value)

  /** `list(v)`. */
  function AsList(json: Json, v: Value): Result<seq<Value>, Error>
  {
    match v
    case List(items) => Success(items)
    case Text(t) => Success(seq(|t|, i requires 0 <= i < |t| => Text([t[i]])))
    case Object(members) =>
      var keys := json.keys(members);
      Success(seq(|keys|, i requires 0 <= i < |keys| => Text(keys[i])))
    case _ => Failure(TypeError)
  }

  /** `from_dict`, raising what it raises first. */
  function FromDict(json: Json, cal: Calendar, now: int, data: Dict): Result<License, Error>
  {
    var lastVerifiedAt := GetOr(data, "last_verified_at", UtcNow(cal, now));
    var grace := if Truthy(Get(data, "grace_until")) then Success(data["grace_until"])
                 else ComputeGraceUntil(cal, lastVerifiedAt);
    if grace.Failure? then Failure(grace.error)
    else if "license_key" !in data || "install_uuid" !in data || "tier" !in data then Failure(KeyError)
    else match AsList(json, if "features" in data then data["features"] else List([]))
      case Failure(e) => Failure(e)
      case Success(features) => Success(License(
        data["license_key"], data["install_uuid"], data["tier"],
        features,
        GetOr(data, "activated_at", EPOCH_ZERO_ISO),
        Get(data, "expires_at"),
        GetOr(data, "status", "active"),
        lastVerifiedAt,
        GetOr(data, "last_server_timestamp", EPOCH_ZERO_ISO),
        grace.value))
  }

  function ToDict(c: License): Dict
  {
    map["license_key" := c.licenseKey, "install_uuid" := c.installUuid, "tier" := c.tier,
        "features" := List(c.features), "activated_at" := c.activatedAt, "expires_at" := c.expiresAt,
        "status" := c.status, "last_verified_at" := c.lastVerifiedAt,
        "last_server_timestamp" := c.lastServerTimestamp, "grace_until" := c.graceUntil]
  }

  predicate IsPr02Shape(raw: Dict)
  {
    || "status" !in raw || "last_verified_at" !in raw
    || "last_server_timestamp" !in raw || "grace_until" !in raw
  }

  /** No field that from_dict would replace by a default. */
  predicate Complete(c: License)
  {
    && Truthy(c.activatedAt) && Truthy(c.status) && Truthy(c.lastVerifiedAt)
    && Truthy(c.lastServerTimestamp) && Truthy(c.graceUntil)
  }

  // ---------------------------------------------------------------------------------------------
  // Loading the file
  // ---------------------------------------------------------------------------------------------

  /** license.json as a reader meets it: it may be gone or closed to it, and need not be UTF-8. */
  datatype File = Missing | CannotRead | Undecodable | Content(text: string)

  datatype Load = NoLicense | Loaded(license: License, raw: Dict) | Raised(error: Error)

  /** The exceptions that the loader turns into "no license", besides JSONDecodeError. */
  predicate IsCaught(e: Error)
  {
    e == KeyError || e == TypeError
  }

  /** `load_license_cache_with_raw`. A root that is not an object has no `get`. */
  function LoadLicense(json: Json, cal: Calendar, now: int, file: File): Load
  {
    match file
    case Missing => NoLicense
    case CannotRead => Raised(OSError)
    case Undecodable => Raised(UnicodeDecodeError)
    case Content(text) =>
      match json.loads(text)
      case NotJson => NoLicense
      case ParserRaises => Raised(ParserError)
      case Root(Object(raw)) =>
        (match FromDict(json, cal, now, raw)
         case Success(c) => Loaded(c, raw)
         case Failure(e) => if IsCaught(e) then NoLicense else Raised(e))
      case Root(_) => Raised(AttributeError)
  }

  function SaveLicense(json: Json, c: License): string
  {
    json.dumps(ToDict(c))
  }

  // ---------------------------------------------------------------------------------------------
  // Theorems
  // ---------------------------------------------------------------------------------------------

  /** What from_dict returns is complete, whatever the record was. */
  lemma FromDictCompletes(json: Json, cal: Calendar, now: int, data: Dict)
    requires Lawful(cal) && IsNow(cal, now) && FromDict(json, cal, now, data).Success?
    ensures Complete(FromDict(json, cal, now, data).value)
  {}

  /** The member is there, and Python takes it for true. */
  predicate Has(data: Dict, key: string)
  {
    key in data && data[key] != Null && data[key] != Boolean(false) && data[key] != Text("") && data[key] != List([])
    && data[key] != Object(map[]) && (data[key].Number? ==> !data[key].zero)
  }

  /** Field by field: what the record has is kept, and what it lacks becomes these values. */
  lemma FieldsOf(json: Json, cal: Calendar, now: int, data: Dict)
    requires FromDict(json, cal, now, data).Success?
    ensures var c := FromDict(json, cal, now, data).value;
            && "license_key" in data && c.licenseKey == data["license_key"]
            && "install_uuid" in data && c.installUuid == data["install_uuid"]
            && "tier" in data && c.tier == data["tier"]
            && c.activatedAt == (if Has(data, "activated_at") then data["activated_at"]
                                 else Text("1970-01-01T00:00:00+00:00"))
            && c.status == (if Has(data, "status") then data["status"] else Text("active"))
            && c.lastVerifiedAt == (if Has(data, "last_verified_at") then data["last_verified_at"]
                                    else Text(cal.format(Moment(now, Some(0)))))
            && c.lastServerTimestamp == (if Has(data, "last_server_timestamp") then data["last_server_timestamp"]
                                         else Text("1970-01-01T00:00:00+00:00"))
            && (Has(data, "grace_until") ==> c.graceUntil == data["grace_until"])
            && c.expiresAt == (if "expires_at" in data then data["expires_at"] else Null)
            && ("features" !in data ==> c.features == [])
            && ("features" in data && data["features"].List? ==> c.features == data["features"].items)
  {}

  /**
   An object or a text in place of the feature list is taken apart as Python's list() does; nothing else is accepted.
   */
  lemma FeaturesOf(json: Json, cal: Calendar, now: int, data: Dict)
    requires FromDict(json, cal, now, data).Success? && "features" in data
    ensures var v, features := data["features"], FromDict(json, cal, now, data).value.features;
            && (v.Text? || v.List? || v.Object?)
            && (v.Text? ==> |features| == |v.text|
                            && forall i :: 0 <= i < |features| ==> features[i] == Text([v.text[i]]))
            && (v.Object? ==> |features| == |json.keys(v.members)|
                              && forall i :: 0 <= i < |features| ==> features[i] == Text(json.keys(v.members)[i]))
  {}

  /**
   A record is refused exactly when a key is missing, the feature list is none, or the grace date cannot be derived.
   */
  lemma RefusedExactly(json: Json, cal: Calendar, now: int, data: Dict)
    ensures FromDict(json, cal, now, data).Failure?
       <==> || "license_key" !in data || "install_uuid" !in data || "tier" !in data
            || ("features" in data && !data["features"].Text? && !data["features"].List? && !data["features"].Object?)
            || (!Has(data, "grace_until") && Has(data, "last_verified_at") && !data["last_verified_at"].Text?)
            || AnchorOverflows(cal, now, data)
    ensures FromDict(json, cal, now, data) == Failure(OverflowError) <==> AnchorOverflows(cal, now, data)
    ensures FromDict(json, cal, now, data) == Failure(KeyError)
       <==> && ("license_key" !in data || "install_uuid" !in data || "tier" !in data)
            && !AnchorOverflows(cal, now, data)
            && (Has(data, "grace_until") || !Has(data, "last_verified_at") || data["last_verified_at"].Text?)
    ensures FromDict(json, cal, now, data).Failure? ==>
              FromDict(json, cal, now, data).error in {OverflowError, KeyError, TypeError}
  {}

  /** The old shape is exactly a record that lacks one of the four later members; such a record is upgraded on sight. */
  lemma OldShape(raw: Dict)
    ensures IsPr02Shape(raw) <==> !({"status", "last_verified_at", "last_server_timestamp", "grace_until"} <= raw.Keys)
  {}

  lemma FromDictIsWellFormed(json: Json, cal: Calendar, now: int, data: Dict)
    requires WellFormed(json, Object(data)) && FromDict(json, cal, now, data).Success?
    ensures WellFormed(json, Object(ToDict(FromDict(json, cal, now, data).value)))
  {
    var c := FromDict(json, cal, now, data).value;
    forall k: string | k in ToDict(c) ensures WellFormed(json, ToDict(c)[k]) {
      if k == "features" {
        if "features" in data { assert WellFormed(json, data["features"]); }
        assert forall i :: 0 <= i < |c.features| ==> WellFormed(json, c.features[i]);
      }
    }
  }

  lemma CompleteIsReadBack(json: Json, cal: Calendar, now: int, c: License)
    requires Complete(c)
    ensures FromDict(json, cal, now, ToDict(c)) == Success(c)
  {
    var data := ToDict(c);
    assert Get(data, "grace_until") == c.graceUntil && Get(data, "last_verified_at") == c.lastVerifiedAt;
    assert Get(data, "activated_at") == c.activatedAt && Get(data, "expires_at") == c.expiresAt;
    assert Get(data, "status") == c.status && Get(data, "last_server_timestamp") == c.lastServerTimestamp;
  }

  lemma LoadOfDict(json: Json, cal: Calendar, now: int, d: Dict)
    requires Faithful(json) && WellFormed(json, Object(d))
    ensures var load := LoadLicense(json, cal, now, Content(json.dumps(d)));
            match FromDict(json, cal, now, d)
            case Success(c) => load == Loaded(c, d)
            case Failure(e) => load == if IsCaught(e) then NoLicense else Raised(e)
  {}

  /**
   Saving and loading returns the same license at any later time exactly when it is complete; the saved form is never
   PR-02 shape.
   */
  lemma SaveLoadRoundTrip(json: Json, cal: Calendar, now: int, c: License)
    requires Faithful(json) && Lawful(cal) && IsNow(cal, now) && WellFormed(json, Object(ToDict(c)))
    ensures LoadLicense(json, cal, now, Content(SaveLicense(json, c))) == Loaded(c, ToDict(c)) <==> Complete(c)
    ensures !IsPr02Shape(ToDict(c))
  {
    LoadOfDict(json, cal, now, ToDict(c));
    if Complete(c) {
      CompleteIsReadBack(json, cal, now, c);
    } else if FromDict(json, cal, now, ToDict(c)).Success? {
      FromDictCompletes(json, cal, now, ToDict(c));
    }
  }

  /** from_dict is a normaliser that depends on the clock only at its first use. */
  lemma Normalises(json: Json, cal: Calendar, first: int, later: int, data: Dict)
    requires Faithful(json) && Lawful(cal) && IsNow(cal, first) && IsNow(cal, later)
    requires WellFormed(json, Object(data)) && FromDict(json, cal, first, data).Success?
    ensures var c := FromDict(json, cal, first, data).value;
            && FromDict(json, cal, later, ToDict(c)) == Success(c)
            && LoadLicense(json, cal, later, Content(SaveLicense(json, c))) == Loaded(c, ToDict(c))
            && !IsPr02Shape(ToDict(c))
  {
    var c := FromDict(json, cal, first, data).value;
    FromDictCompletes(json, cal, first, data);
    CompleteIsReadBack(json, cal, later, c);
    FromDictIsWellFormed(json, cal, first, data);
    SaveLoadRoundTrip(json, cal, later, c);
  }

  /**
   A grace date that the record has is kept; a derived one is 14 days (in microseconds) after the verification, or
   epoch zero if that is malformed text.
   */
  lemma GraceUntil(json: Json, cal: Calendar, now: int, data: Dict)
    requires Lawful(cal) && IsNow(cal, now) && FromDict(json, cal, now, data).Success?
    ensures var c := FromDict(json, cal, now, data).value;
            if Truthy(Get(data, "grace_until")) then c.graceUntil == data["grace_until"]
            else c.lastVerifiedAt.Text? && c.graceUntil.Text?
                 && match cal.parse(c.lastVerifiedAt.text)
                    case None => c.graceUntil.text == "1970-01-01T00:00:00+00:00"
                    case Some(m) => cal.parse(c.graceUntil.text) == Some(Moment(m.time + 1_209_600_000_000, m.offset))
  {}

  /** A legacy record upgraded now gets its whole grace window from now, however old its activation is. */
  lemma LegacyUpgradeOpensTheWindow(json: Json, cal: Calendar, now: int, data: Dict)
    requires Lawful(cal) && IsNow(cal, now)
    requires "last_verified_at" !in data && "grace_until" !in data && FromDict(json, cal, now, data).Success?
    ensures var c := FromDict(json, cal, now, data).value;
            && c.lastVerifiedAt.Text? && cal.parse(c.lastVerifiedAt.text) == Some(Moment(now, Some(0)))
            && c.graceUntil.Text? && cal.parse(c.graceUntil.text) == Some(Moment(now + 1_209_600_000_000, Some(0)))
  {
    GraceUntil(json, cal, now, data);
  }

  /** The anchor from which a record without a grace date would derive one. */
  function Anchor(cal: Calendar, now: int, data: Dict): Value
  {
    GetOr(data, "last_verified_at", UtcNow(cal, now))
  }

  /** The record has no grace date and its anchor lies in the last 14 days of the calendar. */
  predicate AnchorOverflows(cal: Calendar, now: int, data: Dict)
  {
    && !Truthy(Get(data, "grace_until"))
    && Anchor(cal, now, data).Text?
    && cal.parse(Anchor(cal, now, data).text).Some?
    && Later(cal.parse(Anchor(cal, now, data).text).value).time > cal.last
  }

  /** When the text of license.json makes the loader raise. */
  predicate TextRaises(json: Json, cal: Calendar, now: int, text: string)
  {
    match json.loads(text)
    case NotJson => false
    case ParserRaises => true
    case Root(v) => v.Object? ==> AnchorOverflows(cal, now, v.members)
  }

  /**
   Loading does not always fail closed. It raises exactly when the file is there but cannot be read, is not UTF-8, makes
   the parser itself fail, holds JSON whose root is not an object, or derives a grace date past the calendar's end.
   */
  lemma LoadRaisesExactly(json: Json, cal: Calendar, now: int, file: File)
    ensures LoadLicense(json, cal, now, file).Raised?
       <==> file.CannotRead? || file.Undecodable? || (file.Content? && TextRaises(json, cal, now, file.text))
  {
    if file.Content? && json.loads(file.text).Root? && json.loads(file.text).value.Object? {
      var data := json.loads(file.text).value.members;
      assert FromDict(json, cal, now, data) == Failure(OverflowError) <==> AnchorOverflows(cal, now, data);
    }
  }

  /** And what it raises then. */
  lemma WhatLoadRaises(json: Json, cal: Calendar, now: int)
    ensures LoadLicense(json, cal, now, CannotRead) == Raised(OSError)
    ensures LoadLicense(json, cal, now, Undecodable) == Raised(UnicodeDecodeError)
    ensures LoadLicense(json, cal, now, Missing) == NoLicense
    ensures forall text :: json.loads(text).ParserRaises? ==>
              LoadLicense(json, cal, now, Content(text)) == Raised(ParserError)
    ensures forall text :: json.loads(text).Root? && !json.loads(text).value.Object? ==>
              LoadLicense(json, cal, now, Content(text)) == Raised(AttributeError)
    ensures forall text :: json.loads(text).Root? && json.loads(text).value.Object?
                           && LoadLicense(json, cal, now, Content(text)).Raised? ==>
              LoadLicense(json, cal, now, Content(text)) == Raised(OverflowError)
  {}

  /** Two such inputs: the text `[]`, and a record verified on the calendar's last day. */
  lemma LoadRaisesOnEmptyList(json: Json, cal: Calendar, now: int)
    requires json.loads("[]") == Root(List([]))
    ensures LoadLicense(json, cal, now, Content("[]")) == Raised(AttributeError)
  {}

  lemma LoadRaisesOnLastDay(json: Json, cal: Calendar, now: int)
    requires Faithful(json) && Lawful(cal) && cal.first <= cal.last
    ensures var last := Text(cal.format(Moment(cal.last, None)));
            LoadLicense(json, cal, now, Content(json.dumps(map["last_verified_at" := last]))) == Raised(OverflowError)
  {
    var m := Moment(cal.last, None);
    assert Representable(cal, m);
    var data := map["last_verified_at" := Text(cal.format(m))];
    assert Get(data, "last_verified_at") == Text(cal.format(m)) && Get(data, "grace_until") == Null;
    assert WellFormed(json, Object(data));
    LoadOfDict(json, cal, now, data);
    assert FromDict(json, cal, now, data) == Failure(OverflowError);
  }
}
