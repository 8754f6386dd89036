/**
 * The payload normaliser of HandleAPI: an IncomingEvent, as json.Unmarshal leaves it,
 * becomes the parameters of the event insert. Synonymous keys are resolved by
 * first-non-empty-wins, empty strings become absent values, and optional groups are
 * absent as a whole when their JSON object is absent.
 */
module Normalize {
  import opened Base
  import opened Strings

  /** The geotag object; float64 coordinates are carried as reals and only copied. */
  datatype Geotag = Geotag(lat: real, lon: real)

  datatype VehicleInfo = VehicleInfo(
    make: string, model: string, color: string, vehicleType: string,
    confidenceMMR: string, confidenceColor: string)

  datatype CameraInfo = CameraInfo(serialNumber: string, ipAddress: string)

  /** One element of ImageArray. */
  datatype EmbeddedImage = EmbeddedImage(imageType: string, imageFormat: string, binaryImage: string)

  /**
   * A decoded payload. A missing key decodes to "", a missing object to None and a
   * missing array to the empty sequence. Field names follow the JSON keys.
   */
  datatype IncomingEvent = IncomingEvent(
    carID: string, carid: string, carId: string,
    plateUTF8: string, plateText: string, plateRegion: string, plateRegionCode: string,
    plateCountry: string, plateConfidence: string,
    carState: string, carstate: string,
    datetime: string, captureTimestamp: string,
    sensorProviderID: string, packetCounter: string,
    geotag: Option<Geotag>, vehicleInfo: Option<VehicleInfo>, cameraInfo: Option<CameraInfo>,
    imageFile: string, imageFile2: string,
    imageArray: seq<EmbeddedImage>)

  /** The columns written by the event insert (the creation time is left out). */
  datatype EventFields = EventFields(
    carId: string,
    plateUtf8: Option<string>, carState: Option<string>, sensorProviderId: Option<string>,
    eventDatetime: Option<string>, captureTimestamp: Option<string>,
    plateCountry: Option<string>, plateRegion: Option<string>, plateRegionCode: Option<string>,
    plateConfidence: Option<real>,
    geotagLat: Option<real>, geotagLon: Option<real>,
    vehicleMake: Option<string>, vehicleModel: Option<string>, vehicleColor: Option<string>,
    vehicleType: Option<string>, confidenceMmr: Option<string>, confidenceColor: Option<string>,
    cameraSerial: Option<string>, cameraIp: Option<string>,
    rawJson: Bytes)

  /** coalesce: the first non-empty value, or "" when there is none. */
  function Coalesce(vals: seq<string>): (r: string)
    ensures r == "" <==> forall i :: 0 <= i < |vals| ==> vals[i] == ""
    ensures r != "" ==> exists i :: 0 <= i < |vals| && vals[i] == r && forall j :: 0 <= j < i ==> vals[j] == ""
  {
    if vals == [] then ""
    else if vals[0] != "" then vals[0]
    else
      var r := Coalesce(vals[1..]);
      assert r != "" ==> exists i :: 1 <= i < |vals| && vals[i] == r && forall j :: 0 <= j < i ==> vals[j] == "";
      r
  }

  /** The value at the first non-empty position wins, whatever follows it. */
  lemma CoalesceFirstWins(vals: seq<string>, k: nat)
    requires k < |vals| && vals[k] != ""
    requires forall j :: 0 <= j < k ==> vals[j] == ""
    ensures Coalesce(vals) == vals[k]
  {
  }

  /** ptrIfNotEmpty */
  function PtrIfNotEmpty(s: string): Option<string>
  {
    if s == "" then None else Some(s)
  }

  /** The identifier synthesized from the clock (nanoseconds since the epoch). */
  function AutoCarId(nanos: int): string
  {
    "auto-" + SignedDecimal(nanos)
  }

  function ResolveCarId(e: IncomingEvent, nanos: int): string
  {
    var c := Coalesce([e.carID, e.carid, e.carId]);
    if c == "" then AutoCarId(nanos) else c
  }

  /** The plate text, also returned to the client. */
  function ResolvePlate(e: IncomingEvent): string
  {
    Coalesce([e.plateUTF8, e.plateText])
  }

  function ResolveCarState(e: IncomingEvent): string
  {
    Coalesce([e.carState, e.carstate])
  }

  /** The plate confidence: absent when empty or when strconv.ParseFloat rejects it. */
  function ParseConfidence(s: string, parseFloat: string -> Option<real>): Option<real>
  {
    if s == "" then None else parseFloat(s)
  }

  /** No optional string column is present but empty, and the car id is never empty. */
  predicate NoEmptyPresent(f: EventFields)
  {
    && f.carId != ""
    && f.plateUtf8 != Some("") && f.carState != Some("") && f.sensorProviderId != Some("")
    && f.eventDatetime != Some("") && f.captureTimestamp != Some("")
    && f.plateCountry != Some("") && f.plateRegion != Some("") && f.plateRegionCode != Some("")
    && f.vehicleMake != Some("") && f.vehicleModel != Some("") && f.vehicleColor != Some("")
    && f.vehicleType != Some("") && f.confidenceMmr != Some("") && f.confidenceColor != Some("")
    && f.cameraSerial != Some("") && f.cameraIp != Some("")
  }

  /** The normalisation step of HandleAPI, given the payload bytes and the clock. */
  function NormalizeEvent(e: IncomingEvent, raw: Bytes, nanos: int, parseFloat: string -> Option<real>): (r: EventFields)
    ensures NoEmptyPresent(r)
    ensures r.rawJson == raw
  {
    var v := e.vehicleInfo;
    var c := e.cameraInfo;
    EventFields(
      carId := ResolveCarId(e, nanos),
      plateUtf8 := PtrIfNotEmpty(ResolvePlate(e)),
      carState := PtrIfNotEmpty(ResolveCarState(e)),
      sensorProviderId := PtrIfNotEmpty(e.sensorProviderID),
      eventDatetime := PtrIfNotEmpty(e.datetime),
      captureTimestamp := PtrIfNotEmpty(e.captureTimestamp),
      plateCountry := PtrIfNotEmpty(e.plateCountry),
      plateRegion := PtrIfNotEmpty(e.plateRegion),
      plateRegionCode := PtrIfNotEmpty(e.plateRegionCode),
      plateConfidence := ParseConfidence(e.plateConfidence, parseFloat),
      geotagLat := if e.geotag.Some? then Some(e.geotag.value.lat) else None,
      geotagLon := if e.geotag.Some? then Some(e.geotag.value.lon) else None,
      vehicleMake := if v.Some? then PtrIfNotEmpty(v.value.make) else None,
      vehicleModel := if v.Some? then PtrIfNotEmpty(v.value.model) else None,
      vehicleColor := if v.Some? then PtrIfNotEmpty(v.value.color) else None,
      vehicleType := if v.Some? then PtrIfNotEmpty(v.value.vehicleType) else None,
      confidenceMmr := if v.Some? then PtrIfNotEmpty(v.value.confidenceMMR) else None,
      confidenceColor := if v.Some? then PtrIfNotEmpty(v.value.confidenceColor) else None,
      cameraSerial := if c.Some? then PtrIfNotEmpty(c.value.serialNumber) else None,
      cameraIp := if c.Some? then PtrIfNotEmpty(c.value.ipAddress) else None,
      rawJson := raw)
  }

  /** carID beats carid, which beats carId; with none of them the id is synthesized. */
  lemma CarIdPrecedence(e: IncomingEvent, nanos: int)
    ensures e.carID != "" ==> ResolveCarId(e, nanos) == e.carID
    ensures e.carID == "" && e.carid != "" ==> ResolveCarId(e, nanos) == e.carid
    ensures e.carID == "" && e.carid == "" && e.carId != "" ==> ResolveCarId(e, nanos) == e.carId
    ensures e.carID == "" && e.carid == "" && e.carId == "" ==>
      ResolveCarId(e, nanos) == AutoCarId(nanos) && HasPrefix(ResolveCarId(e, nanos), "auto-")
  {
    var vals := [e.carID, e.carid, e.carId];
    if e.carID != "" {
      CoalesceFirstWins(vals, 0);
    } else if e.carid != "" {
      CoalesceFirstWins(vals, 1);
    } else if e.carId != "" {
      CoalesceFirstWins(vals, 2);
    }
  }

  /** Two readings of the clock that differ give two different synthesized ids. */
  lemma AutoCarIdDistinct(n1: int, n2: int)
    requires n1 != n2
    ensures AutoCarId(n1) != AutoCarId(n2)
  {
    if AutoCarId(n1) == AutoCarId(n2) {
      assert SignedDecimal(n1) == AutoCarId(n1)[5..] == AutoCarId(n2)[5..] == SignedDecimal(n2);
      SignedDecimalInjective(n1, n2);
    }
  }

  /** plateUTF8 beats plateText and carState beats carstate. */
  lemma PlateAndStatePrecedence(e: IncomingEvent)
    ensures e.plateUTF8 != "" ==> ResolvePlate(e) == e.plateUTF8
    ensures e.plateUTF8 == "" ==> ResolvePlate(e) == e.plateText
    ensures e.carState != "" ==> ResolveCarState(e) == e.carState
    ensures e.carState == "" ==> ResolveCarState(e) == e.carstate
  {
    if e.plateUTF8 != "" {
      CoalesceFirstWins([e.plateUTF8, e.plateText], 0);
    } else if e.plateText != "" {
      CoalesceFirstWins([e.plateUTF8, e.plateText], 1);
    }
    if e.carState != "" {
      CoalesceFirstWins([e.carState, e.carstate], 0);
    } else if e.carstate != "" {
      CoalesceFirstWins([e.carState, e.carstate], 1);
    }
  }

  /** An absent vehicle_info or camera_info object leaves every one of its columns absent. */
  lemma AbsentGroupsGiveAbsentFields(e: IncomingEvent, raw: Bytes, nanos: int, parseFloat: string -> Option<real>)
    ensures var r := NormalizeEvent(e, raw, nanos, parseFloat);
      e.vehicleInfo.None? ==>
        r.vehicleMake.None? && r.vehicleModel.None? && r.vehicleColor.None?
        && r.vehicleType.None? && r.confidenceMmr.None? && r.confidenceColor.None?
    ensures var r := NormalizeEvent(e, raw, nanos, parseFloat);
      e.cameraInfo.None? ==> r.cameraSerial.None? && r.cameraIp.None?
  {
  }

  /** ptrIfNotEmpty's promise about one column: present exactly when its string is non-empty, and then holding it. */
  predicate Carries(col: Option<string>, s: string)
  {
    (col.Some? <==> s != "") && (col.Some? ==> col.value == s)
  }

  /** Every top-level optional string column carries its (coalesced) JSON string. */
  lemma TopLevelFields(e: IncomingEvent, raw: Bytes, nanos: int, parseFloat: string -> Option<real>)
    ensures var r := NormalizeEvent(e, raw, nanos, parseFloat);
      && Carries(r.plateUtf8, ResolvePlate(e)) && Carries(r.carState, ResolveCarState(e))
      && Carries(r.sensorProviderId, e.sensorProviderID) && Carries(r.eventDatetime, e.datetime)
      && Carries(r.captureTimestamp, e.captureTimestamp) && Carries(r.plateCountry, e.plateCountry)
      && Carries(r.plateRegion, e.plateRegion) && Carries(r.plateRegionCode, e.plateRegionCode)
  {
  }

  /** Inside a present group a column is present exactly when its string is non-empty, and then holds it. */
  lemma PresentGroupFields(e: IncomingEvent, raw: Bytes, nanos: int, parseFloat: string -> Option<real>)
    ensures var r := NormalizeEvent(e, raw, nanos, parseFloat);
      e.vehicleInfo.Some? ==>
        var v := e.vehicleInfo.value;
        && Carries(r.vehicleMake, v.make) && Carries(r.vehicleModel, v.model)
        && Carries(r.vehicleColor, v.color) && Carries(r.vehicleType, v.vehicleType)
        && Carries(r.confidenceMmr, v.confidenceMMR) && Carries(r.confidenceColor, v.confidenceColor)
    ensures var r := NormalizeEvent(e, raw, nanos, parseFloat);
      e.cameraInfo.Some? ==>
        Carries(r.cameraSerial, e.cameraInfo.value.serialNumber) && Carries(r.cameraIp, e.cameraInfo.value.ipAddress)
  {
  }

  /** Latitude and longitude are present together, exactly when the geotag object is. */
  lemma GeotagPaired(e: IncomingEvent, raw: Bytes, nanos: int, parseFloat: string -> Option<real>)
    ensures var r := NormalizeEvent(e, raw, nanos, parseFloat);
      (r.geotagLat.Some? <==> e.geotag.Some?) && (r.geotagLon.Some? <==> e.geotag.Some?)
  {
  }

  /** A malformed or empty confidence string is absent, never an error; a parsable one is kept. */
  lemma ConfidenceTolerant(e: IncomingEvent, raw: Bytes, nanos: int, parseFloat: string -> Option<real>)
    ensures var r := NormalizeEvent(e, raw, nanos, parseFloat);
      (e.plateConfidence == "" || parseFloat(e.plateConfidence).None?) ==> r.plateConfidence.None?
    ensures var r := NormalizeEvent(e, raw, nanos, parseFloat);
      e.plateConfidence != "" && parseFloat(e.plateConfidence).Some? ==>
        r.plateConfidence == parseFloat(e.plateConfidence)
  {
  }
}
