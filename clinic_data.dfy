/**
  The clinic record and the ingestion pipeline `toClinics` (src/types/clinic.ts):
  raw JSON rows, flat or wrapped in `{rows}`, become typed clinics with a
  derived id; rows without coordinates are skipped, or rejected under `strict`,
  and a distance to a reference point is attached when one is given.
*/
module ClinicData {
  import opened Wrappers
  import opened JsString
  import ClinicId
  import Seqs

  /** `{lat, lng}` in decimal degrees. */
  datatype LatLng = LatLng(lat: real, lng: real)

  /**
    The great-circle distance in kilometres (`haversineKm`). Its floating-point
    trigonometry is not modelled: every operation that needs it takes it as a
    parameter of this type.
  */
  type Distance = (LatLng, LatLng) -> real

  /** A JSON property as JavaScript reads it: missing, `null`, or a value. */
  datatype RawField<+T> = Undefined | Null | Present(value: T)

  /** `f ?? null`. */
  function OrNull<T>(f: RawField<T>): (r: Option<T>)
    ensures r.None? <==> !f.Present?
    ensures f.Present? ==> r == Some(f.value)
  {
    if f.Present? then Some(f.value) else None
  }

  /** `RawClinicRow`: a row of the dataset before it has an id and required coordinates. */
  datatype RawRow = RawRow(
    county: Str,
    orgName: Str,
    orgUrl: RawField<Str>,
    phone: RawField<Str>,
    address: Str,
    mapUrl: RawField<Str>,
    lat: RawField<real>,
    lng: RawField<real>,
    payDetail: RawField<Str>,
    thisWeek: int,
    nextWeek: int,
    next2Week: int,
    next3Week: int,
    in4Weeks: int,
    editDate: RawField<Str>,
    teleconsultation: bool,
    hasQuota: bool)

  /** `Clinic`: a typed record with its derived id and, optionally, a distance. */
  datatype Clinic = Clinic(
    id: Str,
    county: Str,
    orgName: Str,
    orgUrl: Option<Str>,
    phone: Option<Str>,
    address: Str,
    mapUrl: Option<Str>,
    lat: real,
    lng: real,
    payDetail: Option<Str>,
    thisWeek: int,
    nextWeek: int,
    next2Week: int,
    next3Week: int,
    in4Weeks: int,
    editDate: Option<Str>,
    teleconsultation: bool,
    hasQuota: bool,
    distance: Option<real>)

  /** `ClinicsInput`: a flat array of rows, a `{rows}` wrapper, or nothing at all. */
  datatype ClinicsInput =
    | ArrayInput(rows: seq<RawRow>)
    | WrappedInput(wrappedRows: RawField<seq<RawRow>>)
    | NoInput

  /** The `opts` argument; an omitted `opts` is `ToClinicsOptions(None, false)`. */
  datatype ToClinicsOptions = ToClinicsOptions(from: Option<LatLng>, strict: bool)

  /** The error thrown under `strict`: `Missing lat/lng for: <org_name> | <address>`. */
  datatype IngestError = MissingLatLng(orgName: Str, address: Str)

  /** `Array.isArray(input) ? input : (input?.rows ?? [])`. */
  function InputRows(input: ClinicsInput): seq<RawRow>
  {
    match input
    case ArrayInput(rows) => rows
    case WrappedInput(rows) => if rows.Present? then rows.value else []
    case NoInput => []
  }

  /** `!(r.lat == null || r.lng == null)`; loose `==` also catches a missing property. */
  predicate HasCoords(r: RawRow)
  {
    r.lat.Present? && r.lng.Present?
  }

  /** The position of the first row without coordinates, if any. */
  function FirstMissing(rows: seq<RawRow>): (r: Option<nat>)
    ensures r.None? <==> forall k :: 0 <= k < |rows| ==> HasCoords(rows[k])
    ensures r.Some? ==> r.value < |rows| && !HasCoords(rows[r.value])
                        && forall k :: 0 <= k < r.value ==> HasCoords(rows[k])
  {
    if rows == [] then None
    else if !HasCoords(rows[0]) then Some(0)
    else
      var rest := FirstMissing(rows[1..]);
      if rest.None? then None else Some(rest.value + 1)
  }

  /** The clinic built from one row that has coordinates (lines 89-111 of the source). */
  function Convert(r: RawRow, from: Option<LatLng>, dist: Distance): (c: Clinic)
    requires HasCoords(r)
    ensures c.id == ClinicId.ClinicIdOf(r.county, r.orgName, r.address)
    ensures c.county == r.county && c.orgName == r.orgName && c.address == r.address
    ensures c.lat == r.lat.value && c.lng == r.lng.value
    ensures c.orgUrl.None? <==> !r.orgUrl.Present?
    ensures c.phone.None? <==> !r.phone.Present?
    ensures c.mapUrl.None? <==> !r.mapUrl.Present?
    ensures c.payDetail.None? <==> !r.payDetail.Present?
    ensures c.editDate.None? <==> !r.editDate.Present?
    ensures r.orgUrl.Present? ==> c.orgUrl == Some(r.orgUrl.value)
    ensures r.phone.Present? ==> c.phone == Some(r.phone.value)
    ensures r.mapUrl.Present? ==> c.mapUrl == Some(r.mapUrl.value)
    ensures r.payDetail.Present? ==> c.payDetail == Some(r.payDetail.value)
    ensures r.editDate.Present? ==> c.editDate == Some(r.editDate.value)
    ensures c.thisWeek == r.thisWeek && c.nextWeek == r.nextWeek && c.next2Week == r.next2Week
    ensures c.next3Week == r.next3Week && c.in4Weeks == r.in4Weeks
    ensures c.hasQuota == r.hasQuota && c.teleconsultation == r.teleconsultation
    ensures c.distance.Some? <==> from.Some?
    ensures from.Some? ==> c.distance.value == dist(LatLng(r.lat.value, r.lng.value), from.value)
  {
    var base := Record(r, ClinicId.ClinicIdOf(r.county, r.orgName, r.address));
    if from.Some? then base.(distance := Some(dist(LatLng(base.lat, base.lng), from.value))) else base
  }

  /** The object literal of lines 89-108 of the source, with the given id and no distance. */
  function Record(r: RawRow, id: Str): Clinic
    requires HasCoords(r)
  {
    Clinic(
      id, r.county, r.orgName, OrNull(r.orgUrl), OrNull(r.phone), r.address, OrNull(r.mapUrl),
      r.lat.value, r.lng.value, OrNull(r.payDetail),
      r.thisWeek, r.nextWeek, r.next2Week, r.next3Week, r.in4Weeks,
      OrNull(r.editDate), r.teleconsultation, r.hasQuota, None)
  }

  /** The rows that survive the coordinate check, in input order. */
  function Kept(rows: seq<RawRow>): seq<RawRow>
  {
    Seqs.Filter(rows, HasCoords)
  }

  /** Every kept row converted, in order. */
  function ConvertAll(rows: seq<RawRow>, from: Option<LatLng>, dist: Distance): (cs: seq<Clinic>)
    ensures |cs| == |Kept(rows)|
  {
    var kept := Kept(rows);
    seq(|kept|, k requires 0 <= k < |kept| => Convert(kept[k], from, dist))
  }

  /** Appending a row appends its clinic, if it has coordinates. */
  lemma ConvertAllSnoc(rows: seq<RawRow>, r: RawRow, from: Option<LatLng>, dist: Distance)
    ensures ConvertAll(rows + [r], from, dist)
            == ConvertAll(rows, from, dist) + (if HasCoords(r) then [Convert(r, from, dist)] else [])
  {
    Seqs.FilterSnoc(rows, r, HasCoords);
  }

  /** One more row of the input processed. */
  lemma ConvertAllPrefix(rows: seq<RawRow>, i: nat, from: Option<LatLng>, dist: Distance)
    requires i < |rows|
    ensures ConvertAll(rows[..i + 1], from, dist)
            == ConvertAll(rows[..i], from, dist) + (if HasCoords(rows[i]) then [Convert(rows[i], from, dist)] else [])
  {
    assert rows[..i + 1] == rows[..i] + [rows[i]];
    ConvertAllSnoc(rows[..i], rows[i], from, dist);
  }

  /** What `toClinics(input, opts)` returns or throws. */
  function ToClinicsSpec(input: ClinicsInput, opts: ToClinicsOptions, dist: Distance): Result<seq<Clinic>, IngestError>
  {
    var rows := InputRows(input);
    var missing := FirstMissing(rows);
    if opts.strict && missing.Some? then
      Failure(MissingLatLng(rows[missing.value].orgName, rows[missing.value].address))
    else
      Success(ConvertAll(rows, opts.from, dist))
  }

  /** The first row without coordinates is the one the loop stops at. */
  lemma FirstMissingAt(rows: seq<RawRow>, i: nat)
    requires i < |rows| && !HasCoords(rows[i])
    requires forall k :: 0 <= k < i ==> HasCoords(rows[k])
    ensures FirstMissing(rows) == Some(i)
  {
  }

  /** Lines 89-111 of the source: build the record, then attach the distance. */
  method BuildClinic(r: RawRow, from: Option<LatLng>, dist: Distance) returns (clinic: Clinic)
    requires HasCoords(r)
    ensures clinic == Convert(r, from, dist)
  {
    var id := ClinicId.MakeClinicId(r.county, r.orgName, r.address);
    clinic := Record(r, id);
    if from.Some? {
      clinic := clinic.(distance := Some(dist(LatLng(clinic.lat, clinic.lng), from.value)));
    }
  }

  /** `toClinics`: the loop of the source, with its accumulator and early throw. */
  method ToClinics(input: ClinicsInput, opts: ToClinicsOptions, dist: Distance)
    returns (res: Result<seq<Clinic>, IngestError>)
    ensures res == ToClinicsSpec(input, opts, dist)
  {
    var rows := InputRows(input);
    var out: seq<Clinic> := [];
    var strict := opts.strict;
    var i := 0;
    while i < |rows|
      invariant 0 <= i <= |rows|
      invariant out == ConvertAll(rows[..i], opts.from, dist)
      invariant strict ==> forall k :: 0 <= k < i ==> HasCoords(rows[k])
    {
      var r := rows[i];
      ConvertAllPrefix(rows, i, opts.from, dist);
      if !HasCoords(r) {
        if strict {
          FirstMissingAt(rows, i);
          return Failure(MissingLatLng(r.orgName, r.address));
        }
        i := i + 1;
        continue;
      }
      var clinic := BuildClinic(r, opts.from, dist);
      out := out + [clinic];
      i := i + 1;
    }
    assert rows[..|rows|] == rows;
    res := Success(out);
  }

  // ---------------------------------------------------------------------
  // What toClinics promises
  // ---------------------------------------------------------------------

  /**
    Without `strict`, the result lists, in input order, exactly the rows whose
    `lat` and `lng` are both present, each converted; so it is never longer
    than the input.
  */
  lemma ToClinicsLenient(input: ClinicsInput, opts: ToClinicsOptions, dist: Distance)
    requires !opts.strict
    ensures ToClinicsSpec(input, opts, dist).Success?
    ensures var rows := InputRows(input);
            var kept := Kept(rows);
            var cs := ToClinicsSpec(input, opts, dist).value;
            && |cs| == |kept| <= |rows|
            && Seqs.IsSubsequence(kept, rows)
            && (forall r :: r in kept <==> r in rows && HasCoords(r))
            && (forall k :: 0 <= k < |cs| ==> HasCoords(kept[k]) && cs[k] == Convert(kept[k], opts.from, dist))
  {
    var rows := InputRows(input);
    Seqs.FilterIsSubsequence(rows, HasCoords);
    forall r
      ensures r in Kept(rows) <==> r in rows && HasCoords(r)
    {
      Seqs.FilterMembership(rows, HasCoords, r);
    }
  }

  /**
    With `strict`, `toClinics` throws exactly when some row lacks a coordinate,
    naming the first such row; otherwise it returns what the lenient call returns.
  */
  lemma ToClinicsStrict(input: ClinicsInput, opts: ToClinicsOptions, dist: Distance)
    requires opts.strict
    ensures var rows := InputRows(input);
            ToClinicsSpec(input, opts, dist).Failure? <==> exists k :: 0 <= k < |rows| && !HasCoords(rows[k])
    ensures var rows := InputRows(input);
            var res := ToClinicsSpec(input, opts, dist);
            res.Failure? ==> exists k ::
              && 0 <= k < |rows| && !HasCoords(rows[k])
              && (forall j :: 0 <= j < k ==> HasCoords(rows[j]))
              && res.error == MissingLatLng(rows[k].orgName, rows[k].address)
    ensures ToClinicsSpec(input, opts, dist).Success? ==>
              ToClinicsSpec(input, opts, dist) == ToClinicsSpec(input, opts.(strict := false), dist)
  {
    var rows := InputRows(input);
    var missing := FirstMissing(rows);
    if missing.Some? {
      assert !HasCoords(rows[missing.value]);
    }
  }

  /**
    Every clinic returned carries the id derived from its own county, name and
    address, and a distance exactly when a reference point was given.
  */
  lemma ToClinicsRecords(input: ClinicsInput, opts: ToClinicsOptions, dist: Distance)
    ensures var res := ToClinicsSpec(input, opts, dist);
            res.Success? ==> forall c :: c in res.value ==>
              && c.id == ClinicId.ClinicIdOf(c.county, c.orgName, c.address)
              && |c.id| == 8
              && (c.distance.Some? <==> opts.from.Some?)
  {
    var res := ToClinicsSpec(input, opts, dist);
    if res.Success? {
      forall c | c in res.value
        ensures c.id == ClinicId.ClinicIdOf(c.county, c.orgName, c.address) && |c.id| == 8
      {
        ClinicId.RenderIsFixedHex(ClinicId.FnvHash(ClinicId.Key(c.county, c.orgName, c.address)));
      }
    }
  }

  /** A wrapper whose `rows` is missing or null, and a missing input, give no clinics. */
  lemma ToClinicsNoRows(opts: ToClinicsOptions, dist: Distance)
    ensures ToClinicsSpec(WrappedInput(Undefined), opts, dist) == Success([])
    ensures ToClinicsSpec(WrappedInput(Null), opts, dist) == Success([])
    ensures ToClinicsSpec(NoInput, opts, dist) == Success([])
  {
  }
}
