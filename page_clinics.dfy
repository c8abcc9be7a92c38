/**
  The home page's clinic list (src/pages/index.tsx): the `clinicsAll` mapping
  with positional ids, repaired coordinates and a coordinate-derived county;
  the availability filter and its counts; and the "nearest to me" ranking
  pipeline of `sortClinicsByDistance`.
*/
module PageClinics {
  import opened Wrappers
  import opened JsString
  import opened ClinicData
  import opened Geo
  import Seqs
  import StableSort

  /** A row of the page's dataset, with the fields the page reads. */
  datatype PageRow = PageRow(
    id: Option<Str>,
    county: Str,
    orgName: Str,
    address: Str,
    lat: real,
    lng: real,
    hasQuota: bool)

  /** `ClinicWithGeo`: a row with its id, repaired position, `geoCounty` and optional `distance`. */
  datatype PageClinic = PageClinic(
    id: Str,
    county: Str,
    orgName: Str,
    address: Str,
    lat: real,
    lng: real,
    hasQuota: bool,
    geoCounty: Str,
    distance: Option<real>)

  function Position(c: PageClinic): LatLng
  {
    LatLng(c.lat, c.lng)
  }

  // ---------------------------------------------------------------------
  // clinicsAll
  // ---------------------------------------------------------------------

  /**
    Row `i` of the dataset as the page builds it: `{ id: String(i + 1), ...c,
    lat, lng, geoCounty }`, so a raw `id` overrides the positional one.
  */
  function ToPageClinic(c: PageRow, i: nat, dist: Distance): PageClinic
  {
    var pos := NormalizeLatLng(c.lat, c.lng);
    PageClinic(
      PageId(c, i),
      c.county, c.orgName, c.address, pos.lat, pos.lng, c.hasQuota,
      CountyOf(pos, dist), None)
  }

  /** The id of row `i`: its raw id, or else `String(i + 1)`. */
  function PageId(c: PageRow, i: nat): Str
  {
    if c.id.Some? then c.id.value else ToRadix(i + 1, 10)
  }

  /** `clinicsAll`: the dataset mapped with its positions. */
  function ClinicsAll(rows: seq<PageRow>, dist: Distance): (all: seq<PageClinic>)
    ensures |all| == |rows|
  {
    seq(|rows|, i requires 0 <= i < |rows| => ToPageClinic(rows[i], i, dist))
  }

  /**
    Each page clinic keeps its row's county, name, address and quota flag,
    takes the row's raw id if it has one and `String(i + 1)` otherwise, and
    has the repaired pair: as given when that is plausible, swapped when only
    the swap is, and as given when neither is. Its `geoCounty` is the county
    of the repaired position.
  */
  lemma ClinicsAllFields(rows: seq<PageRow>, dist: Distance, i: nat)
    requires i < |rows|
    ensures var c := ClinicsAll(rows, dist)[i];
            var r := rows[i];
            && c.id == (if r.id.Some? then r.id.value else ToRadix(i + 1, 10))
            && c.county == r.county && c.orgName == r.orgName && c.address == r.address
            && c.hasQuota == r.hasQuota
            && Position(c) == NormalizeLatLng(r.lat, r.lng)
            && (Position(c) == LatLng(r.lat, r.lng) || Position(c) == LatLng(r.lng, r.lat))
            && (InBox(Position(c)) <==> InBox(LatLng(r.lat, r.lng)) || InBox(LatLng(r.lng, r.lat)))
            && (InBox(LatLng(r.lat, r.lng)) ==> Position(c) == LatLng(r.lat, r.lng))
            && (!InBox(LatLng(r.lat, r.lng)) && InBox(LatLng(r.lng, r.lat)) ==> Position(c) == LatLng(r.lng, r.lat))
            && (!InBox(LatLng(r.lat, r.lng)) && !InBox(LatLng(r.lng, r.lat)) ==> Position(c) == LatLng(r.lat, r.lng))
            && c.geoCounty == CountyOf(Position(c), dist)
            && c.distance.None?
  {
    NormalizeCases(rows[i].lat, rows[i].lng);
  }

  /** Rows without a raw id get pairwise different positional ids. */
  lemma PositionalIdsDistinct(rows: seq<PageRow>, dist: Distance, i: nat, j: nat)
    requires i < |rows| && j < |rows| && i != j
    requires rows[i].id.None? && rows[j].id.None?
    ensures ClinicsAll(rows, dist)[i].id != ClinicsAll(rows, dist)[j].id
  {
    if ToRadix(i + 1, 10) == ToRadix(j + 1, 10) {
      ToRadixInjective(i + 1, j + 1, 10);
    }
  }

  /**
    A raw id is copied as is and is not checked against the positional ids,
    so a first row whose raw id is "2" shares its id with a second row without one.
  */
  lemma RawIdsCanCollide()
    ensures PageId(PageRow(Some([0x32]), [], [], [], 25.0, 121.5, true), 0)
            == PageId(PageRow(None, [], [], [], 25.0, 121.5, true), 1)
  {
    assert ToRadix(2, 10) == [0x32];
    assert ToRadix(1, 10) == [0x31];
  }

  // ---------------------------------------------------------------------
  // The availability filter
  // ---------------------------------------------------------------------

  /** The `filter` state: `"all"`, `"has"` or `"none"`. */
  datatype FilterMode = ShowAll | HasQuota | NoQuota

  predicate HasQuotaP(c: PageClinic) { c.hasQuota }
  predicate NoQuotaP(c: PageClinic) { !c.hasQuota }

  /** The `clinics` memo. */
  function Filtered(all: seq<PageClinic>, f: FilterMode): seq<PageClinic>
  {
    match f
    case HasQuota => Seqs.Filter(all, HasQuotaP)
    case NoQuota => Seqs.Filter(all, NoQuotaP)
    case ShowAll => all
  }

  /**
    Each mode keeps, in the original order, exactly the clinics it names:
    `"has"` those with quota, `"none"` those without, `"all"` every clinic.
  */
  lemma FilteredKeepsExactly(all: seq<PageClinic>, f: FilterMode, c: PageClinic)
    ensures Seqs.IsSubsequence(Filtered(all, f), all)
    ensures c in Filtered(all, f) <==> c in all && match f
                                                  case HasQuota => c.hasQuota
                                                  case NoQuota => !c.hasQuota
                                                  case ShowAll => true
  {
    match f
    case HasQuota =>
      Seqs.FilterIsSubsequence(all, HasQuotaP);
      Seqs.FilterMembership(all, HasQuotaP, c);
    case NoQuota =>
      Seqs.FilterIsSubsequence(all, NoQuotaP);
      Seqs.FilterMembership(all, NoQuotaP, c);
    case ShowAll =>
      SubsequenceRefl(all);
  }

  lemma {:induction false} SubsequenceRefl(s: seq<PageClinic>)
    ensures Seqs.IsSubsequence(s, s)
  {
    if s != [] {
      SubsequenceRefl(s[1..]);
    }
  }

  /** `hasCount`. */
  function HasCount(all: seq<PageClinic>): nat { |Filtered(all, HasQuota)| }

  /** `noneCount`. */
  function NoneCount(all: seq<PageClinic>): nat { |Filtered(all, NoQuota)| }

  /** The two counts shown on the filter buttons add up to the total. */
  lemma CountsAddUp(all: seq<PageClinic>)
    ensures HasCount(all) + NoneCount(all) == |all|
  {
    Seqs.FilterPartition(all, HasQuotaP, NoQuotaP);
  }

  // ---------------------------------------------------------------------
  // The "nearest to me" ranking
  // ---------------------------------------------------------------------

  /** `DIST_LIMIT_KM`. */
  const DIST_LIMIT_KM: real := 30.0

  /** The clinics the classifier put in `county`. */
  function InCounty(county: Str): PageClinic -> bool
  {
    (c: PageClinic) => c.geoCounty == county
  }

  /** `pool`: the same-county clinics if there are any, else the whole filtered list. */
  function Pool(clinics: seq<PageClinic>, userCounty: Str): seq<PageClinic>
  {
    var sameCounty := Seqs.Filter(clinics, InCounty(userCounty));
    if |sameCounty| > 0 then sameCounty else clinics
  }

  /** `{ ...c, distance: haversineDistance(ulat, ulng, c.lat, c.lng) }`. */
  function WithDistance(c: PageClinic, user: LatLng, dist: Distance): PageClinic
  {
    c.(distance := Some(dist(user, Position(c))))
  }

  /** Every pool clinic with its distance attached. */
  function Attach(pool: seq<PageClinic>, user: LatLng, dist: Distance): (r: seq<PageClinic>)
    ensures |r| == |pool|
  {
    seq(|pool|, k requires 0 <= k < |pool| => WithDistance(pool[k], user, dist))
  }

  /** `c.distance! <= DIST_LIMIT_KM`. */
  predicate WithinLimit(c: PageClinic)
  {
    c.distance.Some? && c.distance.value <= DIST_LIMIT_KM
  }

  /** The sort key `c.distance!`. */
  function DistanceKey(c: PageClinic): real
  {
    if c.distance.Some? then c.distance.value else 0.0
  }

  /** The attached, radius-bounded candidates, before sorting. */
  function Candidates(clinics: seq<PageClinic>, user: LatLng, userCounty: Str, dist: Distance): seq<PageClinic>
  {
    Seqs.Filter(Attach(Pool(clinics, userCounty), user, dist), WithinLimit)
  }

  /** `sorted`: the pool with distances, cut at the limit, stably sorted by distance. */
  function Ranked(clinics: seq<PageClinic>, user: LatLng, userCounty: Str, dist: Distance): seq<PageClinic>
  {
    StableSort.Sort(Candidates(clinics, user, userCounty, dist), DistanceKey)
  }

  /**
    The pool: when some filtered clinic lies in the user's county, exactly
    those clinics (in order); otherwise the whole filtered list.
  */
  lemma PoolChoice(clinics: seq<PageClinic>, userCounty: Str)
    ensures (exists k :: 0 <= k < |clinics| && clinics[k].geoCounty == userCounty) ==>
              && Pool(clinics, userCounty) == Seqs.Filter(clinics, InCounty(userCounty))
              && (forall c :: c in Pool(clinics, userCounty) <==> c in clinics && c.geoCounty == userCounty)
    ensures (forall k :: 0 <= k < |clinics| ==> clinics[k].geoCounty != userCounty) ==>
              Pool(clinics, userCounty) == clinics
  {
    Seqs.FilterEmpty(clinics, InCounty(userCounty));
    forall c
      ensures c in Seqs.Filter(clinics, InCounty(userCounty)) <==> c in clinics && c.geoCounty == userCounty
    {
      Seqs.FilterMembership(clinics, InCounty(userCounty), c);
    }
  }

  /**
    A ranked entry is exactly a pool clinic with its distance from the user
    attached, kept when that distance is within the limit.
  */
  lemma RankedMembers(clinics: seq<PageClinic>, user: LatLng, userCounty: Str, dist: Distance, r: PageClinic)
    ensures r in Ranked(clinics, user, userCounty, dist) <==>
              exists c :: c in Pool(clinics, userCounty) && r == WithDistance(c, user, dist)
                          && dist(user, Position(c)) <= DIST_LIMIT_KM
  {
    var pool := Pool(clinics, userCounty);
    var attached := Attach(pool, user, dist);
    StableSort.SortMembership(Candidates(clinics, user, userCounty, dist), DistanceKey, r);
    Seqs.FilterMembership(attached, WithinLimit, r);
    if r in attached {
      var k :| 0 <= k < |attached| && attached[k] == r;
      assert pool[k] in pool && r == WithDistance(pool[k], user, dist);
    }
    if exists c :: c in pool && r == WithDistance(c, user, dist) && dist(user, Position(c)) <= DIST_LIMIT_KM {
      var c :| c in pool && r == WithDistance(c, user, dist) && dist(user, Position(c)) <= DIST_LIMIT_KM;
      var k :| 0 <= k < |pool| && pool[k] == c;
      assert attached[k] == r;
    }
  }

  /**
    The ranked list: every entry within the limit at its own distance from the
    user, ascending by distance, entries at equal distance in pool order, and
    a permutation of the within-limit candidates.
  */
  lemma RankedOrdered(clinics: seq<PageClinic>, user: LatLng, userCounty: Str, dist: Distance)
    ensures var ranked := Ranked(clinics, user, userCounty, dist);
            && (forall i :: 0 <= i < |ranked| ==>
                  ranked[i].distance == Some(dist(user, Position(ranked[i]))) && WithinLimit(ranked[i]))
            && (forall i, j :: 0 <= i < j < |ranked| ==> ranked[i].distance.value <= ranked[j].distance.value)
            && multiset(ranked) == multiset(Candidates(clinics, user, userCounty, dist))
            && (forall v :: Seqs.Filter(ranked, StableSort.KeyIs(DistanceKey, v))
                            == Seqs.Filter(Candidates(clinics, user, userCounty, dist), StableSort.KeyIs(DistanceKey, v)))
  {
    var ranked := Ranked(clinics, user, userCounty, dist);
    var cands := Candidates(clinics, user, userCounty, dist);
    StableSort.SortSorted(cands, DistanceKey);
    StableSort.SortPermutation(cands, DistanceKey);
    forall i | 0 <= i < |ranked|
      ensures ranked[i].distance == Some(dist(user, Position(ranked[i]))) && WithinLimit(ranked[i])
    {
      RankedMembers(clinics, user, userCounty, dist, ranked[i]);
    }
    forall v
      ensures Seqs.Filter(ranked, StableSort.KeyIs(DistanceKey, v)) == Seqs.Filter(cands, StableSort.KeyIs(DistanceKey, v))
    {
      StableSort.SortStable(cands, DistanceKey, v);
    }
  }

  /**
    The ranked list is empty exactly when no pool clinic lies within the
    limit; otherwise its first entry is a pool clinic no farther from the user
    than any pool clinic within the limit.
  */
  lemma RankedFirstIsNearest(clinics: seq<PageClinic>, user: LatLng, userCounty: Str, dist: Distance)
    ensures var ranked := Ranked(clinics, user, userCounty, dist);
            var pool := Pool(clinics, userCounty);
            && (|ranked| == 0 <==> forall c :: c in pool ==> dist(user, Position(c)) > DIST_LIMIT_KM)
            && (|ranked| > 0 ==>
                  && WithinLimit(ranked[0])
                  && (exists c :: c in pool && ranked[0] == WithDistance(c, user, dist))
                  && forall c :: c in pool && dist(user, Position(c)) <= DIST_LIMIT_KM ==>
                                 ranked[0].distance.value <= dist(user, Position(c)))
  {
    var ranked := Ranked(clinics, user, userCounty, dist);
    var pool := Pool(clinics, userCounty);
    RankedOrdered(clinics, user, userCounty, dist);
    if |ranked| > 0 {
      RankedMembers(clinics, user, userCounty, dist, ranked[0]);
      forall c | c in pool && dist(user, Position(c)) <= DIST_LIMIT_KM
        ensures ranked[0].distance.value <= dist(user, Position(c))
      {
        RankedMembers(clinics, user, userCounty, dist, WithDistance(c, user, dist));
        var j :| 0 <= j < |ranked| && ranked[j] == WithDistance(c, user, dist);
      }
    } else {
      forall c | c in pool
        ensures dist(user, Position(c)) > DIST_LIMIT_KM
      {
        RankedMembers(clinics, user, userCounty, dist, WithDistance(c, user, dist));
      }
    }
    if exists c :: c in pool && dist(user, Position(c)) <= DIST_LIMIT_KM {
      var c :| c in pool && dist(user, Position(c)) <= DIST_LIMIT_KM;
      RankedMembers(clinics, user, userCounty, dist, WithDistance(c, user, dist));
    }
  }

  /** Every pool clinic is one of the filtered clinics. */
  lemma PoolWithin(clinics: seq<PageClinic>, userCounty: Str, c: PageClinic)
    requires c in Pool(clinics, userCounty)
    ensures c in clinics
  {
    Seqs.FilterMembership(clinics, InCounty(userCounty), c);
  }

  // ---------------------------------------------------------------------
  // Search
  // ---------------------------------------------------------------------

  /** The search predicate: a non-empty name or address containing the keyword. */
  predicate Matches(c: PageClinic, kw: Str)
  {
    (c.orgName != [] && Includes(c.orgName, kw)) || (c.address != [] && Includes(c.address, kw))
  }

  /** `findIndex` with the search predicate; `None` stands for -1. */
  function FirstMatch(list: seq<PageClinic>, kw: Str): (r: Option<nat>)
    ensures r.Some? ==> r.value < |list| && Matches(list[r.value], kw)
    ensures r.Some? ==> forall j :: 0 <= j < r.value ==> !Matches(list[j], kw)
    ensures r.None? <==> forall j :: 0 <= j < |list| ==> !Matches(list[j], kw)
  {
    if list == [] then None
    else if Matches(list[0], kw) then Some(0)
    else
      match FirstMatch(list[1..], kw)
      case None => None
      case Some(k) => Some(k + 1)
  }
}
