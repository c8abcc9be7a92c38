/**
  Coordinate repair and the nearest-centroid county classifier of the home
  page (src/pages/index.tsx): a lat/lng pair that only makes sense swapped is
  swapped back, and a point is given the county whose reference centroid is
  nearest, the first-listed centroid winning ties.
*/
module Geo {
  import opened Wrappers
  import opened JsString
  import opened ClinicData

  /** `isTWLat`: latitude inside Taiwan's bounding box, 21 to 26.5 degrees. */
  predicate IsTWLat(lat: real)
  {
    lat >= 21.0 && lat <= 26.5
  }

  /** `isTWLng`: longitude inside Taiwan's bounding box, 119 to 123.5 degrees. */
  predicate IsTWLng(lng: real)
  {
    lng >= 119.0 && lng <= 123.5
  }

  /** Both coordinates of `p` inside the box. */
  predicate InBox(p: LatLng)
  {
    IsTWLat(p.lat) && IsTWLng(p.lng)
  }

  /** `normalizeLatLng`: keep a plausible pair, swap a pair that is only plausible swapped. */
  function NormalizeLatLng(lat: real, lng: real): (r: LatLng)
    ensures r == LatLng(lat, lng) || r == LatLng(lng, lat)
    ensures InBox(r) <==> InBox(LatLng(lat, lng)) || InBox(LatLng(lng, lat))
  {
    var ok := IsTWLat(lat) && IsTWLng(lng);
    var swappedOk := IsTWLat(lng) && IsTWLng(lat);
    if ok then LatLng(lat, lng)
    else if !ok && swappedOk then LatLng(lng, lat)
    else LatLng(lat, lng)
  }

  /** The three outcomes: plausible as given, plausible only swapped, neither. */
  lemma NormalizeCases(lat: real, lng: real)
    ensures InBox(LatLng(lat, lng)) ==> NormalizeLatLng(lat, lng) == LatLng(lat, lng)
    ensures !InBox(LatLng(lat, lng)) && InBox(LatLng(lng, lat)) ==> NormalizeLatLng(lat, lng) == LatLng(lng, lat)
    ensures !InBox(LatLng(lat, lng)) && !InBox(LatLng(lng, lat)) ==> NormalizeLatLng(lat, lng) == LatLng(lat, lng)
  {
  }

  /** Normalising an already normalised pair changes nothing. */
  lemma NormalizeIdempotent(lat: real, lng: real)
    ensures var p := NormalizeLatLng(lat, lng); NormalizeLatLng(p.lat, p.lng) == p
  {
  }

  /** Taipei with its coordinates written the wrong way round is repaired. */
  lemma NormalizeSwappedTaipei()
    ensures NormalizeLatLng(121.56, 25.03) == LatLng(25.03, 121.56)
  {
  }

  /** A named reference point. */
  datatype Centroid = Centroid(name: Str, pos: LatLng)

  /** `COUNTY_CENTROIDS`: the 22 counties and cities, in the order the source lists them, names as UTF-16 code units. */
  const COUNTY_CENTROIDS: seq<Centroid> := [
    Centroid([0x57FA, 0x9686, 0x5E02] /* 基隆市 */, LatLng(25.128, 121.741)),
    Centroid([0x81FA, 0x5317, 0x5E02] /* 臺北市 */, LatLng(25.037, 121.564)),
    Centroid([0x65B0, 0x5317, 0x5E02] /* 新北市 */, LatLng(25.016, 121.465)),
    Centroid([0x6843, 0x5712, 0x5E02] /* 桃園市 */, LatLng(24.993, 121.301)),
    Centroid([0x65B0, 0x7AF9, 0x5E02] /* 新竹市 */, LatLng(24.804, 120.971)),
    Centroid([0x65B0, 0x7AF9, 0x7E23] /* 新竹縣 */, LatLng(24.703, 121.125)),
    Centroid([0x82D7, 0x6817, 0x7E23] /* 苗栗縣 */, LatLng(24.56, 120.82)),
    Centroid([0x81FA, 0x4E2D, 0x5E02] /* 臺中市 */, LatLng(24.147, 120.673)),
    Centroid([0x5F70, 0x5316, 0x7E23] /* 彰化縣 */, LatLng(24.075, 120.542)),
    Centroid([0x5357, 0x6295, 0x7E23] /* 南投縣 */, LatLng(23.96, 120.971)),
    Centroid([0x96F2, 0x6797, 0x7E23] /* 雲林縣 */, LatLng(23.707, 120.538)),
    Centroid([0x5609, 0x7FA9, 0x5E02] /* 嘉義市 */, LatLng(23.48, 120.449)),
    Centroid([0x5609, 0x7FA9, 0x7E23] /* 嘉義縣 */, LatLng(23.458, 120.255)),
    Centroid([0x81FA, 0x5357, 0x5E02] /* 臺南市 */, LatLng(23.0, 120.227)),
    Centroid([0x9AD8, 0x96C4, 0x5E02] /* 高雄市 */, LatLng(22.627, 120.301)),
    Centroid([0x5C4F, 0x6771, 0x7E23] /* 屏東縣 */, LatLng(22.551, 120.548)),
    Centroid([0x5B9C, 0x862D, 0x7E23] /* 宜蘭縣 */, LatLng(24.702, 121.738)),
    Centroid([0x82B1, 0x84EE, 0x7E23] /* 花蓮縣 */, LatLng(23.991, 121.601)),
    Centroid([0x81FA, 0x6771, 0x7E23] /* 臺東縣 */, LatLng(22.984, 121.332)),
    Centroid([0x6F8E, 0x6E56, 0x7E23] /* 澎湖縣 */, LatLng(23.571, 119.579)),
    Centroid([0x91D1, 0x9580, 0x7E23] /* 金門縣 */, LatLng(24.436, 118.318)),
    Centroid([0x9023, 0x6C5F, 0x7E23] /* 連江縣 */, LatLng(26.16, 119.95))
  ]

  /**
    The position, among the first `n` entries of `table`, of the entry nearest
    to `p`: no entry is nearer, and every earlier entry is strictly farther.
  */
  function NearestIn(table: seq<Centroid>, p: LatLng, dist: Distance, n: nat): (k: nat)
    requires 1 <= n <= |table|
    ensures k < n
    ensures forall j :: 0 <= j < n ==> dist(p, table[k].pos) <= dist(p, table[j].pos)
    ensures forall j :: 0 <= j < k ==> dist(p, table[j].pos) > dist(p, table[k].pos)
  {
    if n == 1 then 0
    else
      var k := NearestIn(table, p, dist, n - 1);
      if dist(p, table[n - 1].pos) < dist(p, table[k].pos) then n - 1 else k
  }

  /** `k` is the first entry of `table` at minimal distance from `p`. */
  ghost predicate IsFirstNearest(table: seq<Centroid>, p: LatLng, dist: Distance, k: nat)
  {
    && k < |table|
    && (forall j :: 0 <= j < |table| ==> dist(p, table[k].pos) <= dist(p, table[j].pos))
    && (forall j :: 0 <= j < k ==> dist(p, table[j].pos) > dist(p, table[k].pos))
  }

  /** The first nearest entry is unique, and it is the one the argmin scan finds. */
  lemma NearestInIsFirstNearest(table: seq<Centroid>, p: LatLng, dist: Distance, k: nat)
    requires |table| >= 1
    ensures IsFirstNearest(table, p, dist, k) <==> k == NearestIn(table, p, dist, |table|)
  {
  }

  /** Of two centroids at the same, minimal distance, the later one is never chosen. */
  lemma TieGoesToFirstListed(table: seq<Centroid>, p: LatLng, dist: Distance, i: nat, j: nat)
    requires i < j < |table|
    requires dist(p, table[i].pos) == dist(p, table[j].pos)
    ensures NearestIn(table, p, dist, |table|) != j
  {
  }

  /** The county the classifier assigns to `p`. */
  function CountyOf(p: LatLng, dist: Distance): Str
  {
    COUNTY_CENTROIDS[NearestIn(COUNTY_CENTROIDS, p, dist, |COUNTY_CENTROIDS|)].name
  }

  /** `countyByCoords`: the source's scan, keeping the best name and distance so far. */
  method CountyByCoords(lat: real, lng: real, dist: Distance) returns (best: Str)
    ensures best == CountyOf(LatLng(lat, lng), dist)
    ensures exists k ::
              && 0 <= k < |COUNTY_CENTROIDS| && best == COUNTY_CENTROIDS[k].name
              && IsFirstNearest(COUNTY_CENTROIDS, LatLng(lat, lng), dist, k)
  {
    best := NearestName(COUNTY_CENTROIDS, LatLng(lat, lng), dist);
  }

  /** The scan itself, over a reference table. */
  method NearestName(table: seq<Centroid>, p: LatLng, dist: Distance) returns (best: Str)
    requires |table| >= 1
    ensures best == table[NearestIn(table, p, dist, |table|)].name
    ensures exists k :: 0 <= k < |table| && best == table[k].name && IsFirstNearest(table, p, dist, k)
  {
    best := table[0].name;
    // `bestD` starts at Infinity, which every real distance is below.
    var bestD: Option<real> := None;
    for i := 0 to |table|
      invariant i == 0 ==> bestD.None? && best == table[0].name
      invariant i > 0 ==> var k := NearestIn(table, p, dist, i);
                          bestD == Some(dist(p, table[k].pos)) && best == table[k].name
    {
      var c := table[i];
      var d := dist(p, c.pos);
      if bestD.None? || d < bestD.value {
        bestD := Some(d);
        best := c.name;
      }
    }
    NearestInIsFirstNearest(table, p, dist, NearestIn(table, p, dist, |table|));
  }
}
