/**
  The `Home` page component (src/pages/index.tsx) as a state machine: its
  `useState` fields become fields of a class, its memos become functions of
  those fields, and each handler becomes a method that updates them.
*/
module HomePage {
  import opened Wrappers
  import opened JsString
  import opened ClinicData
  import opened Geo
  import opened PageClinics

  class Home {
    /** `clinicsAll`, built once from the dataset. */
    const clinicsAll: seq<PageClinic>
    /** The distance function (`haversineDistance`). */
    const dist: Distance

    var searchInput: Str
    var filter: FilterMode
    var userLatLng: Option<LatLng>
    var mapCenter: Option<LatLng>
    var selectedClinicId: Option<Str>
    var preferredCounty: Option<Str>
    var sortedByDistance: Option<seq<PageClinic>>

    /** The user position the current distance sort was computed from. */
    ghost var rankedFrom: LatLng

    /** The `clinics` memo: the filtered list. */
    function Clinics(): seq<PageClinic>
      reads this`filter
    {
      Filtered(clinicsAll, filter)
    }

    /** The `clinicsToShow` memo: the distance sort if there is one, else the filtered list. */
    function ClinicsToShow(): seq<PageClinic>
      reads this`filter, this`sortedByDistance
    {
      if sortedByDistance.Some? then sortedByDistance.value else Clinics()
    }

    /**
      A stored distance sort is the ranking of the current filtered list from
      the position it was computed for, and the preferred county shown is
      that position's county.
    */
    ghost predicate Valid()
      reads this`filter, this`sortedByDistance, this`preferredCounty, this`rankedFrom
    {
      sortedByDistance.Some? ==>
        && preferredCounty == Some(CountyOf(rankedFrom, dist))
        && sortedByDistance.value == RankingFrom(rankedFrom)
    }

    /** The distance ranking of the filtered list from `u`, within `u`'s county when possible. */
    function RankingFrom(u: LatLng): seq<PageClinic>
      reads this`filter
    {
      Ranked(Clinics(), u, CountyOf(u, dist), dist)
    }

    /** The initial state: nothing typed, filter "all", no position, nothing selected, no sort. */
    constructor (rows: seq<PageRow>, d: Distance)
      ensures clinicsAll == ClinicsAll(rows, d) && dist == d
      ensures searchInput == [] && filter == ShowAll
      ensures userLatLng.None? && mapCenter.None? && selectedClinicId.None?
      ensures preferredCounty.None? && sortedByDistance.None?
      ensures Valid()
    {
      clinicsAll := ClinicsAll(rows, d);
      dist := d;
      searchInput := [];
      filter := ShowAll;
      userLatLng := None;
      mapCenter := None;
      selectedClinicId := None;
      preferredCounty := None;
      sortedByDistance := None;
      rankedFrom := LatLng(0.0, 0.0);
    }

    /**
      `setFilter` followed by the effect on `filter`: when the mode changes,
      the distance sort is dropped, and a non-empty selected id that the list
      on screen at that moment does not contain is cleared.
    */
    method SetFilter(f: FilterMode)
      requires Valid()
      modifies this`filter, this`sortedByDistance, this`selectedClinicId
      ensures filter == f
      ensures f == old(filter) ==> sortedByDistance == old(sortedByDistance) && selectedClinicId == old(selectedClinicId)
      ensures f != old(filter) ==> sortedByDistance.None?
      ensures f != old(filter) ==>
                var onScreen := if old(sortedByDistance).Some? then old(sortedByDistance).value else Filtered(clinicsAll, f);
                selectedClinicId ==
                  if old(selectedClinicId).Some? && old(selectedClinicId).value != []
                     && forall c :: c in onScreen ==> c.id != old(selectedClinicId).value
                  then None else old(selectedClinicId)
      ensures Valid()
    {
      if f != filter {
        var onScreen := ClinicsToShow();
        filter := f;
        if sortedByDistance.None? {
          onScreen := Clinics();
        }
        sortedByDistance := None;
        if selectedClinicId.Some? && selectedClinicId.value != [] {
          var id := selectedClinicId.value;
          if !exists c :: c in onScreen && c.id == id {
            selectedClinicId := None;
          }
        }
      }
    }

    /** `onUserLocate`: the map reports the user's position. */
    method SetUserLatLng(p: LatLng)
      modifies this`userLatLng
      ensures userLatLng == Some(p)
    {
      userLatLng := Some(p);
    }

    /** The search box's `onChange`. */
    method SetSearchInput(s: Str)
      modifies this`searchInput
      ensures searchInput == s
    {
      searchInput := s;
    }

    /**
      `handleSearch`: a blank keyword does nothing; otherwise the first shown
      clinic whose name or address contains the trimmed keyword is selected
      and the map centred on it, and nothing changes when none matches.
    */
    method HandleSearch()
      modifies this`selectedClinicId, this`mapCenter
      ensures var kw := Trim(searchInput);
              var shown := ClinicsToShow();
              if kw != [] && FirstMatch(shown, kw).Some? then
                && selectedClinicId == Some(shown[FirstMatch(shown, kw).value].id)
                && mapCenter == Some(Position(shown[FirstMatch(shown, kw).value]))
              else
                selectedClinicId == old(selectedClinicId) && mapCenter == old(mapCenter)
    {
      var kw := Trim(searchInput);
      if kw == [] {
        return;
      }
      var idx := FirstMatch(ClinicsToShow(), kw);
      if idx.Some? {
        var found := ClinicsToShow()[idx.value];
        selectedClinicId := Some(found.id);
        mapCenter := Some(Position(found));
      }
    }

    /**
      `sortClinicsByDistance`: without a position nothing changes; otherwise
      the ranking step runs from the user's position, and the first ranked
      entry, if any, is selected and centred.
    */
    method SortClinicsByDistance()
      requires Valid()
      modifies this`preferredCounty, this`sortedByDistance, this`selectedClinicId, this`mapCenter, this`rankedFrom
      ensures Valid()
      ensures old(userLatLng).None? ==>
                && preferredCounty == old(preferredCounty) && sortedByDistance == old(sortedByDistance)
                && selectedClinicId == old(selectedClinicId) && mapCenter == old(mapCenter)
      ensures userLatLng.Some? ==>
                && sortedByDistance.Some? && rankedFrom == userLatLng.value
                && preferredCounty == Some(CountyOf(userLatLng.value, dist))
      ensures userLatLng.Some? && sortedByDistance.Some? ==>
                var ranked := sortedByDistance.value;
                && (ranked != [] ==> selectedClinicId == Some(ranked[0].id) && mapCenter == Some(Position(ranked[0])))
                && (ranked == [] ==> selectedClinicId == old(selectedClinicId) && mapCenter == old(mapCenter))
    {
      if userLatLng.None? {
        return;
      }
      var sorted := RankFrom(userLatLng.value);
      if |sorted| > 0 {
        var first := sorted[0];
        selectedClinicId := Some(first.id);
        mapCenter := Some(Position(first));
      }
    }

    /**
      The ranking step of `sortClinicsByDistance` from position `u`: the
      county of `u` becomes the preferred county and the ranking of the
      filtered list from `u` becomes the shown list, so `Valid` holds.
    */
    method RankFrom(u: LatLng) returns (sorted: seq<PageClinic>)
      modifies this`preferredCounty, this`sortedByDistance, this`rankedFrom
      ensures Valid()
      ensures sortedByDistance == Some(sorted) && rankedFrom == u
      ensures preferredCounty == Some(CountyOf(u, dist))
    {
      var userCounty := CountyByCoords(u.lat, u.lng, dist);
      assert LatLng(u.lat, u.lng) == u;
      sorted := Ranked(Clinics(), u, userCounty, dist);
      preferredCounty := Some(userCounty);
      sortedByDistance := Some(sorted);
      rankedFrom := u;
    }

    /** `onSelect` from the list or the map: select the clinic and centre on it. */
    method OnSelect(c: PageClinic)
      modifies this`selectedClinicId, this`mapCenter
      ensures selectedClinicId == Some(c.id) && mapCenter == Some(Position(c))
    {
      selectedClinicId := Some(c.id);
      mapCenter := Some(Position(c));
    }

    /** `onClearPreferred`: drop the preferred county and the distance sort. */
    method OnClearPreferred()
      modifies this`preferredCounty, this`sortedByDistance
      ensures preferredCounty.None? && sortedByDistance.None?
      ensures ClinicsToShow() == Clinics()
      ensures Valid()
    {
      preferredCounty := None;
      sortedByDistance := None;
    }

    /** The "clear sort" button: drop the distance sort only. */
    method ClearSort()
      modifies this`sortedByDistance
      ensures sortedByDistance.None?
      ensures ClinicsToShow() == Clinics()
      ensures Valid()
    {
      sortedByDistance := None;
    }
  }

  /**
    Whatever the handlers did, every shown clinic is a clinic of the current
    filter, unchanged or with its distance from the sorting position attached,
    so the shown list always respects the availability filter.
  */
  lemma ShownRespectsFilter(h: Home)
    requires h.Valid()
    ensures forall c :: c in h.ClinicsToShow() ==>
              exists a :: a in h.Clinics() && (c == a || c == WithDistance(a, h.rankedFrom, h.dist))
    ensures forall c :: c in h.ClinicsToShow() ==>
              match h.filter
              case HasQuota => c.hasQuota
              case NoQuota => !c.hasQuota
              case ShowAll => true
  {
    forall c | c in h.ClinicsToShow()
      ensures exists a :: a in h.Clinics() && (c == a || c == WithDistance(a, h.rankedFrom, h.dist))
    {
      if h.sortedByDistance.Some? {
        var county := CountyOf(h.rankedFrom, h.dist);
        RankedMembers(h.Clinics(), h.rankedFrom, county, h.dist, c);
        var a :| a in Pool(h.Clinics(), county) && c == WithDistance(a, h.rankedFrom, h.dist)
                 && h.dist(h.rankedFrom, Position(a)) <= DIST_LIMIT_KM;
        PoolWithin(h.Clinics(), county, a);
      }
    }
    forall c | c in h.ClinicsToShow()
      ensures match h.filter
              case HasQuota => c.hasQuota
              case NoQuota => !c.hasQuota
              case ShowAll => true
    {
      var a :| a in h.Clinics() && (c == a || c == WithDistance(a, h.rankedFrom, h.dist));
      FilteredKeepsExactly(h.clinicsAll, h.filter, a);
    }
  }
}
