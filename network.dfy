/**
 * The `VLille` container: the ordered list of stations of the network and
 * the map-centering hints, loaded from the station list.
 */
module Network {
  import opened Wrappers
  import opened RubyString
  import opened Station

  /** The `markers` document of the station list, after XML parsing and `to_f`. */
  datatype StationList = StationList(centerLat: real, centerLng: real, zoomLevel: real, markers: seq<Marker>)

  /** The station carries the identity its list entry gives it. */
  predicate BuiltFrom(s: VLilleStation, m: Marker) {
    s.id == ToI(m.id) && s.name == m.name && s.lat == m.lat && s.lng == m.lng
  }

  /** `Array#find` by id: the index of the first station with that id, if any. */
  function FirstWithId(ss: seq<VLilleStation>, id: int): (r: Option<nat>)
    ensures r.Some? ==> r.value < |ss| && ss[r.value].id == id
    ensures r.Some? ==> forall j :: 0 <= j < r.value ==> ss[j].id != id
    ensures r.None? <==> forall j :: 0 <= j < |ss| ==> ss[j].id != id
  {
    if ss == [] then None
    else if ss[0].id == id then Some(0)
    else
      match FirstWithId(ss[1..], id)
      case None => None
      case Some(k) => Some(k + 1)
  }

  /** When ids are unique, looking up a station's id finds that very station. */
  lemma FirstWithIdOfMember(ss: seq<VLilleStation>, i: nat)
    requires i < |ss|
    requires forall j, k :: 0 <= j < k < |ss| ==> ss[j].id != ss[k].id
    ensures FirstWithId(ss, ss[i].id) == Some(i)
  {
    var r := FirstWithId(ss, ss[i].id);
    assert r.Some?;
  }

  /** One step of a container load: a new station from `marker`, with its details when `loadDetails`. */
  method NewStation(marker: Marker, loadDetails: bool, fetch: int -> Detail, now: int) returns (station: VLilleStation)
    ensures fresh(station) && BuiltFrom(station, marker)
    ensures !loadDetails ==> station.HasNoDetails()
    ensures loadDetails ==> station.HasDetails(ParseDetail(fetch(station.id), now))
  {
    station := new VLilleStation(marker);
    if loadDetails {
      station.Load(fetch, now);
    }
  }

  class VLille {
    var stations: seq<VLilleStation>
    var centerLat: Option<real>
    var centerLng: Option<real>
    var zoomLevel: Option<real>

    /**
     * The three hints are set and cleared together, stations exist only
     * after a load, and no station object appears twice.
     */
    ghost predicate Valid()
      reads this
    {
      && (centerLat.None? <==> centerLng.None?)
      && (centerLat.None? <==> zoomLevel.None?)
      && (centerLat.None? ==> stations == [])
      && forall i, j :: 0 <= i < j < |stations| ==> stations[i] != stations[j]
    }

    /** The state of a new or reset container: no stations, all hints `nil`. */
    predicate IsEmpty()
      reads this
    {
      stations == [] && centerLat.None? && centerLng.None? && zoomLevel.None?
    }

    constructor ()
      ensures Valid() && IsEmpty()
    {
      new;
      Reset();
    }

    /** Clears all data; whatever the state before, the result is the same. */
    method Reset()
      modifies this
      ensures Valid() && IsEmpty()
    {
      stations := [];
      centerLat := None;
      centerLng := None;
      zoomLevel := None;
    }

    /**
     * Resets, takes the hints from the list, then builds one new station per
     * marker in list order, loading its details first when `loadDetails`.
     * Each station reads the clock during its own detail load: `clock(i)` is
     * the time read by the station built from the i-th marker.
     */
    method Load(loadDetails: bool, feed: StationList, fetch: int -> Detail, clock: nat -> int)
      modifies this
      ensures Valid()
      ensures centerLat == Some(feed.centerLat) && centerLng == Some(feed.centerLng)
      ensures zoomLevel == Some(feed.zoomLevel)
      ensures |stations| == |feed.markers|
      ensures forall i :: 0 <= i < |stations| ==> fresh(stations[i]) && BuiltFrom(stations[i], feed.markers[i])
      ensures !loadDetails ==> forall i :: 0 <= i < |stations| ==> stations[i].HasNoDetails()
      ensures loadDetails ==> forall i :: 0 <= i < |stations| ==>
        stations[i].HasDetails(ParseDetail(fetch(stations[i].id), clock(i)))
    {
      Reset();
      centerLat := Some(feed.centerLat);
      centerLng := Some(feed.centerLng);
      zoomLevel := Some(feed.zoomLevel);
      var i := 0;
      while i < |feed.markers|
        invariant 0 <= i <= |feed.markers| && |stations| == i
        invariant centerLat == Some(feed.centerLat) && centerLng == Some(feed.centerLng)
        invariant zoomLevel == Some(feed.zoomLevel)
        invariant forall k :: 0 <= k < i ==> fresh(stations[k]) && BuiltFrom(stations[k], feed.markers[k])
        invariant forall j, k :: 0 <= j < k < i ==> stations[j] != stations[k]
        invariant !loadDetails ==> forall k :: 0 <= k < i ==> stations[k].HasNoDetails()
        invariant loadDetails ==> forall k :: 0 <= k < i ==>
          stations[k].HasDetails(ParseDetail(fetch(stations[k].id), clock(k)))
      {
        var station := NewStation(feed.markers[i], loadDetails, fetch, clock(i));
        stations := stations + [station];
        i := i + 1;
      }
    }

    /** Station `i` is the first in list order whose id is `id`. */
    ghost predicate IsFirstWithId(i: int, id: int)
      reads this
    {
      0 <= i < |stations| && stations[i].id == id && forall j :: 0 <= j < i ==> stations[j].id != id
    }

    /** The first station, in list order, whose id is `id`; `nil` when none has it. */
    function FindStation(id: int): (r: Option<VLilleStation>)
      reads this
      ensures r.Some? <==> exists i :: 0 <= i < |stations| && stations[i].id == id
      ensures r.Some? ==> r.value.id == id
      ensures r.Some? ==> exists i :: IsFirstWithId(i, id) && stations[i] == r.value
    {
      match FirstWithId(stations, id)
      case None => None
      case Some(i) => Some(stations[i])
    }
  }

  /** A valid container whose hints are unset has not been loaded: it finds no station. */
  lemma NoStationBeforeLoad(vl: VLille, id: int)
    requires vl.Valid() && vl.centerLat.None?
    ensures vl.FindStation(id).None?
  {
    assert vl.stations == [];
  }
}
