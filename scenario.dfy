/**
 * A client of the model that replays the expectations of the parsing test
 * (test/test_vlille.rb): an empty container, a two-station list with details,
 * and lookups by id. The detail records are shaped like the test's and
 * only their effect is asserted.
 */
module Scenario {
  import opened Wrappers
  import opened RubyString
  import opened UpdateTime
  import opened Station
  import opened Network

  function DetailFor(id: int): Detail {
    if id == 1 then
      Detail(Some("LMCU RUE DU BALLON "), Some("6"), Some("30"), Some("2 secondes"), Some("0"), Some("AVEC_TPE"))
    else
      Detail(Some("ANGLE PLACE RIHOUR RUE JEAN ROISIN "), Some("12"), Some("20"),
             Some("6 heure(s) 4 minute(s) 2 secondes"), Some("0"), Some("SANS_TPE"))
  }

  /** What a detail load makes of the record of station 1. */
  lemma DetailsOfStation1(now: int)
    ensures ParseDetail(DetailFor(1), now)
      == Details(Some("LMCU RUE DU BALLON "), Working, 6, 30, Available, now - 2)
  {
    assert Decimal(6) == "6" && Decimal(3) == "3";
    assert Decimal(30) == Decimal(3) + "0" == "30";
    CountsOfDetail(DetailFor(1), now, 6, 30);
    StatusOfCode(0);
    LastUpdateSecondsOnly(now);
  }

  /** What a detail load makes of the record of station 10. */
  lemma DetailsOfStation10(now: int)
    ensures ParseDetail(DetailFor(10), now)
      == Details(Some("ANGLE PLACE RIHOUR RUE JEAN ROISIN "), Working, 12, 20, Unavailable,
                 now - (6 * 60 * 60 + 4 * 60 + 2))
  {
    assert Decimal(12) == Decimal(1) + "2" == "12";
    assert Decimal(20) == Decimal(2) + "0" == "20";
    CountsOfDetail(DetailFor(10), now, 12, 20);
    StatusOfCode(0);
    LastUpdateFullPhrase(now);
  }

  /** The ids of the two markers read as 1 and 10. */
  lemma IdsOfTestFeed()
    ensures ToI(Some("1")) == 1 && ToI(Some("10")) == 10
  {
    ToIRoundTrip(1);
    ToIRoundTrip(10);
    assert IntString(1) == "1" && IntString(10) == "10";
  }

  /** The two-station list of the parsing test. */
  function TestFeed(): StationList {
    StationList(50.675, 3.1, 12.0, [
      Marker(Some("1"), Some("Lille Metropole"), 50.6419, 3.07599),
      Marker(Some("10"), Some("Rihour"), 50.6359, 3.06247)])
  }

  /**
   * A new container is empty; loading the test list with details fills it.
   * `clock(i)` is the time read while station i loads.
   */
  method LoadTestFeed(clock: nat -> int) returns (vl: VLille)
    ensures vl.centerLat == Some(50.675) && vl.centerLng == Some(3.1) && vl.zoomLevel == Some(12.0)
    ensures |vl.stations| == 2 && vl.stations[0].id == 1 && vl.stations[1].id == 10
    ensures BuiltFrom(vl.stations[0], TestFeed().markers[0]) && BuiltFrom(vl.stations[1], TestFeed().markers[1])
    ensures vl.stations[0].HasDetails(Details(Some("LMCU RUE DU BALLON "), Working, 6, 30, Available, clock(0) - 2))
    ensures vl.stations[1].HasDetails(Details(Some("ANGLE PLACE RIHOUR RUE JEAN ROISIN "), Working, 12, 20,
                                              Unavailable, clock(1) - (6 * 60 * 60 + 4 * 60 + 2)))
  {
    vl := new VLille();
    assert |vl.stations| == 0 && vl.centerLat.None? && vl.centerLng.None? && vl.zoomLevel.None?;
    vl.Load(true, TestFeed(), DetailFor, clock);
    IdsOfTestFeed();
    var a, b := vl.stations[0], vl.stations[1];
    assert BuiltFrom(a, TestFeed().markers[0]) && BuiltFrom(b, TestFeed().markers[1]);
    assert a.HasDetails(ParseDetail(DetailFor(1), clock(0)));
    assert b.HasDetails(ParseDetail(DetailFor(10), clock(1)));
    DetailsOfStation1(clock(0));
    DetailsOfStation10(clock(1));
  }

  /**
   * The lookups of the parsing test: ids 1 and 10 find the two stations with
   * their names, positions and details; no station has id 2.
   */
  method ParsingScenario(clock: nat -> int) returns (vl: VLille, station1: VLilleStation, station10: VLilleStation)
    ensures vl.FindStation(1) == Some(station1) && vl.FindStation(10) == Some(station10)
    ensures vl.FindStation(2).None?
    ensures station1.id == 1 && station1.name == Some("Lille Metropole")
    ensures station1.lat == 50.6419 && station1.lng == 3.07599
    ensures station1.HasDetails(Details(Some("LMCU RUE DU BALLON "), Working, 6, 30, Available, clock(0) - 2))
    ensures station10.id == 10 && station10.name == Some("Rihour")
    ensures station10.lat == 50.6359 && station10.lng == 3.06247
    ensures station10.HasDetails(Details(Some("ANGLE PLACE RIHOUR RUE JEAN ROISIN "), Working, 12, 20, Unavailable,
                                         clock(1) - (6 * 60 * 60 + 4 * 60 + 2)))
  {
    vl := LoadTestFeed(clock);
    FirstWithIdOfMember(vl.stations, 0);
    FirstWithIdOfMember(vl.stations, 1);
    station1 := vl.stations[0];
    station10 := vl.stations[1];
  }
}
