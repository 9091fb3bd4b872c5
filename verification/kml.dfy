/**
 The per-station part of generateKML in server.js: join each status record
 with its information record, default the counts, pick the display name and
 the style, render the coordinates, and drop the stations whose coordinates
 render as "0,0,0".  The XML serialisation, the static style section and the
 HTML/timestamp formatting of the description are not modelled; the
 description is kept as the data it shows.
 */
module Kml {
  import opened JsValues
  import opened Text
  import opened Gbfs

  /** The three icon styles of the document. */
  datatype Style = Many | Few | Empty

  function StyleUrl(s: Style): string {
    match s
    case Many => "#station-many"
    case Few => "#station-few"
    case Empty => "#station-empty"
  }

  /** The data the HTML description of a placemark shows. */
  datatype Description = Description(
    title: string,
    bikesAvailable: int,
    docksAvailable: int,
    totalDocks: int,
    address: Option<string>)   // Some only when the address line is shown

  datatype Placemark = Placemark(
    name: string,
    description: Description,
    style: Style,
    coordinates: string)

  /** The coordinate text of a station without coordinates. */
  const Origin: string := "0,0,0"

  /** Threshold classification of a station by its bike count. */
  function Classify(bikes: int): (s: Style)
    ensures s == Many <==> bikes > 5
    ensures s == Few <==> 0 < bikes <= 5
    ensures s == Empty <==> bikes <= 0
  {
    if bikes > 5 then Many
    else if bikes > 0 then Few
    else Empty
  }

  // Property reads on the resolved record; None stands for the empty object `{}`,
  // on which every property is undefined.

  function NameOf(info: Option<StationInformation>): Option<string> {
    if info.Some? then info.value.name else None
  }

  function AddressOf(info: Option<StationInformation>): Option<string> {
    if info.Some? then info.value.address else None
  }

  function LonOf(info: Option<StationInformation>): NumField {
    if info.Some? then info.value.lon else Missing
  }

  function LatOf(info: Option<StationInformation>): NumField {
    if info.Some? then info.value.lat else Missing
  }

  /** The synthesised name of a station that has no usable name of its own. */
  function FallbackName(stationId: string): string {
    "Estación " + stationId
  }

  /**
   The display name: the information record's name when it is present and
   non-empty, otherwise the synthesised name.  Never empty.
   */
  function DisplayName(stationId: string, info: Option<StationInformation>): (r: string)
    ensures |r| > 0
    ensures StringTruthy(NameOf(info)) ==> r == info.value.name.value
    ensures !StringTruthy(NameOf(info)) ==> r == FallbackName(stationId)
  {
    StringOr(NameOf(info), FallbackName(stationId))
  }

  /**
   `${lon},${lat},0` with integer coordinates: the longitude's text, a comma,
   the latitude's text and ",0".
   */
  function CoordinateText(lon: int, lat: int): (r: string)
    ensures |r| == |IntToString(lon)| + |IntToString(lat)| + 3
    ensures r[|IntToString(lon)|] == ',' && r[|r| - 2..] == ",0"
  {
    IntToString(lon) + "," + IntToString(lat) + ",0"
  }

  /** Both coordinates read back from the coordinate text. */
  lemma CoordinateTextReadsBack(lon: int, lat: int)
    ensures var r := CoordinateText(lon, lat); var k := |IntToString(lon)|;
      && IsIntText(r[..k]) && ParseInt(r[..k]) == lon
      && IsIntText(r[k + 1..|r| - 2]) && ParseInt(r[k + 1..|r| - 2]) == lat
  {
    var a := IntToString(lon);
    var b := IntToString(lat);
    var r := CoordinateText(lon, lat);
    assert r == a + "," + b + ",0";
    assert r[..|a|] == a;
    assert r[|a| + 1..|r| - 2] == b;
    ParseIntOfIntToString(lon);
    ParseIntOfIntToString(lat);
  }

  /**
   The layout and the read-back determine the coordinate text: any string
   laid out as the longitude's numeral, a comma, the latitude's numeral and
   ",0", whose two numerals read back as the coordinates, is that text.
   */
  lemma CoordinateTextIsDetermined(lon: int, lat: int, r: string)
    requires |r| == |IntToString(lon)| + |IntToString(lat)| + 3
    requires r[|IntToString(lon)|] == ',' && r[|r| - 2..] == ",0"
    requires IsIntText(r[..|IntToString(lon)|]) && ParseInt(r[..|IntToString(lon)|]) == lon
    requires IsIntText(r[|IntToString(lon)| + 1..|r| - 2]) && ParseInt(r[|IntToString(lon)| + 1..|r| - 2]) == lat
    ensures r == CoordinateText(lon, lat)
  {
    var k := |IntToString(lon)|;
    IntTextIsCanonical(r[..k], lon);
    IntTextIsCanonical(r[k + 1..|r| - 2], lat);
    assert r == r[..k] + [r[k]] + r[k + 1..|r| - 2] + r[|r| - 2..];
  }

  /** The rendered coordinates equal "0,0,0" exactly when both coordinates are zero. */
  lemma CoordinateTextIsOrigin(lon: int, lat: int)
    ensures CoordinateText(lon, lat) == Origin <==> lon == 0 && lat == 0
  {
    var a := IntToString(lon);
    var b := IntToString(lat);
    var t := CoordinateText(lon, lat);
    assert t == a + "," + b + ",0";
    IntToStringIsZero(lon);
    IntToStringIsZero(lat);
    if t == Origin {
      assert |a| == 1;
      assert a == [t[0]];
      var u := b + ",0";
      assert t[2..] == u;
      assert |b| == 1;
      assert b == [u[0]];
    }
  }

  /** The name of a placemark: the display name, then the bike count as " (N bicis)". */
  function PlacemarkName(display: string, bikes: int): (n: string)
    ensures |n| == |display| + |IntToString(bikes)| + 9
    ensures n[..|display|] == display
    ensures n[|display|..|display| + 2] == " ("
    ensures n[|n| - 7..] == " bicis)"
    ensures IsIntText(n[|display| + 2..|n| - 7]) && ParseInt(n[|display| + 2..|n| - 7]) == bikes
  {
    var n := display + " (" + IntToString(bikes) + " bicis)";
    assert n[..|display|] == display;
    assert n[|display| + 2..|n| - 7] == IntToString(bikes);
    ParseIntOfIntToString(bikes);
    n
  }

  /** The placemark name starts with the display name and shows the bike count, which reads back. */
  lemma PlacemarkNameShowsCount(display: string, bikes: int)
    ensures var n := PlacemarkName(display, bikes);
      && |n| == |display| + |IntToString(bikes)| + 9
      && n[..|display|] == display
      && IsIntText(n[|display| + 2..|n| - 7])
      && ParseInt(n[|display| + 2..|n| - 7]) == bikes
  {
    var n := PlacemarkName(display, bikes);
    var c := IntToString(bikes);
    assert n == display + " (" + c + " bicis)";
    assert n[|display| + 2..|n| - 7] == c;
    ParseIntOfIntToString(bikes);
  }

  /**
   The layout and the read-back determine the name: any string made of the
   display name, " (", a numeral reading back as the bike count and as long
   as its rendering, and " bicis)" is the placemark name.
   */
  lemma PlacemarkNameIsDetermined(display: string, bikes: int, n: string)
    requires |n| == |display| + |IntToString(bikes)| + 9
    requires n[..|display|] == display && n[|display|..|display| + 2] == " (" && n[|n| - 7..] == " bicis)"
    requires IsIntText(n[|display| + 2..|n| - 7]) && ParseInt(n[|display| + 2..|n| - 7]) == bikes
    ensures n == PlacemarkName(display, bikes)
  {
    IntTextIsCanonical(n[|display| + 2..|n| - 7], bikes);
    assert n == n[..|display|] + n[|display|..|display| + 2] + n[|display| + 2..|n| - 7] + n[|n| - 7..];
  }

  /** One placemark per status record, built from the record and its resolved information. */
  function ToPlacemark(st: StationStatus, info: Option<StationInformation>): (p: Placemark)
    ensures p.description.title == DisplayName(st.stationId, info)
    ensures p.description.bikesAvailable == FieldOrZero(st.numBikesAvailable)
    ensures p.description.docksAvailable == FieldOrZero(st.numDocksAvailable)
    ensures p.style == Classify(p.description.bikesAvailable)
    ensures p.description.totalDocks == SumOrZero(st.numDocksAvailable, st.numBikesAvailable)
    ensures p.coordinates == CoordinateText(FieldOrZero(LonOf(info)), FieldOrZero(LatOf(info)))
    ensures p.coordinates == Origin <==> FieldOrZero(LonOf(info)) == 0 && FieldOrZero(LatOf(info)) == 0
    ensures info.None? ==> p.coordinates == Origin
    ensures p.description.address.Some? <==> StringTruthy(AddressOf(info))
    ensures p.description.address.Some? ==> p.description.address == AddressOf(info)
    ensures p.name == PlacemarkName(p.description.title, p.description.bikesAvailable)
  {
    var bikes := FieldOrZero(st.numBikesAvailable);
    var docks := FieldOrZero(st.numDocksAvailable);
    var total := SumOrZero(st.numDocksAvailable, st.numBikesAvailable);
    var display := DisplayName(st.stationId, info);
    var lon := FieldOrZero(LonOf(info));
    var lat := FieldOrZero(LatOf(info));
    CoordinateTextIsOrigin(lon, lat);
    Placemark(
      PlacemarkName(display, bikes),
      Description(display, bikes, docks, total,
                  if StringTruthy(AddressOf(info)) then AddressOf(info) else None),
      Classify(bikes),
      CoordinateText(lon, lat))
  }

  /**
   Count defaults: a missing or null count shows as 0; the total is docks
   plus bikes as shown when neither raw field is missing (a null adds 0), and
   0 when either is missing, whatever the other.
   */
  lemma TotalDocks(st: StationStatus, info: Option<StationInformation>)
    ensures var d := ToPlacemark(st, info).description;
      && (!st.numBikesAvailable.Missing? && !st.numDocksAvailable.Missing? ==>
            d.totalDocks == d.docksAvailable + d.bikesAvailable)
      && (st.numBikesAvailable.Missing? || st.numDocksAvailable.Missing? ==> d.totalDocks == 0)
      && (!st.numBikesAvailable.Number? ==> d.bikesAvailable == 0)
      && (!st.numDocksAvailable.Number? ==> d.docksAvailable == 0)
  {
  }

  /** The placemark's style tag follows the thresholds on the defaulted bike count. */
  lemma StyleThresholds(st: StationStatus, info: Option<StationInformation>)
    ensures var p := ToPlacemark(st, info); var b := FieldOrZero(st.numBikesAvailable);
      && (StyleUrl(p.style) == "#station-many" <==> b > 5)
      && (StyleUrl(p.style) == "#station-few" <==> 0 < b <= 5)
      && (StyleUrl(p.style) == "#station-empty" <==> b <= 0)
  {
  }

  predicate Located(p: Placemark) {
    p.coordinates != Origin
  }

  /** A station is kept exactly when it has information and a non-zero longitude or latitude. */
  lemma LocatedIff(st: StationStatus, info: Option<StationInformation>)
    ensures Located(ToPlacemark(st, info)) <==>
      info.Some? && (FieldOrZero(info.value.lon) != 0 || FieldOrZero(info.value.lat) != 0)
  {
  }

  /** `.filter(placemark => placemark.Point.coordinates !== '0,0,0')`. */
  function KeepLocated(ps: seq<Placemark>): (r: seq<Placemark>)
    ensures |r| <= |ps|
    ensures forall p :: p in r <==> p in ps && Located(p)
    ensures r == [] <==> forall p :: p in ps ==> !Located(p)
    decreases |ps|
  {
    if |ps| == 0 then []
    else (if Located(ps[0]) then [ps[0]] else []) + KeepLocated(ps[1..])
  }

  /** Filtering distributes over concatenation, so the kept placemarks stay in input order. */
  lemma {:induction false} KeepLocatedAppend(a: seq<Placemark>, b: seq<Placemark>)
    ensures KeepLocated(a + b) == KeepLocated(a) + KeepLocated(b)
    decreases |a|
  {
    if |a| > 0 {
      assert (a + b)[0] == a[0];
      assert (a + b)[1..] == a[1..] + b;
      KeepLocatedAppend(a[1..], b);
    } else {
      assert a + b == b;
    }
  }

  /** The placemark of one status record, joined through the lookup. */
  function PlacemarkFor(st: StationStatus, lookup: map<string, StationInformation>): Placemark {
    ToPlacemark(st, Resolve(lookup, st.stationId))
  }

  /** `Array.prototype.map`: `f` applied to every element, in order. */
  function MapSeq<A, B>(f: A -> B, s: seq<A>): (r: seq<B>)
    ensures |r| == |s|
    ensures forall i :: 0 <= i < |s| ==> r[i] == f(s[i])
  {
    seq(|s|, i requires 0 <= i < |s| => f(s[i]))
  }

  /** Mapping commutes with concatenation. */
  lemma MapSeqAppend<A, B>(f: A -> B, s1: seq<A>, s2: seq<A>)
    ensures MapSeq(f, s1 + s2) == MapSeq(f, s1) + MapSeq(f, s2)
  {
    var a := MapSeq(f, s1 + s2);
    var b := MapSeq(f, s1) + MapSeq(f, s2);
    forall i | 0 <= i < |a| ensures a[i] == b[i] {
      if i < |s1| {
        assert (s1 + s2)[i] == s1[i];
      } else {
        assert (s1 + s2)[i] == s2[i - |s1|];
      }
    }
  }

  /** The `map` step: one placemark per status record, in status order. */
  function AllPlacemarks(statuses: seq<StationStatus>, lookup: map<string, StationInformation>): seq<Placemark> {
    MapSeq(st => PlacemarkFor(st, lookup), statuses)
  }

  /**
   The placemarks of the station folder: every kept placemark is located and
   belongs to a status record, every located placemark of a status record is
   kept, and there are never more placemarks than status records.
   */
  function GenerateKml(statuses: seq<StationStatus>, info: Option<InfoDocument>): (r: seq<Placemark>)
    ensures |r| <= |statuses|
    ensures forall p :: p in r ==> Located(p)
    ensures forall p :: p in r <==>
      exists i :: 0 <= i < |statuses| && p == PlacemarkFor(statuses[i], InfoLookup(info)) && Located(p)
  {
    var all := AllPlacemarks(statuses, InfoLookup(info));
    assert forall i :: 0 <= i < |statuses| ==> all[i] == PlacemarkFor(statuses[i], InfoLookup(info));
    KeepLocated(all)
  }

  /** The output keeps status order: the placemarks of a concatenation are the concatenated placemarks. */
  lemma GenerateKmlAppend(s1: seq<StationStatus>, s2: seq<StationStatus>, info: Option<InfoDocument>)
    ensures GenerateKml(s1 + s2, info) == GenerateKml(s1, info) + GenerateKml(s2, info)
  {
    var m := InfoLookup(info);
    MapSeqAppend(st => PlacemarkFor(st, m), s1, s2);
    KeepLocatedAppend(AllPlacemarks(s1, m), AllPlacemarks(s2, m));
  }

  /** A station whose identifier has no information record never appears in the output. */
  lemma UnmatchedStationDropped(statuses: seq<StationStatus>, info: Option<InfoDocument>, i: int)
    requires 0 <= i < |statuses| && statuses[i].stationId !in InfoLookup(info)
    ensures !Located(PlacemarkFor(statuses[i], InfoLookup(info)))
    ensures PlacemarkFor(statuses[i], InfoLookup(info)) !in GenerateKml(statuses, info)
  {
  }

  /**
   Without usable station information (the info fetch failed, or its document
   has no data.stations) every station falls back and is dropped.
   */
  lemma NoInfoNoPlacemarks(statuses: seq<StationStatus>, info: Option<InfoDocument>)
    requires info.None? || info.value.stations.None?
    ensures GenerateKml(statuses, info) == []
  {
    var m := InfoLookup(info);
    var all := AllPlacemarks(statuses, m);
    assert forall i :: 0 <= i < |all| ==> all[i] == ToPlacemark(statuses[i], None);
  }

  /** The numerals of the worked example below. */
  lemma PlazaNumerals()
    ensures IntToString(3) == "3"
    ensures IntToString(-688) == "-688"
    ensures IntToString(-329) == "-329"
  {
    assert NatToString(68) == NatToString(6) + "8";
    assert NatToString(688) == NatToString(68) + "8";
    assert NatToString(32) == NatToString(3) + "2";
    assert NatToString(329) == NatToString(32) + "9";
  }

  /** The texts of the worked example below. */
  lemma PlazaTexts()
    ensures CoordinateText(-688, -329) == "-688,-329,0"
    ensures PlacemarkName("Plaza", 3) == "Plaza (3 bicis)"
  {
    PlazaNumerals();
    assert CoordinateText(-688, -329) == IntToString(-688) + "," + IntToString(-329) + ",0";
    assert PlacemarkName("Plaza", 3) == "Plaza" + " (" + IntToString(3) + " bicis)";
  }

  /** The placemark of the worked example below. */
  lemma PlazaPlacemark(st: StationStatus, info: StationInformation)
    requires st == StationStatus("5", Number(3), Number(2))
    requires info == StationInformation("5", Some("Plaza"), None, Number(-329), Number(-688))
    ensures ToPlacemark(st, Some(info))
      == Placemark("Plaza (3 bicis)", Description("Plaza", 3, 2, 5, None), Few, "-688,-329,0")
  {
    assert DisplayName("5", Some(info)) == "Plaza";
    assert SumOrZero(Number(2), Number(3)) == 5;
    assert ToPlacemark(st, Some(info)) == Placemark(
      PlacemarkName("Plaza", 3), Description("Plaza", 3, 2, 5, None), Few, CoordinateText(-688, -329));
    PlazaTexts();
  }

  /**
   A worked example: one station with three bikes and two docks, at latitude
   -32.9 and longitude -68.8 given in tenths of a degree.
   */
  lemma PlazaExample()
    ensures GenerateKml(
      [StationStatus("5", Number(3), Number(2))],
      Some(InfoDocument(Some([StationInformation("5", Some("Plaza"), None, Number(-329), Number(-688))]))))
      == [Placemark("Plaza (3 bicis)", Description("Plaza", 3, 2, 5, None), Few, "-688,-329,0")]
  {
    var info := StationInformation("5", Some("Plaza"), None, Number(-329), Number(-688));
    var st := StationStatus("5", Number(3), Number(2));
    var m := map["5" := info];
    assert [info][..0] == [];
    assert IndexById([info]) == m;
    PlazaPlacemark(st, info);
    var p := Placemark("Plaza (3 bicis)", Description("Plaza", 3, 2, 5, None), Few, "-688,-329,0");
    assert Resolve(m, "5") == Some(info);
    assert AllPlacemarks([st], m) == [p];
    assert KeepLocated([p]) == [p];
  }
}
