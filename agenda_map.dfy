/** The marker loop of `create_map` (main.py): each address of each meeting
    gets the default locality when it has no comma, is geocoded, and yields a
    marker only when the geocoder found it; the map is centred on the mean of
    the markers, or on the default centre when there is none. */
module AgendaMap {
  import AgendaMeetings

  /** What one geocoder call gives: a location, no match, or a timeout. */
  datatype GeocodeResult = Located(latitude: real, longitude: real) | NoMatch | TimedOut

  /** A map position, latitude first. */
  datatype Point = Point(latitude: real, longitude: real)

  /** A map pin and the text of its popup. */
  datatype Marker = Marker(latitude: real, longitude: real, popup: string)

  /** One geocoder request: the meeting's agenda and the completed address. */
  datatype Lookup = Lookup(agenda: string, address: string)

  const DefaultCity: string := "Fortville"
  const DefaultState: string := "IN"
  const LocalitySuffix: string := ", " + DefaultCity + ", " + DefaultState

  /** The centre used when no marker was produced. */
  const DefaultCentre: Point := Point(40.7128, -74.0060)

  /** An address without a comma gets the default city and state; one with a
      comma is taken to be complete already. */
  function WithLocality(address: string): (r: string)
    ensures address <= r && ',' in r
    ensures r == address <==> ',' in address
    ensures ',' !in address ==> r == address + LocalitySuffix
  {
    if ',' !in address then
      assert LocalitySuffix[0] == ',';
      assert (address + LocalitySuffix)[|address|] == ',';
      address + LocalitySuffix
    else address
  }

  /** Completing an address twice changes nothing more. */
  lemma WithLocalityIdempotent(address: string)
    ensures WithLocality(WithLocality(address)) == WithLocality(address)
  {
  }

  /** The popup of a marker: the agenda, a newline, and the completed address. */
  function Popup(lookup: Lookup): string {
    "Agenda: " + lookup.agenda + "\nAddress: " + lookup.address
  }

  /** The requests made for one meeting, in address order. */
  function MeetingLookups(agenda: string, addresses: seq<string>): (r: seq<Lookup>)
    ensures |r| == |addresses|
  {
    seq(|addresses|, k requires 0 <= k < |addresses| => Lookup(agenda, WithLocality(addresses[k])))
  }

  /** The requests made for all meetings, meeting by meeting. */
  function Lookups(meetings: seq<AgendaMeetings.Meeting>): seq<Lookup> {
    if meetings == [] then []
    else
      var m := meetings[|meetings| - 1];
      Lookups(meetings[..|meetings| - 1]) + MeetingLookups(m.agenda, m.addresses)
  }

  /** The markers a run of requests produces: one per located address. */
  function Markers(lookups: seq<Lookup>, geocode: string -> GeocodeResult): seq<Marker> {
    if lookups == [] then []
    else
      var l := lookups[|lookups| - 1];
      var earlier := Markers(lookups[..|lookups| - 1], geocode);
      match geocode(l.address)
      case Located(lat, lng) => earlier + [Marker(lat, lng, Popup(l))]
      case NoMatch => earlier
      case TimedOut => earlier
  }

  /** The number of requests the geocoder answered with a location. */
  function Hits(lookups: seq<Lookup>, geocode: string -> GeocodeResult): nat {
    if lookups == [] then 0
    else Hits(lookups[..|lookups| - 1], geocode) + (if geocode(lookups[|lookups| - 1].address).Located? then 1 else 0)
  }

  function Sum(xs: seq<real>): real {
    if xs == [] then 0.0 else Sum(xs[..|xs| - 1]) + xs[|xs| - 1]
  }

  function Mean(xs: seq<real>): real
    requires |xs| > 0
  {
    Sum(xs) / (|xs| as real)
  }

  function Latitudes(markers: seq<Marker>): (r: seq<real>)
    ensures |r| == |markers|
  {
    seq(|markers|, k requires 0 <= k < |markers| => markers[k].latitude)
  }

  function Longitudes(markers: seq<Marker>): (r: seq<real>)
    ensures |r| == |markers|
  {
    seq(|markers|, k requires 0 <= k < |markers| => markers[k].longitude)
  }

  /** Where the map is centred: the mean position of the markers, or the
      default centre when there is no marker. */
  function Centre(markers: seq<Marker>): Point {
    if |markers| > 0 then Point(Mean(Latitudes(markers)), Mean(Longitudes(markers))) else DefaultCentre
  }

  /** `create_map`, with the geocoder given; the markers are the ones added to
      the map, and the latitude and longitude lists are kept beside them. */
  method CreateMap(meetings: seq<AgendaMeetings.Meeting>, geocode: string -> GeocodeResult)
    returns (markers: seq<Marker>, centre: Point)
    ensures markers == Markers(Lookups(meetings), geocode)
    ensures centre == Centre(markers)
  {
    markers := [];
    var latitudes: seq<real> := [];
    var longitudes: seq<real> := [];
    var i := 0;
    while i < |meetings|
      invariant 0 <= i <= |meetings|
      invariant markers == Markers(Lookups(meetings[..i]), geocode)
      invariant latitudes == Latitudes(markers) && longitudes == Longitudes(markers)
    {
      var agenda := meetings[i].agenda;
      var addresses := meetings[i].addresses;
      markers, latitudes, longitudes := AddMeetingMarkers(markers, latitudes, longitudes, agenda, addresses, geocode);
      MeetingStep(meetings, i, geocode);
      i := i + 1;
    }
    assert meetings[..i] == meetings;
    if |latitudes| > 0 && |longitudes| > 0 {
      centre := Point(Sum(latitudes) / (|latitudes| as real), Sum(longitudes) / (|longitudes| as real));
    } else {
      centre := DefaultCentre;
    }
  }

  /** The inner loop of `create_map` over one meeting's addresses. */
  method AddMeetingMarkers(markers: seq<Marker>, latitudes: seq<real>, longitudes: seq<real>,
                           agenda: string, addresses: seq<string>, geocode: string -> GeocodeResult)
    returns (markers': seq<Marker>, latitudes': seq<real>, longitudes': seq<real>)
    requires latitudes == Latitudes(markers) && longitudes == Longitudes(markers)
    ensures markers' == markers + Markers(MeetingLookups(agenda, addresses), geocode)
    ensures latitudes' == Latitudes(markers') && longitudes' == Longitudes(markers')
  {
    markers', latitudes', longitudes' := markers, latitudes, longitudes;
    var j := 0;
    while j < |addresses|
      invariant 0 <= j <= |addresses|
      invariant markers' == markers + Markers(MeetingLookups(agenda, addresses[..j]), geocode)
      invariant latitudes' == Latitudes(markers') && longitudes' == Longitudes(markers')
    {
      var address := addresses[j];
      if ',' !in address {
        address := address + LocalitySuffix;
      }
      LookupStep(agenda, addresses, j);
      ghost var added := Markers(MeetingLookups(agenda, addresses[..j]), geocode);
      var location := geocode(address);
      if location.Located? {
        var marker := Marker(location.latitude, location.longitude, Popup(Lookup(agenda, address)));
        PinAppended(markers', marker);
        assert (markers + added) + [marker] == markers + (added + [marker]);
        latitudes' := latitudes' + [location.latitude];
        longitudes' := longitudes' + [location.longitude];
        markers' := markers' + [marker];
      }
      j := j + 1;
    }
    assert addresses[..j] == addresses;
  }

  /** One more address adds its request after the earlier ones. */
  lemma LookupStep(agenda: string, addresses: seq<string>, j: nat)
    requires j < |addresses|
    ensures MeetingLookups(agenda, addresses[..j + 1])
         == MeetingLookups(agenda, addresses[..j]) + [Lookup(agenda, WithLocality(addresses[j]))]
    ensures MeetingLookups(agenda, addresses[..j + 1])[..j] == MeetingLookups(agenda, addresses[..j])
  {
    var longer := MeetingLookups(agenda, addresses[..j + 1]);
    var shorter := MeetingLookups(agenda, addresses[..j]);
    forall k | 0 <= k < j
      ensures longer[k] == shorter[k]
    {
      assert addresses[..j + 1][k] == addresses[..j][k];
    }
    assert longer[j] == Lookup(agenda, WithLocality(addresses[j]));
    assert longer[..j] == shorter;
    assert longer == shorter + [longer[j]];
  }

  /** One more meeting adds its requests after the earlier ones. */
  lemma MeetingStep(meetings: seq<AgendaMeetings.Meeting>, i: nat, geocode: string -> GeocodeResult)
    requires i < |meetings|
    ensures Markers(Lookups(meetings[..i + 1]), geocode)
         == Markers(Lookups(meetings[..i]), geocode) + Markers(MeetingLookups(meetings[i].agenda, meetings[i].addresses), geocode)
  {
    assert meetings[..i + 1][..i] == meetings[..i];
    MarkersAppend(Lookups(meetings[..i]), MeetingLookups(meetings[i].agenda, meetings[i].addresses), geocode);
  }

  /** Appending a pin appends its latitude and longitude to the lists. */
  lemma PinAppended(markers: seq<Marker>, marker: Marker)
    ensures Latitudes(markers + [marker]) == Latitudes(markers) + [marker.latitude]
    ensures Longitudes(markers + [marker]) == Longitudes(markers) + [marker.longitude]
  {
    assert Latitudes(markers + [marker])[..|markers|] == Latitudes(markers);
    assert Longitudes(markers + [marker])[..|markers|] == Longitudes(markers);
  }

  /** Markers follow the order of the requests: meeting order, then address
      order. */
  lemma {:induction false} MarkersAppend(lookups: seq<Lookup>, more: seq<Lookup>, geocode: string -> GeocodeResult)
    ensures Markers(lookups + more, geocode) == Markers(lookups, geocode) + Markers(more, geocode)
  {
    if more == [] {
      assert lookups + more == lookups;
    } else {
      var m := more[..|more| - 1];
      assert (lookups + more)[..|lookups + more| - 1] == lookups + m;
      MarkersAppend(lookups, m, geocode);
    }
  }

  /** A miss or a timeout produces no marker and the loop goes on with the
      next address. */
  lemma MissSkipped(before: seq<Lookup>, miss: Lookup, after: seq<Lookup>, geocode: string -> GeocodeResult)
    requires !geocode(miss.address).Located?
    ensures Markers(before + [miss] + after, geocode) == Markers(before + after, geocode)
  {
    assert Markers([miss], geocode) == [] by {
      assert [miss][..0] == [];
    }
    MarkersAppend(before + [miss], after, geocode);
    MarkersAppend(before, [miss], geocode);
    MarkersAppend(before, after, geocode);
  }

  /** There are as many markers as located requests. */
  lemma {:induction false} MarkerCount(lookups: seq<Lookup>, geocode: string -> GeocodeResult)
    ensures |Markers(lookups, geocode)| == Hits(lookups, geocode)
  {
    if lookups != [] {
      MarkerCount(lookups[..|lookups| - 1], geocode);
    }
  }

  /** Every marker sits where the geocoder put one of the requests, and its
      popup names that request's agenda and completed address. */
  lemma {:induction false} MarkersAreLocated(lookups: seq<Lookup>, geocode: string -> GeocodeResult)
    ensures forall k :: 0 <= k < |Markers(lookups, geocode)| ==>
              exists l :: l in lookups
                && geocode(l.address) == Located(Markers(lookups, geocode)[k].latitude, Markers(lookups, geocode)[k].longitude)
                && Markers(lookups, geocode)[k].popup == Popup(l)
  {
    if lookups != [] {
      var earlier := lookups[..|lookups| - 1];
      MarkersAreLocated(earlier, geocode);
      var last := lookups[|lookups| - 1];
      var pins := Markers(lookups, geocode);
      var n := |Markers(earlier, geocode)|;
      forall k | 0 <= k < |Markers(lookups, geocode)|
        ensures exists l :: l in lookups
                  && geocode(l.address) == Located(Markers(lookups, geocode)[k].latitude, Markers(lookups, geocode)[k].longitude)
                  && Markers(lookups, geocode)[k].popup == Popup(l)
      {
        if k < n {
          assert pins[k] == Markers(earlier, geocode)[k];
          var l :| l in earlier && geocode(l.address) == Located(pins[k].latitude, pins[k].longitude) && pins[k].popup == Popup(l);
          assert l in lookups;
        } else {
          assert pins[k] == Marker(geocode(last.address).latitude, geocode(last.address).longitude, Popup(last));
          assert last in lookups;
        }
      }
    } else {
      assert Markers(lookups, geocode) == [];
    }
  }

  /** Every completed address contains a comma. */
  lemma {:induction false} LookupsHaveLocality(meetings: seq<AgendaMeetings.Meeting>)
    ensures forall k :: 0 <= k < |Lookups(meetings)| ==> ',' in Lookups(meetings)[k].address
  {
    if meetings != [] {
      LookupsHaveLocality(meetings[..|meetings| - 1]);
    }
  }

  /** When no address is located, no marker is placed and the map keeps the
      default centre. */
  lemma NoHitDefaultCentre(lookups: seq<Lookup>, geocode: string -> GeocodeResult)
    requires Hits(lookups, geocode) == 0
    ensures Markers(lookups, geocode) == []
    ensures Centre(Markers(lookups, geocode)) == DefaultCentre
  {
    MarkerCount(lookups, geocode);
  }

  /** The mean lies between any lower and upper bound of the values. */
  lemma MeanWithinBounds(xs: seq<real>, lo: real, hi: real)
    requires |xs| > 0
    requires forall k :: 0 <= k < |xs| ==> lo <= xs[k] <= hi
    ensures lo <= Mean(xs) <= hi
  {
    SumWithinBounds(xs, lo, hi);
    var n := |xs| as real;
    assert n * lo <= Sum(xs) <= n * hi;
    assert Sum(xs) / n >= lo by {
      assert Sum(xs) / n * n == Sum(xs);
    }
    assert Sum(xs) / n <= hi by {
      assert Sum(xs) / n * n == Sum(xs);
    }
  }

  lemma {:induction false} SumWithinBounds(xs: seq<real>, lo: real, hi: real)
    requires forall k :: 0 <= k < |xs| ==> lo <= xs[k] <= hi
    ensures (|xs| as real) * lo <= Sum(xs) <= (|xs| as real) * hi
  {
    if xs != [] {
      SumWithinBounds(xs[..|xs| - 1], lo, hi);
    }
  }

  /** With at least one marker, the centre lies inside the box spanned by the
      markers: it never falls back to the default in that case. */
  lemma CentreWithinMarkers(markers: seq<Marker>, south: real, north: real, west: real, east: real)
    requires |markers| > 0
    requires forall k :: 0 <= k < |markers| ==> south <= markers[k].latitude <= north && west <= markers[k].longitude <= east
    ensures south <= Centre(markers).latitude <= north
    ensures west <= Centre(markers).longitude <= east
  {
    MeanWithinBounds(Latitudes(markers), south, north);
    MeanWithinBounds(Longitudes(markers), west, east);
  }
}
