/**
 * The flight search service (apis/flight_api.py): reading the dates out of
 * the request, summarising the offers the flight search returns, the
 * airport table and the IATA resolver, and the validation of a request
 * before the search parameters are assembled.
 *
 * JSON objects are records here: a list under a missing key is the empty
 * list (what `.get(key, [])` gives), a scalar is an `Option` with `None` for
 * a missing key or `null`.
 */
module FlightApi {
  import opened Wrappers
  import opened Text
  import opened IsoScan

  // ---------------------------------------------------------------------------
  // parse_dates (flight_api.py:45-51)
  // ---------------------------------------------------------------------------

  datatype TravelDates = TravelDates(depart: Option<string>, ret: Option<string>)

  /** The first two ISO dates found in the text (`dates_str or ""`: a missing text reads as empty). */
  function ParseDates(dates: Option<string>): (r: TravelDates)
    ensures r.depart.Some? ==> IsIsoShape(r.depart.value)
    ensures r.ret.Some? ==> r.depart.Some? && IsIsoShape(r.ret.value)
  {
    var found := FindAll(dates.GetOr(""));
    if |found| == 1 then TravelDates(Some(found[0]), None)
    else if |found| >= 2 then TravelDates(Some(found[0]), Some(found[1]))
    else TravelDates(None, None)
  }

  /** A departure date is found exactly when the text holds a `\d{4}-\d{2}-\d{2}` run. */
  lemma ParseDatesFinds(dates: string)
    ensures ParseDates(Some(dates)).depart.Some? <==> ContainsIso(dates)
  {
    FindAllEmptyIff(dates);
  }

  /** A text that starts with an ISO date departs on that date. */
  lemma ParseDatesLeading(w: string, rest: string)
    requires IsIsoShape(w)
    ensures ParseDates(Some(w + rest)).depart == Some(w)
    ensures ParseDates(Some(w + rest)).ret == if FindAll(rest) == [] then None else Some(FindAll(rest)[0])
  {
    FindAllFront(w, rest);
  }

  // ---------------------------------------------------------------------------
  // The offer structure
  // ---------------------------------------------------------------------------

  /** A `departure` or `arrival` object; a missing one reads as `{}`. */
  datatype Endpoint = Endpoint(iataCode: Option<string>, at: Option<string>)

  datatype Segment = Segment(carrierCode: Option<string>, number: Option<string>, departure: Endpoint, arrival: Endpoint)

  datatype Itinerary = Itinerary(segments: seq<Segment>, duration: Option<string>)

  datatype Price = Price(total: Option<string>, currency: Option<string>)

  /**
   * An offer; an itinerary that is `null` or an empty object (falsy in
   * Python) is `None`.
   */
  datatype Offer = Offer(id: Option<string>, price: Option<Price>, itineraries: seq<Option<Itinerary>>)

  /** A Python string is truthy when present and not empty. */
  predicate Truthy(s: Option<string>) {
    s.Some? && s.value != ""
  }

  // ---------------------------------------------------------------------------
  // count_stops (flight_api.py:143-145)
  // ---------------------------------------------------------------------------

  /** Connections on an itinerary: one fewer than its segments, never below zero. */
  function CountStops(segments: seq<Segment>): (n: nat)
    ensures n == 0 <==> |segments| <= 1
    ensures |segments| >= 1 ==> n == |segments| - 1
  {
    if |segments| <= 1 then 0 else |segments| - 1
  }

  // ---------------------------------------------------------------------------
  // extract_flight_codes (flight_api.py:132-140)
  // ---------------------------------------------------------------------------

  /** The code a segment contributes: `carrier number`, or nothing when either part is missing or empty. */
  function SegmentCode(seg: Segment): seq<string> {
    if Truthy(seg.carrierCode) && Truthy(seg.number) then [CodeText(seg)] else []
  }

  /** `f"{carrier} {number}"`. */
  function CodeText(seg: Segment): string {
    seg.carrierCode.GetOr("") + " " + seg.number.GetOr("")
  }

  /** The codes of a run of segments, in order. */
  function SegmentCodes(segs: seq<Segment>): seq<string>
    decreases |segs|
  {
    if segs == [] then [] else SegmentCodes(segs[..|segs| - 1]) + SegmentCode(segs[|segs| - 1])
  }

  /** The segments of an itinerary entry; a falsy entry has none. */
  function SegmentsOf(it: Option<Itinerary>): seq<Segment> {
    if it.Some? then it.value.segments else []
  }

  /** The codes of every itinerary, itinerary by itinerary. */
  function FlightCodes(its: seq<Option<Itinerary>>): seq<string>
    decreases |its|
  {
    if its == [] then [] else FlightCodes(its[..|its| - 1]) + SegmentCodes(SegmentsOf(its[|its| - 1]))
  }

  /** The nested loops of `extract_flight_codes`. */
  method ExtractFlightCodes(offer: Offer) returns (codes: seq<string>)
    ensures codes == FlightCodes(offer.itineraries)
  {
    var its := offer.itineraries;
    codes := [];
    for i := 0 to |its|
      invariant codes == FlightCodes(its[..i])
    {
      var segs := SegmentsOf(its[i]);
      ghost var before := codes;
      for j := 0 to |segs|
        invariant codes == before + SegmentCodes(segs[..j])
      {
        var seg := segs[j];
        assert segs[..j + 1][..j] == segs[..j];
        if Truthy(seg.carrierCode) && Truthy(seg.number) {
          codes := codes + [seg.carrierCode.value + " " + seg.number.value];
          assert SegmentCode(seg) == [seg.carrierCode.value + " " + seg.number.value];
        }
      }
      assert segs[..|segs|] == segs;
      assert its[..i + 1][..i] == its[..i];
    }
    assert its[..|its|] == its;
  }

  /** A segment lacking a carrier or a number adds no code. */
  lemma {:induction false} CodesAtMostSegments(segs: seq<Segment>)
    ensures |SegmentCodes(segs)| <= |segs|
    ensures |SegmentCodes(segs)| == |segs| <==> forall k :: 0 <= k < |segs| ==> SegmentCode(segs[k]) != []
    decreases |segs|
  {
    if segs != [] {
      var init := segs[..|segs| - 1];
      CodesAtMostSegments(init);
      assert forall k :: 0 <= k < |init| ==> init[k] == segs[k];
    }
  }

  /** When every segment is complete there is one code per segment, `carrier number`, in order. */
  lemma {:induction false} CodesOfCompleteSegments(segs: seq<Segment>)
    requires forall k :: 0 <= k < |segs| ==> Truthy(segs[k].carrierCode) && Truthy(segs[k].number)
    ensures |SegmentCodes(segs)| == |segs|
    ensures forall k :: 0 <= k < |segs| ==>
      SegmentCodes(segs)[k] == CodeText(segs[k])
    decreases |segs|
  {
    if segs != [] {
      var init := segs[..|segs| - 1];
      assert forall k :: 0 <= k < |init| ==> init[k] == segs[k];
      CodesOfCompleteSegments(init);
    }
  }

  /** The codes of two itineraries: all of the first one's, then all of the second one's. */
  lemma FlightCodesTwo(a: Option<Itinerary>, b: Option<Itinerary>)
    ensures FlightCodes([a, b]) == SegmentCodes(SegmentsOf(a)) + SegmentCodes(SegmentsOf(b))
  {
    assert [a, b][..1] == [a];
    assert [a][..0] == [];
    assert FlightCodes([a]) == SegmentCodes(SegmentsOf(a));
    assert FlightCodes([a, b]) == FlightCodes([a]) + SegmentCodes(SegmentsOf(b));
  }

  // ---------------------------------------------------------------------------
  // summarize_itinerary (flight_api.py:148-174)
  // ---------------------------------------------------------------------------

  /** The carriers of the segments, each once, in order of first appearance; empty codes are skipped. */
  function UniqueCarriers(segs: seq<Segment>): seq<string>
    decreases |segs|
  {
    if segs == [] then []
    else
      var seen := UniqueCarriers(segs[..|segs| - 1]);
      var cc := segs[|segs| - 1].carrierCode;
      if Truthy(cc) && cc.value !in seen then seen + [cc.value] else seen
  }

  /** Some segment is flown by `x`. */
  predicate Flies(segs: seq<Segment>, x: string) {
    exists k :: 0 <= k < |segs| && segs[k].carrierCode == Some(x)
  }

  /** A carrier is listed exactly when some segment names it (and it is not empty). */
  lemma {:induction false} UniqueCarriersMembers(segs: seq<Segment>, x: string)
    ensures x in UniqueCarriers(segs) <==> x != "" && Flies(segs, x)
    decreases |segs|
  {
    if segs != [] {
      var init := segs[..|segs| - 1];
      UniqueCarriersMembers(init, x);
      assert forall k :: 0 <= k < |init| ==> init[k] == segs[k];
      if Flies(segs, x) && !Flies(init, x) {
        var k :| 0 <= k < |segs| && segs[k].carrierCode == Some(x);
        assert k == |segs| - 1;
      }
    }
  }

  /** No carrier is listed twice. */
  lemma {:induction false} UniqueCarriersDistinct(segs: seq<Segment>)
    ensures Distinct(UniqueCarriers(segs))
    decreases |segs|
  {
    if segs != [] {
      var seen := UniqueCarriers(segs[..|segs| - 1]);
      UniqueCarriersDistinct(segs[..|segs| - 1]);
      var u := UniqueCarriers(segs);
      var cc := segs[|segs| - 1].carrierCode;
      if Truthy(cc) && cc.value !in seen {
        assert u == seen + [cc.value];
        forall i, j | 0 <= i < j < |u|
          ensures u[i] != u[j]
        {
          assert u[i] == seen[i] && u[i] in seen;
        }
      }
    }
  }

  /**
   * First-appearance order: whenever carrier `u[j]` flies a segment, the
   * carrier listed before it, `u[i]`, already flew an earlier one.
   */
  lemma {:induction false} UniqueCarriersOrder(segs: seq<Segment>)
    ensures var u := UniqueCarriers(segs);
      forall i, j, m :: 0 <= i < j < |u| && 0 <= m < |segs| && segs[m].carrierCode == Some(u[j])
        ==> exists k :: 0 <= k < m && segs[k].carrierCode == Some(u[i])
    decreases |segs|
  {
    if segs != [] {
      var init := segs[..|segs| - 1];
      var last := |segs| - 1;
      UniqueCarriersOrder(init);
      var seen, u := UniqueCarriers(init), UniqueCarriers(segs);
      assert forall k :: 0 <= k < |init| ==> init[k] == segs[k];
      forall i, j, m | 0 <= i < j < |u| && 0 <= m < |segs| && segs[m].carrierCode == Some(u[j])
        ensures exists k :: 0 <= k < m && segs[k].carrierCode == Some(u[i])
      {
        assert u[i] == seen[i];
        UniqueCarriersMembers(init, u[i]);
        var k :| 0 <= k < |init| && init[k].carrierCode == Some(u[i]);
        if m < last {
          if j < |seen| {
            assert init[m].carrierCode == Some(seen[j]);
          } else {
            UniqueCarriersMembers(init, u[j]);
            assert Flies(init, u[j]);
            assert false;
          }
        } else {
          assert k < m && segs[k].carrierCode == Some(u[i]);
        }
      }
    }
  }

  /** The printable name of each carrier: the `carriers` dictionary entry, or the code itself. */
  function AirlineNames(codes: seq<string>, carriers: map<string, string>): (names: seq<string>)
    // These unfold the comprehension for callers; what the names are is stated by AirlineNamesFallback.
    ensures |names| == |codes|
    ensures forall k :: 0 <= k < |codes| ==> names[k] == (if codes[k] in carriers then carriers[codes[k]] else codes[k])
  {
    seq(|codes|, k requires 0 <= k < |codes| => if codes[k] in carriers then carriers[codes[k]] else codes[k])
  }

  /**
   * Without a `carriers` dictionary the names are the codes; with one, a
   * name differs from its code only where the dictionary knows that code,
   * and a code the dictionary lacks is shown as itself.
   */
  lemma AirlineNamesFallback(codes: seq<string>, carriers: map<string, string>)
    ensures AirlineNames(codes, map[]) == codes
    ensures var names := AirlineNames(codes, carriers);
      && (forall k :: 0 <= k < |codes| && names[k] != codes[k] ==> codes[k] in carriers)
      && (forall c :: c in codes && c !in carriers ==> c in names)
  {
    var names := AirlineNames(codes, carriers);
    forall c | c in codes && c !in carriers
      ensures c in names
    {
      var k :| 0 <= k < |codes| && codes[k] == c;
      assert names[k] == c;
    }
  }

  /** An itinerary as the browser receives it. */
  datatype LegSummary = LegSummary(
    from: Option<string>, to: Option<string>,
    departAt: Option<string>, arriveAt: Option<string>,
    stops: nat, duration: Option<string>,
    airlines: seq<string>, carrierCodes: seq<string>)

  /** The summary of an itinerary entry, `None` for a falsy one (`carriers` is empty when `dictionaries` is). */
  function ItinerarySummary(it: Option<Itinerary>, carriers: map<string, string>): Option<LegSummary> {
    match it
    case None => None
    case Some(itin) =>
      var segs := itin.segments;
      var codes := UniqueCarriers(segs);
      Some(LegSummary(
        if segs != [] then segs[0].departure.iataCode else None,
        if segs != [] then segs[|segs| - 1].arrival.iataCode else None,
        if segs != [] then segs[0].departure.at else None,
        if segs != [] then segs[|segs| - 1].arrival.at else None,
        CountStops(segs), itin.duration, AirlineNames(codes, carriers), codes))
  }

  /** `summarize_itinerary`, with its de-duplicating loop over the segments. */
  method SummarizeItinerary(it: Option<Itinerary>, carriers: map<string, string>) returns (r: Option<LegSummary>)
    ensures r == ItinerarySummary(it, carriers)
  {
    if it.None? {
      return None;
    }
    var segs := it.value.segments;
    var codes: seq<string> := [];
    for i := 0 to |segs|
      invariant codes == UniqueCarriers(segs[..i])
    {
      assert segs[..i + 1][..i] == segs[..i];
      var cc := segs[i].carrierCode;
      if Truthy(cc) && cc.value !in codes {
        codes := codes + [cc.value];
      }
    }
    assert segs[..|segs|] == segs;
    var first := if segs != [] then Some(segs[0]) else None;
    var last := if segs != [] then Some(segs[|segs| - 1]) else None;
    r := Some(LegSummary(
      if first.Some? then first.value.departure.iataCode else None,
      if last.Some? then last.value.arrival.iataCode else None,
      if first.Some? then first.value.departure.at else None,
      if last.Some? then last.value.arrival.at else None,
      CountStops(segs), it.value.duration, AirlineNames(codes, carriers), codes));
  }

  /** The leg runs from the first segment's departure to the last segment's arrival; with no segments all four are unknown. */
  lemma SummaryEndpoints(itin: Itinerary, carriers: map<string, string>)
    ensures var s := ItinerarySummary(Some(itin), carriers).value;
      (itin.segments == [] ==> s.from.None? && s.to.None? && s.departAt.None? && s.arriveAt.None?)
      && (itin.segments != [] ==>
            s.from == itin.segments[0].departure.iataCode && s.departAt == itin.segments[0].departure.at
            && s.to == Last(itin.segments).arrival.iataCode && s.arriveAt == Last(itin.segments).arrival.at)
  {
  }

  function Last<T>(s: seq<T>): T
    requires s != []
  {
    s[|s| - 1]
  }

  /** The carrier list of a summary: distinct, complete, in order of first appearance, and named one for one. */
  lemma SummaryCarriers(itin: Itinerary, carriers: map<string, string>, x: string)
    ensures var s := ItinerarySummary(Some(itin), carriers).value;
      (x in s.carrierCodes <==> x != "" && Flies(itin.segments, x))
      && Distinct(s.carrierCodes)
      && |s.airlines| == |s.carrierCodes|
  {
    UniqueCarriersMembers(itin.segments, x);
    UniqueCarriersDistinct(itin.segments);
  }

  // ---------------------------------------------------------------------------
  // summarize_offer (flight_api.py:177-191)
  // ---------------------------------------------------------------------------

  datatype OfferSummary = OfferSummary(
    id: Option<string>, price: Price, flightCodes: seq<string>,
    outbound: Option<LegSummary>, inbound: Option<LegSummary>)

  /** An offer as the browser receives it: price copied, codes listed, the first two itineraries summarised. */
  function SummarizeOffer(offer: Offer, carriers: map<string, string>): (r: OfferSummary)
    ensures r.id == offer.id
    ensures r.price == offer.price.GetOr(Price(None, None))
    ensures |offer.itineraries| == 0 ==> r.outbound.None?
    ensures |offer.itineraries| < 2 ==> r.inbound.None?
  {
    var its := offer.itineraries;
    OfferSummary(
      offer.id, offer.price.GetOr(Price(None, None)), FlightCodes(its),
      if |its| > 0 then ItinerarySummary(its[0], carriers) else None,
      if |its| > 1 then ItinerarySummary(its[1], carriers) else None)
  }

  /** The return leg is there exactly when a second, non-empty itinerary is. */
  lemma SummaryHasReturn(offer: Offer, carriers: map<string, string>)
    ensures SummarizeOffer(offer, carriers).inbound.Some? <==> |offer.itineraries| >= 2 && offer.itineraries[1].Some?
    ensures SummarizeOffer(offer, carriers).outbound.Some? <==> |offer.itineraries| >= 1 && offer.itineraries[0].Some?
  {
  }

  // ---------------------------------------------------------------------------
  // The airport table (flight_api.py:53-96)
  // ---------------------------------------------------------------------------

  datatype Airport = Airport(name: string, city: string, country: string, iata: string)

  /** The `\N` that the airport data writes for a missing value. */
  const NullField := "\\N"

  /**
   * What one CSV row adds to the table: rows with under five fields and rows
   * whose IATA field is empty, `\N` or not three characters long add nothing;
   * the length is judged before the field is stripped (flight_api.py:63-72).
   */
  function AirportOfRow(row: seq<string>): (a: Option<Airport>)
    ensures a.Some? ==> |row| >= 5 && row[4] != "" && row[4] != NullField && |row[4]| == 3
    ensures a.Some? ==> a.value.iata == Upper(Trim(Py, row[4])) && a.value.city == Trim(Py, row[2])
  {
    if |row| < 5 then None
    else
      var iata := row[4];
      if iata != "" && iata != NullField && |iata| == 3
      then Some(Airport(Trim(Py, row[1]), Trim(Py, row[2]), Trim(Py, row[3]), Upper(Trim(Py, iata))))
      else None
  }

  /** Every row that passes, in file order. */
  function AirportsOf(rows: seq<seq<string>>): seq<Airport>
    decreases |rows|
  {
    if rows == [] then []
    else
      var init := AirportsOf(rows[..|rows| - 1]);
      var a := AirportOfRow(rows[|rows| - 1]);
      if a.Some? then init + [a.value] else init
  }

  /** A row passes the filter exactly when it is long enough and its IATA field is a three-character value. */
  lemma AirportRowKept(row: seq<string>)
    ensures AirportOfRow(row).Some? <==> |row| >= 5 && row[4] != "" && row[4] != NullField && |row[4]| == 3
  {
  }

  /** The table never has more airports than the file has rows. */
  lemma {:induction false} AirportsAtMostRows(rows: seq<seq<string>>)
    ensures |AirportsOf(rows)| <= |rows|
    decreases |rows|
  {
    if rows != [] {
      AirportsAtMostRows(rows[..|rows| - 1]);
    }
  }

  /** Every stored code comes from a three-character field, so it is at most three characters long. */
  lemma {:induction false} AirportCodesShort(rows: seq<seq<string>>)
    ensures forall a :: a in AirportsOf(rows) ==> |a.iata| <= 3
    decreases |rows|
  {
    if rows != [] {
      AirportCodesShort(rows[..|rows| - 1]);
      var r := AirportOfRow(rows[|rows| - 1]);
      if r.Some? {
        TrimShorter(Py, rows[|rows| - 1][4]);
      }
    }
  }

  /** Trimming never lengthens a text. */
  lemma TrimShorter(rt: Runtime, s: string)
    ensures |Trim(rt, s)| <= |s|
  {
  }

  /** The first airport, in table order, whose lower-cased city is `q`. */
  function FirstInCity(airports: seq<Airport>, q: string): (r: Option<string>)
    ensures r.None? <==> forall k :: 0 <= k < |airports| ==> Lower(airports[k].city) != q
    ensures r.Some? ==>
      exists k :: (0 <= k < |airports| && Lower(airports[k].city) == q && airports[k].iata == r.value
                   && forall m :: 0 <= m < k ==> Lower(airports[m].city) != q)
    decreases |airports|
  {
    if airports == [] then None
    else if Lower(airports[0].city) == q then Some(airports[0].iata)
    else
      var r := FirstInCity(airports[1..], q);
      assert forall k :: 0 < k < |airports| ==> airports[k] == airports[1..][k - 1];
      r
  }

  /**
   * What `resolve_iata_local` answers over the loaded table: nothing for a
   * blank query, else the first exact city match, else the first airport in
   * the city that fuzzy matching picked (`close`: what `get_close_matches`
   * returns, a library this model does not include).
   */
  function LocalAnswer(airports: seq<Airport>, query: Option<string>, close: Option<string>): Option<string> {
    var q := Lower(Trim(Py, query.GetOr("")));
    if q == "" then None
    else
      var exact := FirstInCity(airports, q);
      if exact.Some? then exact
      else if close.Some? then FirstInCity(airports, Lower(close.value))
      else None
  }

  /** The table `load_airports` fills once, and `resolve_iata_local` reads. */
  class AirportIndex {
    var airports: seq<Airport>
    var loaded: bool

    constructor()
      ensures airports == [] && !loaded
    {
      airports := [];
      loaded := false;
    }

    /** `load_airports`: the first call reads every row (`rows`: the file's CSV rows); later calls do nothing. */
    method Load(rows: seq<seq<string>>)
      modifies this
      ensures loaded
      ensures airports == if old(loaded) then old(airports) else old(airports) + AirportsOf(rows)
    {
      if loaded {
        return;
      }
      ghost var start := airports;
      for i := 0 to |rows|
        invariant airports == start + AirportsOf(rows[..i])
      {
        assert rows[..i + 1][..i] == rows[..i];
        var row := rows[i];
        if |row| >= 5 {
          var iata := row[4];
          if iata != "" && iata != NullField && |iata| == 3 {
            airports := airports + [Airport(Trim(Py, row[1]), Trim(Py, row[2]), Trim(Py, row[3]), Upper(Trim(Py, iata)))];
          }
        }
      }
      assert rows[..|rows|] == rows;
      loaded := true;
    }

    /** `resolve_iata_local`: load, then the exact scan, then the fuzzy pick. */
    method ResolveLocal(rows: seq<seq<string>>, query: Option<string>, close: Option<string>) returns (r: Option<string>)
      modifies this
      ensures loaded && airports == if old(loaded) then old(airports) else old(airports) + AirportsOf(rows)
      ensures r == LocalAnswer(airports, query, close)
    {
      Load(rows);
      var q := Lower(Trim(Py, query.GetOr("")));
      if q == "" {
        return None;
      }
      r := FindCity(q);
      if r.None? && close.Some? {
        r := FindCity(Lower(close.value));
      }
    }

    /** The loop over the table that returns at the first airport whose lower-cased city is `q`. */
    method FindCity(q: string) returns (r: Option<string>)
      ensures r == FirstInCity(airports, q)
    {
      for i := 0 to |airports|
        invariant forall k :: 0 <= k < i ==> Lower(airports[k].city) != q
      {
        if Lower(airports[i].city) == q {
          FirstInCityAt(airports, q, i);
          return Some(airports[i].iata);
        }
      }
      return None;
    }
  }

  /** The scan's early return agrees with `FirstInCity`. */
  lemma FirstInCityAt(airports: seq<Airport>, q: string, i: int)
    requires 0 <= i < |airports| && Lower(airports[i].city) == q
    requires forall k :: 0 <= k < i ==> Lower(airports[k].city) != q
    ensures FirstInCity(airports, q) == Some(airports[i].iata)
  {
    var r := FirstInCity(airports, q);
    var k :| 0 <= k < |airports| && Lower(airports[k].city) == q && airports[k].iata == r.value
      && forall m :: 0 <= m < k ==> Lower(airports[m].city) != q;
    assert k == i;
  }

  // ---------------------------------------------------------------------------
  // resolve_iata (flight_api.py:99-129)
  // ---------------------------------------------------------------------------

  /** `^[A-Z]{3}$`. */
  predicate IsIataCode(q: string) {
    |q| == 3 && forall i :: 0 <= i < 3 ==> 'A' <= q[i] <= 'Z'
  }

  /** One entry of the location search: its `subType` and `iataCode`. */
  datatype Location = Location(subType: Option<string>, iataCode: Option<string>)

  /** The first location of the given kind that has a code. */
  function FirstOfKind(data: seq<Location>, kind: string): (r: Option<string>)
    ensures r.Some? ==> exists k :: 0 <= k < |data| && data[k].subType == Some(kind) && data[k].iataCode == r
    ensures r.None? ==> forall k :: 0 <= k < |data| ==> !(data[k].subType == Some(kind) && Truthy(data[k].iataCode))
    decreases |data|
  {
    if data == [] then None
    else if data[0].subType == Some(kind) && Truthy(data[0].iataCode) then data[0].iataCode
    else
      var r := FirstOfKind(data[1..], kind);
      assert forall k :: 0 < k < |data| ==> data[k] == data[1..][k - 1];
      r
  }

  /** The pick from the location search: a city first, an airport only when no city has a code (flight_api.py:114-120). */
  function RemotePick(data: seq<Location>): Option<string> {
    var city := FirstOfKind(data, "CITY");
    if city.Some? then city else FirstOfKind(data, "AIRPORT")
  }

  /**
   * `resolve_iata`: a blank query resolves to nothing; a query that, trimmed
   * and upper-cased, is three capital letters is its own code; otherwise the
   * location search (`search`: its entries, `None` when the call failed),
   * then the local table (`local`: what `resolve_iata_local` answers).
   */
  function ResolveIata(query: Option<string>, search: Option<seq<Location>>, local: Option<string>): (r: Option<string>)
    ensures !Truthy(query) ==> r.None?
  {
    if !Truthy(query) then None
    else
      var q := Upper(Trim(Py, query.value));
      if IsIataCode(q) then Some(q)
      else
        var remote := if search.Some? then RemotePick(search.value) else None;
        if remote.Some? then remote
        else if Truthy(local) then local
        else None
  }

  /** The fast path: a code-shaped query is answered without consulting the search or the table. */
  lemma ResolveFastPath(query: string, search: Option<seq<Location>>, local: Option<string>)
    requires IsIataCode(Upper(Trim(Py, query)))
    ensures ResolveIata(Some(query), search, local) == Some(Upper(Trim(Py, query)))
  {
  }

  /** Past the fast path, the search's pick is answered before the local table is consulted (flight_api.py:107-120). */
  lemma SearchBeforeTable(query: string, data: seq<Location>, local: Option<string>)
    requires query != "" && !IsIataCode(Upper(Trim(Py, query)))
    requires RemotePick(data).Some?
    ensures ResolveIata(Some(query), Some(data), local) == RemotePick(data)
  {
  }

  /** When the search failed or picked nothing, the local table answers, and a falsy answer is nothing (flight_api.py:122-128). */
  lemma TableWhenSearchFails(query: string, search: Option<seq<Location>>, local: Option<string>)
    requires query != "" && !IsIataCode(Upper(Trim(Py, query)))
    requires search.None? || RemotePick(search.value).None?
    ensures ResolveIata(Some(query), search, local) == (if Truthy(local) then local else None)
  {
  }

  /** A lower-case code with spaces around it resolves to the code. */
  lemma ResolveLowerCaseCode()
    ensures ResolveIata(Some(" bos "), None, None) == Some("BOS")
  {
    PaddedLowerCase();
    ResolveFastPath(" bos ", None, None);
  }

  lemma PaddedLowerCase()
    ensures Upper(Trim(Py, " bos ")) == "BOS"
    ensures IsIataCode("BOS")
  {
    TrimBos();
    UpperBos();
  }

  lemma TrimBos()
    ensures Trim(Py, " bos ") == "bos"
  {
    TrimUnchanged(Py, "bos");
    TrimSpaceAfter(Py, "bos");
    TrimStartSpace(Py, "bos ");
    assert " " + "bos " == " bos ";
  }

  lemma UpperBos()
    ensures Upper("bos") == "BOS"
  {
    var u := Upper("bos");
    assert u[0] == UpperChar('b') == 'B';
    assert u[1] == UpperChar('o') == 'O';
    assert u[2] == UpperChar('s') == 'S';
  }

  /** A city entry in the search results wins over any airport entry. */
  lemma RemotePrefersCity(data: seq<Location>, k: nat)
    requires k < |data| && data[k].subType == Some("CITY") && Truthy(data[k].iataCode)
    ensures RemotePick(data).Some?
    ensures exists j :: 0 <= j < |data| && data[j].subType == Some("CITY") && data[j].iataCode == RemotePick(data)
  {
  }

  // ---------------------------------------------------------------------------
  // POST /api/flights, up to the search call (flight_api.py:209-248)
  // ---------------------------------------------------------------------------

  /** The request body; `None` for a key the client left out. */
  datatype FlightRequest = FlightRequest(
    origin: Option<string>, destination: Option<string>, dates: Option<string>, budget: Option<string>)

  /** The flight search parameters. */
  datatype SearchParams = SearchParams(
    originLocationCode: string, destinationLocationCode: string, departureDate: string,
    adults: nat, currencyCode: string, max: nat,
    returnDate: Option<string>, maxPrice: Option<int>)

  /**
   * A 400 answer with its message; an exception the handler does not catch,
   * which the web framework answers with a 500; or the parameters the search
   * is called with.
   */
  datatype Outcome = BadRequest(error: string) | ServerError | Search(params: SearchParams)

  /**
   * What `int(float(budget))` does with a budget: a whole number; a
   * `ValueError` (not a number, or `nan`); or an `OverflowError` (an
   * infinity such as `inf` or `1e400`), which `except ValueError` lets through.
   */
  datatype NumberRead = Number(value: int) | NotNumeric | Overflow

  /** The price cap a read gives, when it gives one. */
  function Cap(read: NumberRead): Option<int> {
    if read.Number? then Some(read.value) else None
  }

  const DatesError := "Dates must be in YYYY-MM-DD format"
  const BudgetError := "Budget must be numeric"

  function DestinationError(destination: string): string {
    "Could not resolve destination '" + destination + "'"
  }

  /**
   * Validation and parameter assembly. `resolve` stands for `resolve_iata`
   * and `toNumber` for `int(float(budget))`.
   */
  function Flights(req: FlightRequest, resolve: string -> Option<string>, toNumber: string -> NumberRead): Outcome {
    var originInput := req.origin.GetOr("JFK");
    var destinationInput := req.destination.GetOr("");
    var budget := req.budget.GetOr("");
    var dates := ParseDates(Some(req.dates.GetOr("")));
    if !Truthy(dates.depart) then BadRequest(DatesError)
    else
      var origin := if Truthy(resolve(originInput)) then resolve(originInput).value else "JFK";
      var destination := resolve(destinationInput);
      if !Truthy(destination) then BadRequest(DestinationError(destinationInput))
      else if budget != "" && toNumber(budget).NotNumeric? then BadRequest(BudgetError)
      else if budget != "" && toNumber(budget).Overflow? then ServerError
      else
        var maxPrice := if budget != "" then Cap(toNumber(budget)) else None;
        var returnDate := if Truthy(dates.ret) then dates.ret else None;
        Search(SearchParams(origin, destination.value, dates.depart.value, 1, "USD", 5, returnDate, maxPrice))
  }

  /** A request without a date is refused before any place name is resolved or budget read. */
  lemma DatesCheckedFirst(req: FlightRequest, resolve: string -> Option<string>, toNumber: string -> NumberRead,
                          resolve': string -> Option<string>, toNumber': string -> NumberRead)
    requires !ContainsIso(req.dates.GetOr(""))
    ensures Flights(req, resolve, toNumber) == BadRequest(DatesError)
    ensures Flights(req, resolve, toNumber) == Flights(req, resolve', toNumber')
  {
    ParseDatesFinds(req.dates.GetOr(""));
  }

  /** An unresolvable destination is refused whatever the budget says. */
  lemma DestinationCheckedBeforeBudget(req: FlightRequest, resolve: string -> Option<string>,
                                       toNumber: string -> NumberRead, toNumber': string -> NumberRead)
    requires ContainsIso(req.dates.GetOr(""))
    requires !Truthy(resolve(req.destination.GetOr("")))
    ensures Flights(req, resolve, toNumber) == BadRequest(DestinationError(req.destination.GetOr("")))
    ensures Flights(req, resolve, toNumber) == Flights(req, resolve, toNumber')
  {
    ParseDatesFinds(req.dates.GetOr(""));
  }

  /**
   * Once a search is made: the fixed passenger count, currency and result
   * limit; the return date exactly when a second date was given; a price
   * cap exactly when a budget was; the origin falls back to `JFK`.
   */
  lemma SearchParamsShape(req: FlightRequest, resolve: string -> Option<string>, toNumber: string -> NumberRead)
    requires Flights(req, resolve, toNumber).Search?
    ensures var p := Flights(req, resolve, toNumber).params;
      var dates := ParseDates(Some(req.dates.GetOr("")));
      p.adults == 1 && p.currencyCode == "USD" && p.max == 5
      && Some(p.departureDate) == dates.depart
      && p.returnDate == dates.ret
      && (p.maxPrice.Some? <==> req.budget.GetOr("") != "")
      && (p.maxPrice.Some? ==> toNumber(req.budget.value) == Number(p.maxPrice.value))
      && (!Truthy(resolve(req.origin.GetOr("JFK"))) ==> p.originLocationCode == "JFK")
      && Some(p.destinationLocationCode) == resolve(req.destination.GetOr(""))
  {
    var dates := ParseDates(Some(req.dates.GetOr("")));
    if dates.ret.Some? {
      assert dates.ret.value != "" by {
        assert IsIsoShape(dates.ret.value);
      }
    }
  }

  /**
   * A budget that is present is read before the search: a non-number is
   * refused with the budget message, and an infinity escapes the handler.
   */
  lemma BudgetRead(req: FlightRequest, resolve: string -> Option<string>, toNumber: string -> NumberRead)
    requires ContainsIso(req.dates.GetOr(""))
    requires Truthy(resolve(req.destination.GetOr("")))
    requires req.budget.GetOr("") != ""
    ensures toNumber(req.budget.value).NotNumeric? ==> Flights(req, resolve, toNumber) == BadRequest(BudgetError)
    ensures toNumber(req.budget.value).Overflow? ==> Flights(req, resolve, toNumber) == ServerError
    ensures toNumber(req.budget.value).Number? <==> Flights(req, resolve, toNumber).Search?
  {
    ParseDatesFinds(req.dates.GetOr(""));
  }
}
