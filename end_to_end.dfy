/**
 * The browser and the service together: what the date picker writes, after
 * `searchFlights` normalises it (main.js:166-197), is what `/api/flights`
 * reads back (apis/flight_api.py:213-220); and an offer the service
 * summarises is drawn by `renderFlights` with its own codes, airlines and
 * return leg.
 */
module EndToEnd {
  import opened Wrappers
  import opened Text
  import opened IsoScan
  import Picker
  import N = Normalizer
  import Api = FlightApi
  import View = FlightView

  /** The body `searchFlights` posts, as the service reads it (it ignores `transport` and `message`). */
  function RequestOf(p: N.Payload): Api.FlightRequest {
    Api.FlightRequest(Some(p.origin), Some(p.destination), Some(p.dates), Some(p.budget))
  }

  /** A form holding the dates field as the picker leaves it. */
  function FormWithDates(destination: string, dates: string, budget: string): N.Form {
    N.Form(destination, dates, budget, "", "")
  }

  /** A picked range has no whitespace at either end, so the form's trim keeps it. */
  lemma RangeTrimmed(a: string, b: string)
    requires a != [] && b != [] && Trim(Js, a) == a && Trim(Js, b) == b
    ensures Trim(Js, a + " - " + b) == a + " - " + b
  {
    TrimIdempotent(Js, a);
    TrimIdempotent(Js, b);
    var s := a + " - " + b;
    assert s[0] == a[0] && s[|s| - 1] == b[|b| - 1];
    TrimUnchanged(Js, s);
  }

  /** The service finds both dates in `start to end`, in that order. */
  lemma ParseRewrittenRange(w1: string, w2: string)
    requires IsIsoShape(w1) && IsIsoShape(w2)
    ensures Api.ParseDates(Some(w1 + " to " + w2)) == Api.TravelDates(Some(w1), Some(w2))
  {
    N.AppendAssoc(w1, " to ", w2);
    FindAllFront(w1, " to " + w2);
    FindAllSkip(" to ", w2);
    FindAllFront(w2, "");
    assert w2 + "" == w2;
  }

  /**
   * A range picked in the calendar reaches the service as its two dates:
   * the departure is the first pick and the return the second, each as
   * `YYYY-MM-DD`.
   */
  lemma PickedRangeReachesService(m1: nat, d1: nat, y1: nat, m2: nat, d2: nat, y2: nat,
                                  destination: string, budget: string)
    requires m1 <= 11 && d1 < 100 && 1000 <= y1 <= 9999
    requires m2 <= 11 && d2 < 100 && 1000 <= y2 <= 9999
    ensures var range := Picker.PickText(m1, NatToString(d1), y1) + " - " + Picker.PickText(m2, NatToString(d2), y2);
      var p := N.SearchPayload(FormWithDates(destination, range, budget));
      Api.ParseDates(RequestOf(p).dates) == Api.TravelDates(Some(IsoText(y1, m1 + 1, d1)), Some(IsoText(y2, m2 + 1, d2)))
  {
    var a := Picker.PickText(m1, NatToString(d1), y1);
    var b := Picker.PickText(m2, NatToString(d2), y2);
    N.PickTextShape(m1, d1, y1);
    N.PickTextShape(m2, d2, y2);
    RangeTrimmed(a, b);
    N.NormalizePickedRange(m1, d1, y1, m2, d2, y2);
    ParseRewrittenRange(IsoText(y1, m1 + 1, d1), IsoText(y2, m2 + 1, d2));
  }

  /**
   * A field holding only the start date passes the frontend unchanged and
   * is refused by the service, whatever it would resolve or parse.
   */
  lemma StartOnlyRefused(month: nat, day: nat, year: nat, destination: string, budget: string,
                         resolve: string -> Option<string>, toNumber: string -> Api.NumberRead)
    requires month <= 11
    ensures var t := Picker.PickText(month, NatToString(day), year);
      var p := N.SearchPayload(FormWithDates(destination, t, budget));
      p.dates == t && Api.Flights(RequestOf(p), resolve, toNumber) == Api.BadRequest(Api.DatesError)
  {
    var t := Picker.PickText(month, NatToString(day), year);
    N.PickTextShape(month, day, year);
    N.NormalizeStartOnly(month, day, year);
    NoIsoWithoutDigitDash(t);
    var p := N.SearchPayload(FormWithDates(destination, t, budget));
    Api.DatesCheckedFirst(RequestOf(p), resolve, toNumber, resolve, toNumber);
  }

  /** What the service does with the budget it is sent: no cap when it is empty, else the number it reads. */
  lemma BudgetBecomesCap(p: N.Payload, resolve: string -> Option<string>, toNumber: string -> Api.NumberRead)
    ensures var out := Api.Flights(RequestOf(p), resolve, toNumber);
      out.Search? ==> out.params.maxPrice == (if p.budget == "" then None else Api.Cap(toNumber(p.budget)))
  {
    if Api.Flights(RequestOf(p), resolve, toNumber).Search? {
      Api.SearchParamsShape(RequestOf(p), resolve, toNumber);
    }
  }

  /** An open-ended budget bracket (`lo+`) reaches the service empty, so the search has no price cap. */
  lemma OpenBudgetNoCap(lo: nat, destination: string, dates: string,
                        resolve: string -> Option<string>, toNumber: string -> Api.NumberRead)
    ensures var p := N.SearchPayload(FormWithDates(destination, dates, NatToString(lo) + "+"));
      var out := Api.Flights(RequestOf(p), resolve, toNumber);
      p.budget == "" && (out.Search? ==> out.params.maxPrice.None?)
  {
    var s := NatToString(lo) + "+";
    TrimUnchanged(Js, s) by {
      assert s[0] == NatToString(lo)[0];
      assert s[|s| - 1] == '+';
    }
    N.BudgetOpen(lo);
    BudgetBecomesCap(N.SearchPayload(FormWithDates(destination, dates, s)), resolve, toNumber);
  }

  /** A bracket `lo-hi` has no whitespace at either end. */
  lemma BracketTrimmed(lo: nat, hi: nat)
    ensures var s := NatToString(lo) + "-" + NatToString(hi); Trim(Js, s) == s
  {
    var s := NatToString(lo) + "-" + NatToString(hi);
    assert s[0] == NatToString(lo)[0];
    assert s[|s| - 1] == NatToString(hi)[|NatToString(hi)| - 1];
    TrimUnchanged(Js, s);
  }

  /** A bracket `lo-hi` caps the price at what the service reads from `hi`. */
  lemma BracketBudgetCap(lo: nat, hi: nat, destination: string, dates: string,
                         resolve: string -> Option<string>, toNumber: string -> Api.NumberRead)
    ensures var p := N.SearchPayload(FormWithDates(destination, dates, NatToString(lo) + "-" + NatToString(hi)));
      var out := Api.Flights(RequestOf(p), resolve, toNumber);
      p.budget == NatToString(hi) && (out.Search? ==> out.params.maxPrice == Api.Cap(toNumber(NatToString(hi))))
  {
    var s := NatToString(lo) + "-" + NatToString(hi);
    BracketTrimmed(lo, hi);
    N.BudgetBracket(lo, hi);
    BudgetBecomesCap(N.SearchPayload(FormWithDates(destination, dates, s)), resolve, toNumber);
  }

  // ---------------------------------------------------------------------------
  // From a summarised offer to its card
  // ---------------------------------------------------------------------------

  /** A leg summary as JSON: Python `None` arrives as `null`, lists are always present. */
  function LegJson(leg: Option<Api.LegSummary>): Option<View.LegView> {
    match leg
    case None => None
    case Some(l) => Some(View.LegView(l.from, l.to, l.departAt, l.arriveAt, Some(l.stops), l.duration, Some(l.airlines)))
  }

  /** An offer summary as JSON. */
  function OfferJson(o: Api.OfferSummary): View.OfferView {
    View.OfferView(Some(View.PriceView(o.price.total, o.price.currency)), Some(o.flightCodes),
                   LegJson(o.outbound), LegJson(o.inbound))
  }

  /**
   * The card of a summarised offer shows the offer's flight codes joined by
   * ` • ` and has a return line exactly when the offer has a second
   * non-empty itinerary.
   */
  lemma CardOfSummary(offer: Api.Offer, carriers: map<string, string>)
    ensures var card := View.CardOf(OfferJson(Api.SummarizeOffer(offer, carriers)));
      card.codes == Join(Api.FlightCodes(offer.itineraries), View.Bullet)
      && (card.ret.Some? <==> |offer.itineraries| >= 2 && offer.itineraries[1].Some?)
  {
    Api.SummaryHasReturn(offer, carriers);
  }

  /** An outbound leg with one segment is drawn as nonstop, and its airline line names its carrier. */
  lemma OneSegmentCard(seg: Api.Segment, rest: seq<Option<Api.Itinerary>>, id: Option<string>,
                       price: Option<Api.Price>, duration: Option<string>, carriers: map<string, string>)
    requires Api.Truthy(seg.carrierCode)
    ensures var offer := Api.Offer(id, price, [Some(Api.Itinerary([seg], duration))] + rest);
      var card := View.CardOf(OfferJson(Api.SummarizeOffer(offer, carriers)));
      var cc := seg.carrierCode.value;
      card.outbound.meta == "Nonstop" + View.Bullet + duration.GetOr("")
      && card.airline == (if cc in carriers then carriers[cc] else cc)
  {
    OneSegmentLeg(seg, duration, carriers);
    var cc := seg.carrierCode.value;
    var name := if cc in carriers then carriers[cc] else cc;
    assert Join([name], ", ") == name;
  }

  /** The summary of a one-segment itinerary: no stops, and the one carrier's name. */
  lemma OneSegmentLeg(seg: Api.Segment, duration: Option<string>, carriers: map<string, string>)
    requires Api.Truthy(seg.carrierCode)
    ensures var leg := Api.ItinerarySummary(Some(Api.Itinerary([seg], duration)), carriers).value;
      var cc := seg.carrierCode.value;
      leg.stops == 0 && leg.duration == duration && leg.airlines == [if cc in carriers then carriers[cc] else cc]
  {
    var segs := [seg];
    assert segs[..0] == [];
    assert Api.UniqueCarriers(segs) == [seg.carrierCode.value];
  }
}
