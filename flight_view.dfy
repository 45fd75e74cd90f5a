/**
 * How the browser presents flight results (`renderFlights`, main.js:852-944)
 * and chat messages (`displayMessage`, main.js:66-86): a pure mapping from
 * the JSON it receives to the cards it would draw, and the HTML escaping of
 * message text.
 */
module FlightView {
  import opened Wrappers
  import opened Text

  // ---------------------------------------------------------------------------
  // Stops
  // ---------------------------------------------------------------------------

  /** `stopsLabel` (main.js:784-788). */
  function StopsLabel(stops: int): (s: string)
    ensures s == "Nonstop" <==> stops == 0
    ensures s == "1 stop" <==> stops == 1
  {
    if stops == 0 then "Nonstop"
    else if stops == 1 then "1 stop"
    else
      var n := IntToString(stops);
      assert n[0] == '-' || IsDigit(n[0]) by {
        if stops >= 0 {
          assert n == NatToString(stops);
        }
      }
      assert (n + " stops")[0] == n[0];
      n + " stops"
  }

  /** Different stop counts never share a label. */
  lemma StopsLabelInjective(a: int, b: int)
    ensures StopsLabel(a) == StopsLabel(b) ==> a == b
  {
    if StopsLabel(a) == StopsLabel(b) && a != 0 && a != 1 && b != 0 && b != 1 {
      var x, y := IntToString(a), IntToString(b);
      assert x + " stops" == y + " stops";
      assert |x| == |y|;
      assert x == (x + " stops")[..|x|];
      assert y == (y + " stops")[..|y|];
      IntToStringInjective(a, b);
    }
  }

  // ---------------------------------------------------------------------------
  // The JSON the browser receives
  // ---------------------------------------------------------------------------

  /** One leg of an offer as JSON: every field may be absent or `null`. */
  datatype LegView = LegView(
    from: Option<string>, to: Option<string>,
    departAt: Option<string>, arriveAt: Option<string>,
    stops: Option<int>, duration: Option<string>,
    airlines: Option<seq<string>>)

  datatype PriceView = PriceView(total: Option<string>, currency: Option<string>)

  datatype OfferView = OfferView(
    price: Option<PriceView>, flightCodes: Option<seq<string>>,
    outbound: Option<LegView>, inbound: Option<LegView>)

  /** The response body: an `error` message, or a list of `offers`. */
  datatype FlightData = FlightData(error: Option<string>, offers: Option<seq<OfferView>>)

  // ---------------------------------------------------------------------------
  // What is drawn
  // ---------------------------------------------------------------------------

  /** A leg line: route, the two timestamps (formatted for display) and `stops • duration`. */
  datatype LegLine = LegLine(route: string, departAt: Option<string>, arriveAt: Option<string>, meta: string)

  datatype Card = Card(price: string, airline: string, codes: string, outbound: LegLine, ret: Option<LegLine>)

  /** The three outcomes of `renderFlights`: the error box, the empty notice, or one card per offer. */
  datatype Rendered = ErrorBox(message: string) | NoFlights | Cards(cards: seq<Card>)

  const Arrow := " → "
  const Bullet := " • "

  /** A leg's line; an absent leg still draws its defaults (main.js:917-919, 928-930). */
  function LegLineOf(leg: Option<LegView>): LegLine {
    match leg
    case None => LegLine(Arrow, None, None, StopsLabel(0) + Bullet)
    case Some(l) =>
      LegLine(l.from.GetOr("") + Arrow + l.to.GetOr(""), l.departAt, l.arriveAt,
              StopsLabel(l.stops.GetOr(0)) + Bullet + l.duration.GetOr(""))
  }

  /** `${currency} ${price}` with `?` and `USD` standing in for what is missing (main.js:888-889). */
  function PriceText(price: Option<PriceView>): string {
    var total := if price.Some? then price.value.total.GetOr("?") else "?";
    var currency := if price.Some? then price.value.currency.GetOr("USD") else "USD";
    currency + " " + total
  }

  /** The airline line: the outbound airlines joined by `, `, or a notice when there are none (main.js:894). */
  function AirlineText(outbound: Option<LegView>): string {
    if outbound.Some? && outbound.value.airlines.Some? && |outbound.value.airlines.value| > 0
    then Join(outbound.value.airlines.value, ", ")
    else "Airline unavailable"
  }

  /** The card drawn for one offer (main.js:881-939); the return leg only when `inbound` is present. */
  function CardOf(o: OfferView): (c: Card)
    ensures c.ret.Some? <==> o.inbound.Some?
    // Unfolds the codes line for callers; CardOfSummary states what it shows for a summarised offer.
    ensures c.codes == Join(o.flightCodes.GetOr([]), Bullet)
  {
    Card(PriceText(o.price), AirlineText(o.outbound), Join(o.flightCodes.GetOr([]), Bullet),
         LegLineOf(o.outbound), if o.inbound.Some? then Some(LegLineOf(o.inbound)) else None)
  }

  /** `data.error` is truthy: present and not the empty string. */
  predicate HasError(data: FlightData) {
    data.error.Some? && data.error.value != ""
  }

  /**
   * `renderFlights` (main.js:852-944): an error short-circuits, then a
   * missing or empty list gives the notice, otherwise the cards are
   * appended one offer at a time.
   */
  method RenderFlights(data: FlightData) returns (view: Rendered)
    ensures HasError(data) ==> view == ErrorBox(data.error.value)
    ensures !HasError(data) && data.offers.GetOr([]) == [] ==> view == NoFlights
    ensures !HasError(data) && data.offers.GetOr([]) != [] ==>
      view.Cards? && |view.cards| == |data.offers.value|
      && forall i :: 0 <= i < |view.cards| ==> view.cards[i] == CardOf(data.offers.value[i])
  {
    if HasError(data) {
      return ErrorBox(data.error.value);
    }
    var offers := data.offers.GetOr([]);
    if |offers| == 0 {
      return NoFlights;
    }
    var cards: seq<Card> := [];
    for i := 0 to |offers|
      invariant |cards| == i
      invariant forall j :: 0 <= j < i ==> cards[j] == CardOf(offers[j])
    {
      cards := cards + [CardOf(offers[i])];
    }
    view := Cards(cards);
  }

  /** An offer with nothing filled in draws every default. */
  lemma EmptyOfferCard()
    ensures CardOf(OfferView(None, None, None, None))
      == Card("USD ?", "Airline unavailable", "", LegLine(Arrow, None, None, "Nonstop" + Bullet), None)
  {
  }

  /** A price that is present is shown with its currency, `USD` when that alone is missing. */
  lemma PriceShown(total: string, currency: Option<string>)
    ensures PriceText(Some(PriceView(Some(total), currency))) == currency.GetOr("USD") + " " + total
  {
  }

  // ---------------------------------------------------------------------------
  // Chat messages
  // ---------------------------------------------------------------------------

  /** How one character is written by the escaping in `displayMessage`. */
  function EscapeChar(c: char): string {
    if c == '&' then "&amp;" else if c == '<' then "&lt;" else if c == '>' then "&gt;" else [c]
  }

  /** The escaping as one pass over the text, each character written as `EscapeChar` says. */
  function EscapeEach(s: string): string
    decreases |s|
  {
    if s == [] then [] else EscapeChar(s[0]) + EscapeEach(s[1..])
  }

  /**
   * The escaping of `displayMessage` (main.js:72-75): `&` first, then `<`
   * and `>`; the result holds no angle bracket, so it cannot open a tag.
   */
  function EscapeHtml(s: string): (r: string)
    ensures '<' !in r && '>' !in r
  {
    var a := ReplaceAll(s, '&', "&amp;");
    var b := ReplaceAll(a, '<', "&lt;");
    ReplaceAllKeepsAbsent(b, '>', "&gt;", '<');
    ReplaceAll(b, '>', "&gt;")
  }

  /** Replacing `c` by text without `d` does not bring in a `d`. */
  lemma {:induction false} ReplaceAllKeepsAbsent(s: string, c: char, rep: string, d: char)
    requires d !in s && d !in rep
    ensures d !in ReplaceAll(s, c, rep)
    decreases |s|
  {
    if s != [] {
      ReplaceAllKeepsAbsent(s[1..], c, rep, d);
    }
  }

  /** A one-character text is replaced as that character alone says. */
  lemma ReplaceAllSingle(x: char, c: char, rep: string)
    ensures ReplaceAll([x], c, rep) == if x == c then rep else [x]
  {
    assert [x][1..] == [];
  }

  /** Escaping a concatenation escapes each part. */
  lemma EscapeHtmlAppend(a: string, b: string)
    ensures EscapeHtml(a + b) == EscapeHtml(a) + EscapeHtml(b)
  {
    ReplaceAllAppend(a, b, '&', "&amp;");
    var a1, b1 := ReplaceAll(a, '&', "&amp;"), ReplaceAll(b, '&', "&amp;");
    ReplaceAllAppend(a1, b1, '<', "&lt;");
    var a2, b2 := ReplaceAll(a1, '<', "&lt;"), ReplaceAll(b1, '<', "&lt;");
    ReplaceAllAppend(a2, b2, '>', "&gt;");
  }

  /** Escaping one character gives what `EscapeChar` says. */
  lemma EscapeHtmlChar(c: char)
    ensures EscapeHtml([c]) == EscapeChar(c)
  {
    ReplaceAllSingle(c, '&', "&amp;");
    if c == '&' {
      EscapeAmpersand();
    } else {
      ReplaceAllSingle(c, '<', "&lt;");
      if c == '<' {
        ReplaceAllAbsent("&lt;", '>', "&gt;");
      } else {
        ReplaceAllSingle(c, '>', "&gt;");
      }
    }
  }

  /** The entity written for `&` is left alone by the later replacements. */
  lemma EscapeAmpersand()
    ensures ReplaceAll(ReplaceAll("&amp;", '<', "&lt;"), '>', "&gt;") == "&amp;"
  {
    var amp := "&amp;";
    assert '<' !in amp && '>' !in amp;
    NoBracketsUnchanged(amp);
  }

  /** Text without angle brackets passes the last two replacements unchanged. */
  lemma NoBracketsUnchanged(t: string)
    requires '<' !in t && '>' !in t
    ensures ReplaceAll(ReplaceAll(t, '<', "&lt;"), '>', "&gt;") == t
  {
    ReplaceAllAbsent(t, '<', "&lt;");
    ReplaceAllAbsent(t, '>', "&gt;");
  }

  /** The three global replacements do the same as escaping each character once. */
  lemma {:induction false} EscapeHtmlEach(s: string)
    ensures EscapeHtml(s) == EscapeEach(s)
    decreases |s|
  {
    if s != [] {
      EscapeHtmlEach(s[1..]);
      assert s == [s[0]] + s[1..];
      EscapeHtmlAppend([s[0]], s[1..]);
      EscapeHtmlChar(s[0]);
    }
  }

  /** Reading escaped text back: each entity gives its character, anything else stands for itself. */
  function Unescape(t: string): string
    decreases |t|
  {
    if t == [] then []
    else if |t| >= 5 && t[..5] == "&amp;" then "&" + Unescape(t[5..])
    else if |t| >= 4 && t[..4] == "&lt;" then "<" + Unescape(t[4..])
    else if |t| >= 4 && t[..4] == "&gt;" then ">" + Unescape(t[4..])
    else [t[0]] + Unescape(t[1..])
  }

  /** Escaping loses nothing: the message can be read back exactly. */
  lemma UnescapeEscape(s: string)
    ensures Unescape(EscapeHtml(s)) == s
  {
    EscapeHtmlEach(s);
    UnescapeEach(s);
  }

  /** One escaped character, whatever follows it, reads back as that character. */
  lemma UnescapeChar(c: char, rest: string)
    ensures Unescape(EscapeChar(c) + rest) == [c] + Unescape(rest)
  {
    var e := EscapeChar(c);
    var t := e + rest;
    assert t[|e|..] == rest;
    if c == '&' {
      assert t[..5] == "&amp;";
    } else if c == '<' {
      assert t[..4] == "&lt;";
      assert |t| >= 5 ==> t[..5] != "&amp;" by { if |t| >= 5 { assert t[..5][1] == 'l'; } }
    } else if c == '>' {
      assert t[..4] == "&gt;";
      assert |t| >= 5 ==> t[..5] != "&amp;" by { if |t| >= 5 { assert t[..5][1] == 'g'; } }
      assert t[..4] != "&lt;" by { assert t[..4][1] == 'g'; }
    } else {
      assert t[0] == c;
      assert |t| >= 5 ==> t[..5] != "&amp;" by { if |t| >= 5 { assert t[..5][0] == c; } }
      assert |t| >= 4 ==> t[..4] != "&lt;" && t[..4] != "&gt;" by { if |t| >= 4 { assert t[..4][0] == c; } }
    }
  }

  lemma {:induction false} UnescapeEach(s: string)
    ensures Unescape(EscapeEach(s)) == s
    decreases |s|
  {
    if s != [] {
      UnescapeEach(s[1..]);
      UnescapeChar(s[0], EscapeEach(s[1..]));
      assert s == [s[0]] + s[1..];
    }
  }

  /** A bot message: escaped, then each line break drawn as `<br>` (main.js:70-76). */
  function BotMarkup(text: string): (r: string)
    ensures '\n' !in r
  {
    ReplaceAll(EscapeHtml(text), '\n', "<br>")
  }
}
