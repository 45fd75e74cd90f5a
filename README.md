# Vacation itinerary chatbot: date picker, request normalisers and flight summaries in Dafny

This project models the pure core of a travel-planning chat page and of the
flight search service behind it, and proves what the two promise each other.

- **The browser (`main.js`).**
  - The date-range picker is a class. Its methods change the stack of mounted popups (each with its own shown month), the pending end-popup timers and the dates field.
  - The month grid is built in loops, over Gregorian arithmetic that stands in for JavaScript's `Date`.
  - The `toISODate`, `normalizeDatesForBackend` and `parseBudgetMax` normalisers are string functions.
  - The send handler builds the request body.
  - `stopsLabel` and the card classification of `renderFlights` are a function to a datatype, and the results loop is a method proved against it.
  - The HTML escaping of chat messages is proved to lose nothing.
  - The favourites list and the interest buttons are classes.
  - The favourites-first grid order is a function.
- **The service (`apis/flight_api.py`).**
  - `parse_dates` reads the request's dates.
  - `count_stops`, `extract_flight_codes`, `summarize_itinerary` and `summarize_offer` summarise offers. The two list-building loops are methods proved against specification functions.
  - `load_airports` and `resolve_iata_local` form a class over the airport table.
  - `resolve_iata` with its fast path is a function.
  - The `/api/flights` handler's validation and search-parameter assembly is a function.
- **The two sides together (`end_to_end.dfy`).**
  - A range picked in the calendar goes through the send handler's normalisation and reaches the service as exactly its two ISO dates.
  - A start date alone is refused by the service.
  - Budget brackets become the right price cap.
  - A summarised offer is drawn with its own codes and return leg.

Modules, one per file: `Wrappers` (Option), `Text` (the JavaScript and
Python string primitives the core uses), `IsoScan` (`\d{4}-\d{2}-\d{2}`
search), `Calendar`, `Picker`, `Normalizer`, `FlightView`, `Favorites`,
`FlightApi`, `EndToEnd`.

Where the code and its description differ, the model follows the code:

- `toISODate` accepts more than three `/`-fields and ignores the extra ones.
- `parseBudgetMax("5000")` is the empty string.
- The later declarations of `normalizeDatesForBackend` (main.js:807) and `parseBudgetMax` (main.js:842) are the live ones, because JavaScript hoists function declarations and the last one wins.

## Model

The rows for lemmas also stand for the model functions they state facts about. These are `Normalizer.ToIsoDate`, `Normalizer.NormalizeDates`, `FlightApi.Flights`, `Favorites.Toggled`, `Favorites.SortedCities`, `FlightApi.ItinerarySummary`, `FlightApi.FlightCodes`, `FlightApi.LocalAnswer`, `FlightApi.RemotePick` and `Picker.PickText`.

| member | source | states |
|---|---|---|
| Text.NatToStringRoundTrip | main.js:685 | the decimal text of a number reads back as that number (`String(n)` in template literals) |
| Text.TrimIdempotent | main.js:797 | `trim()` leaves no whitespace at either end, and trimming twice is trimming once |
| Text.SplitJoin | main.js:797 | joining `split(sep)` with `sep` rebuilds the string, so the split loses nothing |
| Text.ReplaceAllAppend | main.js:72-75 | a global replace of a character works part by part over a concatenation |
| Text.PadStart2 | main.js:799-800 | `padStart(2, "0")` counts UTF-16 units: text at least two units long is unchanged, shorter text becomes exactly two units with zeros in front of it |
| Text.PadStart2OneChar | main.js:799-800 | a one-character field outside the Basic Multilingual Plane is not padded; any other one-character field gets one zero |
| IsoScan.FindAllEmptyIff | apis/flight_api.py:46 | `re.findall` of the ISO pattern is empty exactly when the pattern's `test` would fail |
| IsoScan.FindAllFront | apis/flight_api.py:46 | a text starting with an ISO date finds that date first, then the rest's matches |
| IsoScan.FindAllSkip | apis/flight_api.py:46 | a prefix without digits adds no match |
| Calendar.ShiftMonth | main.js:659-672 | Prev/Next keep the month in 0..11 and move the month count by exactly one, wrapping the year |
| Calendar.NextThenPrev | main.js:659-672 | Next then Prev shows the original month and year again |
| Calendar.PrevThenNext | main.js:659-672 | Prev then Next shows the original month and year again |
| Calendar.DaysInMonth | main.js:725 | 28 to 31 days, 29 in February exactly in a leap year |
| Calendar.FirstDay | main.js:724 | the weekday of the 1st is between 0 and 6 |
| Calendar.NextMonthStartsAfter | main.js:724-725 | the next month's grid starts on the weekday after this month's last day (except across the `Date` year-99/100 jump) |
| Calendar.GenerateCalendar | main.js:721-756 | title `Month Year`, then 7 weekday headers, `firstDay` blanks, and the days 1..`daysInMonth` in order |
| Calendar.March2026 | main.js:724-725 | March 2026 begins on a Sunday and has 31 days |
| Picker.DatePicker.constructor | main.js:610-613 | no popup mounted, no timer pending and an empty dates field at load |
| Picker.DatePicker.Open | main.js:632-642 | a new popup in the requested mode, on today's month, is mounted on top of those already mounted; the field and timers are untouched |
| Picker.DatePicker.ClickField | main.js:610-620 | a click on the field mounts a start popup on top, even while another popup is mounted or an end popup is pending |
| Picker.DatePicker.EndTimerFires | main.js:625-627 | a pending timer mounts an end popup on today's month, not the month the start was picked in, on top of any popup mounted meanwhile |
| Picker.DatePicker.Navigate | main.js:656-676 | the top popup moves to `ShiftMonth` of its own month; the popups below, the field and the timers are untouched |
| Picker.DatePicker.ClickDay | main.js:681-702 | the top popup's handler: start mode sets the field to `M/D/YYYY` and schedules one more end popup; end mode appends ` - M/D/YYYY`; only the top popup is removed; an empty cell changes nothing |
| Picker.DatePicker.ClickOverlay | main.js:713-715 | dismissing removes the top popup only and keeps the field |
| Picker.PickRange | main.js:610-716 | the whole interaction leaves `start - end` in the field and the mounted popups and timers as they were |
| Picker.StalePopupAfterRange | main.js:632-642 | clicking the field again while the end popup is pending leaves that start popup mounted after the range is complete |
| Picker.NoStalePopupAfterRange | main.js:632-642 | when mounting a popup first removes those already mounted, the same clicks leave no popup and the same range |
| Normalizer.TrimmedSplitParts | main.js:797 | `split(sep).map(s => s.trim())` gives at least one part; each part is its own trim and holds no separator; with no separator the one part is the trimmed text |
| Normalizer.ToIsoDateNull | main.js:795-802 | `toISODate` is null exactly when one of the first three trimmed `/`-fields is missing or empty |
| Normalizer.ToIsoDateDigits | main.js:795-802 | digit fields `m/d/y` give `y-mm-dd` with month and day zero-padded to width 2 |
| Normalizer.ToIsoDatePicked | main.js:795-802 | a date the picker writes (main.js:685) becomes its ISO spelling |
| Normalizer.NormalizeRules | main.js:807-835 | empty gives empty; text already holding an ISO date, or no `-`, comes back unchanged; any rewrite is `start to end` from the first two `-`-parts |
| Normalizer.NormalizeRange | main.js:807-835 | `a - b` with both parts valid dates becomes `toISODate(a) to toISODate(b)` |
| Normalizer.NormalizePickedRange | main.js:807-835 | a picked range (written at main.js:685 and 697) `M/D/YYYY - M/D/YYYY` becomes `YYYY-MM-DD to YYYY-MM-DD` |
| Normalizer.NormalizeStartOnly | main.js:822 | a start date alone passes through unchanged |
| Normalizer.NormalizeIdempotent | main.js:807-835 | normalising a normalised field changes nothing more |
| Normalizer.BudgetMax | main.js:842-847 | empty for any text with `+` and for any text without `-` |
| Normalizer.BudgetMaxClean | main.js:842-847 | the result is trimmed and holds no `-` |
| Normalizer.BudgetBracket | main.js:842-847 | the bracket `lo-hi` gives `hi` |
| Normalizer.BudgetOpen | main.js:842-847 | the open bracket `lo+` gives the empty string |
| Normalizer.SearchPayload | main.js:166-193 | the origin is always `BOS`; destination and message are sent trimmed |
| Normalizer.Submit | main.js:33-60 | an empty message is ignored; a missing destination, dates or budget raises the alert; a sent request carries an empty message |
| Normalizer.SubmitIntended | main.js:33-60 | the same outcomes, with the typed message sent |
| Normalizer.SubmitDropsMessage | main.js:33-60 | every request sent as written loses the typed message: it is cleared at line 55 and read at main.js:177 |
| Normalizer.SubmitDiffersOnlyInMessage | main.js:33-60 | the handler as written and as intended differ only in the message |
| FlightView.StopsLabel | main.js:784-788 | `Nonstop` exactly for 0, `1 stop` exactly for 1 |
| FlightView.StopsLabelInjective | main.js:784-788 | different stop counts never share a label |
| FlightView.CardOf | main.js:881-939 | a card has a return line exactly when `inbound` is present; its codes are the flight codes joined by ` • ` |
| FlightView.RenderFlights | main.js:852-944 | a truthy `error` gives the error box; else no or empty `offers` gives "No flights found."; else one card per offer, in order |
| FlightView.EmptyOfferCard | main.js:881-919 | an offer with nothing filled in shows `USD ?`, "Airline unavailable", no codes, an empty route and `Nonstop` |
| FlightView.PriceShown | main.js:888-889 | a present price is shown after its currency, `USD` when only the currency is missing |
| FlightView.EscapeHtml | main.js:72-75 | the escaped text contains no `<` and no `>` |
| FlightView.EscapeHtmlEach | main.js:72-75 | the three global replacements escape each character on its own |
| FlightView.UnescapeEscape | main.js:72-75 | decoding the entities gives back exactly the original message |
| FlightView.BotMarkup | main.js:70-76 | a bot message's markup has no raw line break left |
| Favorites.ToggledMembers | main.js:318-324 | a toggle flips the clicked city's membership and no other name's |
| Favorites.ToggleTwice | main.js:318-324 | starring and then unstarring a city restores the list exactly |
| Favorites.ToggledDistinct | main.js:318-324 | toggling never creates a repeated favourite |
| Favorites.FavoriteList.Toggle | main.js:318-327 | the stored list becomes `Toggled` of the old one |
| Favorites.RemoveMembers | main.js:321 | the `filter` keeps exactly the other names |
| Favorites.SortedIsPermutation | main.js:332-338 | the grid order is a permutation of the catalogue |
| Favorites.StarredFirst | main.js:332-338 | no favourite city comes after a non-favourite |
| Favorites.NoFavoritesKeepsOrder | main.js:332-338 | with no favourites the catalogue order is kept |
| Favorites.StarredMembers | main.js:334 | every city kept is from the catalogue and a favourite |
| Favorites.UnstarredMembers | main.js:335 | every city kept is from the catalogue and not a favourite |
| Favorites.StarredAppend | main.js:334 | the favourites group keeps catalogue order: the filter of a joined catalogue is the join of the filters |
| Favorites.UnstarredAppend | main.js:335 | the other group keeps catalogue order likewise |
| Favorites.FilterOne | main.js:334-335 | a single city goes to the favourites group exactly when its name is a favourite, and to the other group otherwise |
| Favorites.InterestButtons.constructor | main.js:1-2 | all buttons off, nothing selected |
| Favorites.InterestButtons.Click | main.js:7-17 | for any buttons, a click flips its button and appends its trimmed text or filters out every copy of it; while no two buttons read the same, the selection stays exactly the active buttons' interests, each once |
| Favorites.TwinButtonsLoseInterest | main.js:7-17 | with two buttons reading the same, turning both on and the first off leaves the second active with nothing selected |
| FlightApi.ParseDates | apis/flight_api.py:45-51 | any date returned is ISO-shaped, and a return date comes only with a departure date |
| FlightApi.ParseDatesFinds | apis/flight_api.py:45-51 | a departure date is found exactly when the text holds an ISO date |
| FlightApi.ParseDatesLeading | apis/flight_api.py:45-51 | a text starting with an ISO date departs on it and returns on the next match, if any |
| FlightApi.CountStops | apis/flight_api.py:143-145 | zero exactly for zero or one segment, else one fewer than the segments |
| FlightApi.ExtractFlightCodes | apis/flight_api.py:132-140 | the nested loops produce `FlightCodes`: itinerary by itinerary, segment by segment |
| FlightApi.CodesAtMostSegments | apis/flight_api.py:132-140 | at most one code per segment, and one per segment exactly when every segment has carrier and number |
| FlightApi.CodesOfCompleteSegments | apis/flight_api.py:136-139 | complete segments give `carrier number`, one per segment, in order |
| FlightApi.FlightCodesTwo | apis/flight_api.py:134-135 | the outbound's codes come before the return's |
| FlightApi.UniqueCarriersMembers | apis/flight_api.py:156-160 | a carrier is listed exactly when a segment names it with a non-empty code |
| FlightApi.UniqueCarriersDistinct | apis/flight_api.py:156-160 | no carrier is listed twice |
| FlightApi.UniqueCarriersOrder | apis/flight_api.py:156-160 | carriers are listed in order of first appearance |
| FlightApi.AirlineNamesFallback | apis/flight_api.py:162-163 | without a carrier dictionary the names are the codes; a name differs from its code only where the dictionary has that code; a code the dictionary lacks is shown as itself |
| FlightApi.SummarizeItinerary | apis/flight_api.py:148-174 | the de-duplicating loop gives `ItinerarySummary` |
| FlightApi.SummaryEndpoints | apis/flight_api.py:152-169 | `from`/`departAt` come from the first segment, `to`/`arriveAt` from the last; all four are null with no segments |
| FlightApi.SummaryCarriers | apis/flight_api.py:156-173 | the summary's carrier list is complete, free of repeats and as long as its airline list |
| FlightApi.SummarizeOffer | apis/flight_api.py:177-191 | id and price copied unchanged; no outbound without itineraries and no inbound with fewer than two |
| FlightApi.SummaryHasReturn | apis/flight_api.py:178-191 | inbound is present exactly when a second truthy itinerary is, outbound likewise for the first |
| FlightApi.AirportOfRow | apis/flight_api.py:63-72 | a row is kept only with 5 or more fields and an IATA field that is non-empty, not `\N` and 3 long; the code is stored stripped and upper-cased |
| FlightApi.AirportRowKept | apis/flight_api.py:63-72 | the filter keeps exactly those rows |
| FlightApi.AirportsAtMostRows | apis/flight_api.py:61-72 | never more airports than rows |
| FlightApi.AirportCodesShort | apis/flight_api.py:66-71 | every stored code is at most 3 characters long |
| FlightApi.AirportIndex.Load | apis/flight_api.py:53-74 | the first call appends every kept row in file order; later calls change nothing |
| FlightApi.FirstInCity | apis/flight_api.py:83-85 | the answer is the code of the first airport whose lower-cased city matches, and none exactly when no airport does |
| FlightApi.AirportIndex.FindCity | apis/flight_api.py:83-85 | the early-return scan gives `FirstInCity` |
| FlightApi.AirportIndex.ResolveLocal | apis/flight_api.py:76-96 | loads the table, then answers `LocalAnswer`: none for a blank query, else the exact city match, else the fuzzy pick's first airport |
| FlightApi.FirstOfKind | apis/flight_api.py:115-120 | the code returned belongs to an entry of that kind; none exactly when no such entry has a code |
| FlightApi.RemotePrefersCity | apis/flight_api.py:114-120 | when any city entry has a code, a city's code is returned |
| FlightApi.ResolveIata | apis/flight_api.py:99-129 | a missing or empty query resolves to nothing |
| FlightApi.ResolveFastPath | apis/flight_api.py:103-105 | a query that trims and upper-cases to three capitals is its own code, whatever the search or the table say |
| FlightApi.SearchBeforeTable | apis/flight_api.py:107-120 | past the fast path, a pick from the location search is the answer, whatever the local table holds |
| FlightApi.TableWhenSearchFails | apis/flight_api.py:122-128 | when the search raised or found no code, the local table's answer is returned, and a falsy answer gives nothing |
| FlightApi.ResolveLowerCaseCode | apis/flight_api.py:103-105 | ` bos ` resolves to `BOS` without any lookup |
| FlightApi.DatesCheckedFirst | apis/flight_api.py:218-220 | a request without an ISO date is refused with the dates message, whatever the resolver and the number parser would do |
| FlightApi.DestinationCheckedBeforeBudget | apis/flight_api.py:222-226 | an unresolved destination is refused with its message, whatever the budget parse would do |
| FlightApi.BudgetRead | apis/flight_api.py:228-233 | a sent budget that is not a number gets the budget message; an infinity such as `inf` raises `OverflowError`, which escapes as a 500; a search is made exactly when the budget reads as a number |
| FlightApi.SearchParamsShape | apis/flight_api.py:228-248 | adults 1, `USD`, max 5; `returnDate` exactly the second date; `maxPrice` exactly when a budget was sent; origin `JFK` when unresolved |
| EndToEnd.PickedRangeReachesService | apis/flight_api.py:213-220 | a range picked in the calendar (main.js:683-699) and sent by `searchFlights` (main.js:166-193) reaches the service as its two ISO dates, departure first |
| EndToEnd.StartOnlyRefused | apis/flight_api.py:218-220 | a start date alone is sent unchanged by the frontend (main.js:822) and refused |
| EndToEnd.OpenBudgetNoCap | apis/flight_api.py:228-248 | an open bracket `lo+` (main.js:845) sends an empty budget and the search has no price cap |
| EndToEnd.BracketBudgetCap | apis/flight_api.py:228-248 | a bracket `lo-hi` normalised by `parseBudgetMax` (main.js:842-847) caps the price at the number read from `hi` |
| EndToEnd.CardOfSummary | apis/flight_api.py:177-191 | the card `renderFlights` draws (main.js:895, 925) of a summarised offer shows its flight codes and a return line exactly when it has a second itinerary |
| EndToEnd.OneSegmentCard | apis/flight_api.py:143-173 | a one-segment outbound is drawn `Nonstop` (main.js:919) under its carrier's name (main.js:894) |

## Left out

- Browser I/O is not modelled: the DOM, `fetch`, `localStorage` and `alert`. The favourites list starts from whatever storage held and its write-back is not modelled.
- The `setTimeout` delays are not modelled. Each scheduled end popup is a pending count that `EndTimerFires` decrements.
- Picker.DatePicker.ClickDay: runs only the top popup's own handler. In the page, a popup's listeners are bound document-wide (main.js:657, 682). A popup that was under another one therefore also carries the upper one's day and navigation handlers, which run as well once it is uncovered. This cross-binding is not modelled.
- The city modal, tabs, static city data and `generateItinerary` are UI plumbing and are left out.
- The first drafts `mdYToISO`, `normalizeDatesForBackend` and `parseBudgetMax` (main.js:91-160) are not modelled. They are shadowed by the later declarations and never run.
- `renderFlights` is modelled although nothing in main.js calls it: `searchFlights` ends with a TODO.
- FlightView.CardOf: keeps the departure and arrival timestamps as received. `fmtTime` (main.js:775-779) formats them through locale-dependent `toLocaleString`, which is not modelled.
- FlightView.RenderFlights: the error text is shown as given. Its insertion into `innerHTML` unescaped is not modelled.
- Calendar.FirstDay and Calendar.DaysInMonth model `Date` only within its valid range of ±8.64e15 ms. Years 0 to 99 are read as 1900 + year, as `Date` does.
- JavaScript strings are sequences of UTF-16 units while the model's strings are Unicode scalar values, so lone surrogates are not modelled; `Text.Utf16Length` gives `padStart` its UTF-16 length.
- Python's `\d` matches every Unicode decimal digit; the model matches ASCII `0-9` only. `str.upper` and `str.lower` are modelled on ASCII letters only.
- Whitespace for `trim`/`strip` is the set each runtime uses. Line terminators and the BOM differ between the two runtimes.
- The location search of `resolve_iata` (apis/flight_api.py:109-113) is a network call. FlightApi.ResolveIata takes its entries as a parameter (`None` when the call raised), and takes `resolve_iata_local`'s answer as another parameter.
- `difflib.get_close_matches` (apis/flight_api.py:89) is a foreign library with a float cutoff. FlightApi.AirportIndex.ResolveLocal takes the city it would pick as a parameter.
- The CSV file read of `load_airports` is not modelled. FlightApi.AirportIndex.Load takes the parsed rows.
- The flight offer search call, the writing of `flight_results.json`, the Flask routes serving files, and the 500 answer for a failed search call (apis/flight_api.py:250-274) are left out.
- FlightApi.Flights: `resolve_iata` and `int(float(budget))` are function parameters. The second returns a number, a `ValueError` or an `OverflowError`. Which texts give which is Python's float parsing and is not modelled.
- FlightApi.Flights: a JSON `null` body value is read as a missing key, so the default applies. In Python `null` would reach `parse_dates` and `resolve_iata` as `None`.
- FlightApi.ExtractFlightCodes: an itinerary that is JSON `null` counts as having no segments. Python would raise on it; an empty object, which is also falsy, behaves as modelled.
- FlightApi.SummarizeItinerary, FlightApi.SummarizeOffer: several JSON `null` values read as an empty object or an absent value, where Python raises `AttributeError`. These are a `null` `departure` or `arrival` (apis/flight_api.py:164-167), a `null` `price` (apis/flight_api.py:184-185) and a `null` `carriers` dictionary (apis/flight_api.py:161).
- apis/amadeus_api.py is not part of this model. Every method there is an HTTP call.
- Normalizer.SearchPayload: its contract states only the origin and the trimming. What the dates and budget become is proved in the Normalizer and EndToEnd lemmas.
- FlightApi.ResolveIata: its own contract states only the blank-query case. The fast path is stated by ResolveFastPath. The search before the table is stated by SearchBeforeTable and TableWhenSearchFails. The city-before-airport order within the search is stated by RemotePrefersCity.

## Findings

| source | as written | input that shows it | evidently intended | confidence | as-written member | corrected member |
|---|---|---|---|---|---|---|
| main.js:632-642 | `openCalendar` mounts its overlay without removing one already mounted, and the end-pick handler removes only its own | click the field, pick day 5, click the field again within 200 ms, let the end popup open, pick day 9: the field reads `M/5/Y - M/9/Y` and the second start popup is still mounted | at most one popup is mounted, so a completed range leaves none | low, not executed | Picker.StalePopupAfterRange | Picker.NoStalePopupAfterRange |
| main.js:55, 177 | `handleSendMessage` clears the message box before calling `searchFlights`, which then reads the box (now empty) as `message` | message `"Plan 3 days in Rome"` with destination, dates and budget filled: the posted body has `message: ""` | the typed, trimmed message is posted (the service currently ignores it) | medium, not executed | Normalizer.Submit, Normalizer.SubmitDropsMessage | Normalizer.SubmitIntended, Normalizer.SubmitDiffersOnlyInMessage |
