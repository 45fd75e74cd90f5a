/**
 * What the browser sends to the flight service: the dates field rewritten
 * from the picker's `M/D/YYYY - M/D/YYYY` into `YYYY-MM-DD to YYYY-MM-DD`
 * (`toISODate`, `normalizeDatesForBackend`), the budget bracket reduced to
 * its upper bound (`parseBudgetMax`), and the payload of `searchFlights`.
 */
module Normalizer {
  import opened Wrappers
  import opened Text
  import opened IsoScan
  import Picker

  /** `s.split(sep).map(s => s.trim())`. */
  function TrimmedSplit(s: string, sep: char): (parts: seq<string>)
    // These two unfold the comprehension for callers; what the parts are is stated by TrimmedSplitParts.
    ensures |parts| == |Split(s, sep)|
    ensures forall k :: 0 <= k < |parts| ==> parts[k] == Trim(Js, Split(s, sep)[k])
  {
    var raw := Split(s, sep);
    seq(|raw|, k requires 0 <= k < |raw| => Trim(Js, raw[k]))
  }

  /** Every part of a trimmed split is its own trim and holds no separator. */
  lemma TrimmedSplitParts(s: string, sep: char)
    ensures var parts := TrimmedSplit(s, sep);
      |parts| >= 1
      && (sep !in s ==> parts == [Trim(Js, s)])
      && forall k :: 0 <= k < |parts| ==> sep !in parts[k] && Trim(Js, parts[k]) == parts[k]
  {
    var raw := Split(s, sep);
    SplitPartsLack(s, sep);
    forall k | 0 <= k < |raw|
      ensures sep !in TrimmedSplit(s, sep)[k] && Trim(Js, TrimmedSplit(s, sep)[k]) == TrimmedSplit(s, sep)[k]
    {
      TrimKeepsAbsent(Js, raw[k], sep);
      TrimIdempotent(Js, raw[k]);
    }
  }

  /** Element `k` of a destructured array; a missing one is `undefined`, which is as falsy as `""`. */
  function Field(parts: seq<string>, k: nat): string {
    if k < |parts| then parts[k] else ""
  }

  /**
   * `toISODate` (main.js:795-802): the first three `/`-separated fields,
   * trimmed, as `year-month-day` with month and day padded to two digits;
   * `null` when any of the three is missing or empty. Fields after the
   * third are ignored.
   */
  function ToIsoDate(mdy: string): Option<string>
  {
    var f := TrimmedSplit(mdy, '/');
    var m, d, y := Field(f, 0), Field(f, 1), Field(f, 2);
    if m == "" || d == "" || y == "" then None
    else Some(y + "-" + PadStart2(m) + "-" + PadStart2(d))
  }

  /**
   * `normalizeDatesForBackend` as declared last (main.js:807-835), the one
   * in force: empty stays empty; text already holding an ISO date, text
   * without a `-`, and text whose first two `-`-parts are not both
   * `M/D/Y` dates are sent unchanged; otherwise the two dates are rewritten.
   */
  function NormalizeDates(s: string): string
  {
    if s == "" then ""
    else if ContainsIso(s) then s
    else
      var parts := TrimmedSplit(s, '-');
      if |parts| < 2 then s
      else
        var start, end := ToIsoDate(parts[0]), ToIsoDate(parts[1]);
        if start.None? || end.None? then s
        else start.value + " to " + end.value
  }

  /** `toISODate` gives `null` exactly when one of the first three fields is missing or empty. */
  lemma ToIsoDateNull(mdy: string)
    ensures var f := TrimmedSplit(mdy, '/');
      ToIsoDate(mdy).None? <==> |f| < 3 || f[0] == "" || f[1] == "" || f[2] == ""
  {
  }

  /**
   * The rules of `normalizeDatesForBackend`: empty text, text already
   * holding an ISO date and text without a `-` are sent as they are, and
   * any text that is rewritten became the two `toISODate` results of its
   * first two `-`-parts, joined by ` to `.
   */
  lemma NormalizeRules(s: string)
    ensures s == "" ==> NormalizeDates(s) == ""
    ensures ContainsIso(s) ==> NormalizeDates(s) == s
    ensures '-' !in s ==> NormalizeDates(s) == s
    ensures NormalizeDates(s) != s ==>
      var parts := TrimmedSplit(s, '-');
      && |parts| >= 2 && ToIsoDate(parts[0]).Some? && ToIsoDate(parts[1]).Some?
      && NormalizeDates(s) == ToIsoDate(parts[0]).value + " to " + ToIsoDate(parts[1]).value
  {
    if '-' !in s {
      SplitNone(s, '-');
    }
  }

  /**
   * `parseBudgetMax` as declared last (main.js:842-847): nothing for an
   * empty value or an open bracket such as `5000+`, otherwise the trimmed
   * text after the first `-` (and before any second one), or nothing.
   */
  function BudgetMax(s: string): (r: string)
    ensures '+' in s ==> r == ""
    ensures '-' !in s ==> r == ""
  {
    if s == "" || '+' in s then "" else Field(TrimmedSplit(s, '-'), 1)
  }

  /** The upper bound sent for a budget is trimmed and holds no `-`. */
  lemma BudgetMaxClean(s: string)
    ensures var r := BudgetMax(s); '-' !in r && Trim(Js, r) == r
  {
    var r := BudgetMax(s);
    if r != "" {
      var raw := Split(s, '-');
      assert |raw| >= 2 && r == Trim(Js, raw[1]);
      SplitPartsLack(s, '-');
      TrimKeepsAbsent(Js, raw[1], '-');
      TrimIdempotent(Js, raw[1]);
    }
  }

  // ---------------------------------------------------------------------------
  // Facts about decimal text used below
  // ---------------------------------------------------------------------------

  /** A string of digits holds no character that is not a digit. */
  lemma DigitsLack(s: string, c: char)
    requires AllDigits(s) && !IsDigit(c)
    ensures c !in s
  {
  }

  /** Digits are not whitespace, so trimming leaves them alone. */
  lemma DigitsTrimmed(s: string)
    requires AllDigits(s)
    ensures Trim(Js, s) == s
  {
    TrimUnchanged(Js, s);
  }

  /** Padding a number below 100 gives its two digits. */
  lemma PaddedTwoDigits(n: nat)
    requires n < 100
    ensures PadStart2(NatToString(n)) == [DigitChar(n / 10), DigitChar(n % 10)]
  {
    NatToStringWidth(n);
  }

  /** `m/d/y` with `/`-free fields splits into exactly those fields. */
  lemma DateTextSplit(m: string, d: string, y: string)
    requires '/' !in m && '/' !in d && '/' !in y
    ensures Split(m + "/" + d + "/" + y, '/') == [m, d, y]
  {
    Regroup(m + "/", d, "/", y);
    SplitThree(m, d, y, '/');
  }

  /** `m/d/y` built from digit strings: its trimmed `/`-fields are exactly `m`, `d` and `y`. */
  lemma DateTextFields(m: string, d: string, y: string)
    requires AllDigits(m) && AllDigits(d) && AllDigits(y)
    ensures TrimmedSplit(m + "/" + d + "/" + y, '/') == [m, d, y]
  {
    DigitsLack(m, '/');
    DigitsLack(d, '/');
    DigitsLack(y, '/');
    DateTextSplit(m, d, y);
    DigitsTrimmed(m);
    DigitsTrimmed(d);
    DigitsTrimmed(y);
  }

  /** `m/d/y` built from digit strings has no `-`. */
  lemma DateTextNoDash(m: string, d: string, y: string)
    requires AllDigits(m) && AllDigits(d) && AllDigits(y)
    ensures '-' !in m + "/" + d + "/" + y
  {
    DigitsLack(m, '-');
    DigitsLack(d, '-');
    DigitsLack(y, '-');
  }

  /** `m/d/y` with non-empty digit strings at both ends has no whitespace to trim. */
  lemma DateTextTrimmed(m: string, d: string, y: string)
    requires AllDigits(m) && AllDigits(y) && m != [] && y != []
    ensures Trim(Js, m + "/" + d + "/" + y) == m + "/" + d + "/" + y
  {
    var t := m + "/" + d + "/" + y;
    assert t[0] == m[0] && t[|t| - 1] == y[|y| - 1];
    TrimUnchanged(Js, t);
  }

  /** The text the picker writes for a date, spelled out as digit strings; the year is never negative. */
  lemma PickTextDigits(month: nat, day: nat, year: nat)
    requires month <= 11
    ensures Picker.PickText(month, NatToString(day), year)
      == NatToString(month + 1) + "/" + NatToString(day) + "/" + NatToString(year)
  {
  }

  // ---------------------------------------------------------------------------
  // Properties
  // ---------------------------------------------------------------------------

  /** Digit fields `m/d/y` become `y-mm-dd`, month and day padded to two digits. */
  lemma ToIsoDateDigits(m: string, d: string, y: string)
    requires AllDigits(m) && AllDigits(d) && AllDigits(y) && m != [] && d != [] && y != []
    ensures ToIsoDate(m + "/" + d + "/" + y) == Some(y + "-" + PadStart2(m) + "-" + PadStart2(d))
  {
    var f := TrimmedSplit(m + "/" + d + "/" + y, '/');
    DateTextFields(m, d, y);
    assert Field(f, 0) == m && Field(f, 1) == d && Field(f, 2) == y;
  }

  /**
   * A date as the picker writes it, `{month + 1}/{day}/{year}` with a
   * four-digit year, becomes the ISO text of that same date.
   */
  lemma ToIsoDatePicked(month: nat, day: nat, year: nat)
    requires month <= 11 && day < 100 && 1000 <= year <= 9999
    ensures ToIsoDate(Picker.PickText(month, NatToString(day), year)) == Some(IsoText(year, month + 1, day))
  {
    PickTextDigits(month, day, year);
    ToIsoDateDigits(NatToString(month + 1), NatToString(day), NatToString(year));
    IsoTextSpelled(year, month + 1, day);
  }

  /** The ISO text of a date with a four-digit year is its year, then its padded month and day. */
  lemma IsoTextSpelled(year: nat, month: nat, day: nat)
    requires 1000 <= year <= 9999 && month < 100 && day < 100
    ensures IsoText(year, month, day)
      == NatToString(year) + "-" + PadStart2(NatToString(month)) + "-" + PadStart2(NatToString(day))
  {
    NatToStringWidth(year);
    PaddedTwoDigits(month);
    PaddedTwoDigits(day);
  }

  /** Every character of a part is a character of the joined text. */
  lemma {:induction false} JoinHolds(parts: seq<string>, k: nat, sep: string)
    requires k < |parts|
    ensures forall c :: c in parts[k] ==> c in Join(parts, sep)
    decreases |parts|
  {
    if |parts| > 1 {
      if k > 0 {
        JoinHolds(parts[1..], k - 1, sep);
      }
      assert Join(parts, sep) == parts[0] + sep + Join(parts[1..], sep);
    }
  }

  /** A field of a trimmed split lacks every character its source lacks. */
  lemma TrimmedSplitKeepsAbsent(s: string, sep: char, k: nat, c: char)
    requires c !in s && k < |TrimmedSplit(s, sep)|
    ensures c !in TrimmedSplit(s, sep)[k]
  {
    var raw := Split(s, sep);
    SplitJoin(s, sep);
    JoinHolds(raw, k, [sep]);
    TrimKeepsAbsent(Js, raw[k], c);
  }

  /**
   * The ISO text holds the fields in year, month, day order: split on `-`
   * it gives back the year and the padded month and day, provided the
   * fields have no `-` of their own.
   */
  lemma ToIsoDateFields(mdy: string)
    requires ToIsoDate(mdy).Some?
    requires '-' !in mdy
    ensures var f := TrimmedSplit(mdy, '/');
      Split(ToIsoDate(mdy).value, '-') == [f[2], PadStart2(f[0]), PadStart2(f[1])]
  {
    var f := TrimmedSplit(mdy, '/');
    var y, mm, dd := f[2], PadStart2(f[0]), PadStart2(f[1]);
    assert '-' !in y && '-' !in mm && '-' !in dd by {
      TrimmedSplitKeepsAbsent(mdy, '/', 0, '-');
      TrimmedSplitKeepsAbsent(mdy, '/', 1, '-');
      TrimmedSplitKeepsAbsent(mdy, '/', 2, '-');
    }
    assert ToIsoDate(mdy).value == y + "-" + (mm + "-" + dd) by {
      Regroup(y + "-", mm, "-", dd);
    }
    SplitThree(y, mm, dd, '-');
  }

  /** A date the picker writes is non-empty, trimmed, and holds no `-`. */
  lemma PickTextShape(month: nat, day: nat, year: nat)
    requires month <= 11
    ensures var t := Picker.PickText(month, NatToString(day), year);
      '-' !in t && Trim(Js, t) == t
  {
    PickTextDigits(month, day, year);
    DateTextNoDash(NatToString(month + 1), NatToString(day), NatToString(year));
    DateTextTrimmed(NatToString(month + 1), NatToString(day), NatToString(year));
  }

  /** Two trimmed dash-free texts joined by ` - ` split and trim back into the two. */
  lemma RangeParts(a: string, b: string)
    requires '-' !in a && '-' !in b && Trim(Js, a) == a && Trim(Js, b) == b
    ensures TrimmedSplit(a + " - " + b, '-') == [a, b]
  {
    RangeSplit(a, b);
    TrimSpaceAfter(Js, a);
    TrimSpaceBefore(Js, b);
    TrimPair(a + " ", " " + b);
  }

  /** Trimming each of two parts. */
  lemma TrimPair(x: string, y: string)
    ensures seq(2, k requires 0 <= k < 2 => Trim(Js, [x, y][k])) == [Trim(Js, x), Trim(Js, y)]
  {
  }

  lemma RangeSplit(a: string, b: string)
    requires '-' !in a && '-' !in b
    ensures Split(a + " - " + b, '-') == [a + " ", " " + b]
  {
    assert a + " - " + b == (a + " ") + ['-'] + (" " + b);
    SplitFirst(a + " ", '-', " " + b);
    SplitNone(" " + b, '-');
  }

  /** In a picked range every `-` is the separator, which follows a space: no ISO date is there yet. */
  lemma RangeHasNoIso(a: string, b: string)
    requires '-' !in a && '-' !in b
    ensures !ContainsIso(a + " - " + b)
  {
    var s := a + " - " + b;
    forall k | 0 <= k < |a|
      ensures s[k] == a[k] && s[k] != '-'
    {
    }
    forall k | |a| + 3 <= k < |s|
      ensures s[k] == b[k - |a| - 3] && s[k] != '-'
    {
    }
    assert s[|a|] == ' ' && s[|a| + 2] == ' ';
    NoIsoWithoutDigitDash(s);
  }

  /** Two trimmed, `-`-free `M/D/Y` dates joined by ` - ` become their two ISO texts joined by ` to `. */
  lemma NormalizeRange(a: string, b: string)
    requires '-' !in a && '-' !in b && Trim(Js, a) == a && Trim(Js, b) == b
    requires ToIsoDate(a).Some? && ToIsoDate(b).Some?
    ensures NormalizeDates(a + " - " + b) == ToIsoDate(a).value + " to " + ToIsoDate(b).value
  {
    var s := a + " - " + b;
    assert s != "" by {
      assert |s| == |a| + 3 + |b|;
    }
    RangeHasNoIso(a, b);
    RangeParts(a, b);
  }

  /**
   * The picker's full range `M/D/YYYY - M/D/YYYY` is rewritten into
   * `YYYY-MM-DD to YYYY-MM-DD` with the same two dates.
   */
  lemma NormalizePickedRange(m1: nat, d1: nat, y1: nat, m2: nat, d2: nat, y2: nat)
    requires m1 <= 11 && d1 < 100 && 1000 <= y1 <= 9999
    requires m2 <= 11 && d2 < 100 && 1000 <= y2 <= 9999
    ensures NormalizeDates(Picker.PickText(m1, NatToString(d1), y1) + " - " + Picker.PickText(m2, NatToString(d2), y2))
      == IsoText(y1, m1 + 1, d1) + " to " + IsoText(y2, m2 + 1, d2)
  {
    var a := Picker.PickText(m1, NatToString(d1), y1);
    var b := Picker.PickText(m2, NatToString(d2), y2);
    PickTextShape(m1, d1, y1);
    PickTextShape(m2, d2, y2);
    ToIsoDatePicked(m1, d1, y1);
    ToIsoDatePicked(m2, d2, y2);
    NormalizeRange(a, b);
  }

  /**
   * A start date without an end date (the field after only one pick) has
   * no `-`, so it is sent exactly as typed.
   */
  lemma NormalizeStartOnly(month: nat, day: nat, year: nat)
    requires month <= 11
    ensures var t := Picker.PickText(month, NatToString(day), year); NormalizeDates(t) == t
  {
    PickTextShape(month, day, year);
    NormalizeRules(Picker.PickText(month, NatToString(day), year));
  }

  /** The third `/`-field of `-`-free text is trimmed and holds neither `-` nor `/`. */
  lemma YearFieldClean(t: string)
    requires '-' !in t && |TrimmedSplit(t, '/')| >= 3
    ensures var y := TrimmedSplit(t, '/')[2]; '-' !in y && '/' !in y && Trim(Js, y) == y
  {
    TrimmedSplitKeepsAbsent(t, '/', 2, '-');
    var raw := Split(t, '/');
    SplitPartsLack(t, '/');
    TrimKeepsAbsent(Js, raw[2], '/');
    TrimIdempotent(Js, raw[2]);
  }

  /** A rewritten value starts with a year field that has no `-` and no `/`, and no second rewrite applies. */
  lemma RewrittenIsFixed(y: string, rest: string)
    requires '-' !in y && '/' !in y && Trim(Js, y) == y
    ensures NormalizeDates(y + "-" + rest) == y + "-" + rest
  {
    var r := y + "-" + rest;
    if !ContainsIso(r) {
      SplitFirst(y, '-', rest);
      SplitNone(y, '/');
      assert TrimmedSplit(y, '/') == [y];
      assert TrimmedSplit(r, '-')[0] == y;
    }
  }

  /** A rewritten value is a clean year field, a `-`, and the rest. */
  lemma RewriteShape(s: string) returns (y: string, rest: string)
    requires NormalizeDates(s) != s
    ensures NormalizeDates(s) == y + "-" + rest
    ensures '-' !in y && '/' !in y && Trim(Js, y) == y
  {
    var parts := TrimmedSplit(s, '-');
    assert |parts| >= 2 && ToIsoDate(parts[0]).Some? && ToIsoDate(parts[1]).Some?
      && NormalizeDates(s) == ToIsoDate(parts[0]).value + " to " + ToIsoDate(parts[1]).value by {
      NormalizeRules(s);
    }
    var md;
    y, md := ToIsoDateYearFirst(parts[0]);
    rest := md + " to " + ToIsoDate(parts[1]).value;
    Regroup(y + "-", md, " to ", ToIsoDate(parts[1]).value);
    assert '-' !in y && '/' !in y && Trim(Js, y) == y by {
      FirstPartNoDash(s);
      YearFieldClean(parts[0]);
    }
  }

  /** The first trimmed `-`-part holds no `-`. */
  lemma FirstPartNoDash(s: string)
    ensures '-' !in TrimmedSplit(s, '-')[0]
  {
    SplitPartsLack(s, '-');
    TrimKeepsAbsent(Js, Split(s, '-')[0], '-');
  }

  /** The ISO text starts with the third `/`-field, then a `-`. */
  lemma ToIsoDateYearFirst(mdy: string) returns (y: string, md: string)
    requires ToIsoDate(mdy).Some?
    ensures |TrimmedSplit(mdy, '/')| >= 3 && y == TrimmedSplit(mdy, '/')[2]
    ensures ToIsoDate(mdy).value == y + "-" + md
  {
    var f := TrimmedSplit(mdy, '/');
    assert Field(f, 2) != "";
    var m, d := PadStart2(f[0]), PadStart2(f[1]);
    y, md := f[2], m + "-" + d;
    assert ToIsoDate(mdy).value == y + "-" + m + "-" + d;
    Regroup(y + "-", m, "-", d);
  }

  lemma AppendAssoc(a: string, b: string, c: string)
    ensures a + (b + c) == a + b + c
  {
  }

  lemma Regroup(a: string, b: string, c: string, d: string)
    ensures a + b + c + d == a + (b + c + d)
  {
    AppendAssoc(a, b, c);
    AppendAssoc(a, b + c, d);
  }

  /** Normalising twice changes nothing more than normalising once. */
  lemma NormalizeIdempotent(s: string)
    ensures NormalizeDates(NormalizeDates(s)) == NormalizeDates(s)
  {
    if NormalizeDates(s) != s {
      var y, rest := RewriteShape(s);
      RewrittenIsFixed(y, rest);
    }
  }

  /** Digit bounds `lo-hi`: the upper bound is the text after the `-`. */
  lemma BudgetDigits(a: string, b: string)
    requires AllDigits(a) && AllDigits(b)
    ensures BudgetMax(a + "-" + b) == b
  {
    DigitsLack(a, '+');
    DigitsLack(b, '+');
    DigitsLack(a, '-');
    DigitsLack(b, '-');
    SplitFirst(a, '-', b);
    SplitNone(b, '-');
    DigitsTrimmed(a);
    DigitsTrimmed(b);
  }

  /** A closed bracket `lo-hi` of the budget select gives its upper bound. */
  lemma BudgetBracket(lo: nat, hi: nat)
    ensures BudgetMax(NatToString(lo) + "-" + NatToString(hi)) == NatToString(hi)
  {
    BudgetDigits(NatToString(lo), NatToString(hi));
  }

  /** The open bracket `lo+` sets no upper bound. */
  lemma BudgetOpen(lo: nat)
    ensures BudgetMax(NatToString(lo) + "+") == ""
  {
    var s := NatToString(lo) + "+";
    assert s[|s| - 1] == '+';
  }

  // ---------------------------------------------------------------------------
  // The request the chat form sends
  // ---------------------------------------------------------------------------

  /** The controls of the chat form as the page holds them. */
  datatype Form = Form(destination: string, dates: string, budget: string, transport: string, input: string)

  /** The JSON body `searchFlights` posts to `/api/flights` (main.js:186-193). */
  datatype Payload = Payload(origin: string, destination: string, dates: string, budget: string,
                             transport: string, message: string)

  /** `searchFlights` reading the form (main.js:166-193): every field trimmed, the origin fixed to `BOS`. */
  function SearchPayload(form: Form): (p: Payload)
    ensures p.origin == "BOS"
    ensures Trim(Js, p.destination) == p.destination && Trim(Js, p.message) == p.message
  {
    TrimIdempotent(Js, form.destination);
    TrimIdempotent(Js, form.input);
    Payload("BOS", Trim(Js, form.destination), NormalizeDates(Trim(Js, form.dates)),
            BudgetMax(Trim(Js, form.budget)), Trim(Js, form.transport), Trim(Js, form.input))
  }

  /** What pressing Send leads to: nothing, the missing-fields alert, or a posted request. */
  datatype Submission = Ignored | MissingFields | Sent(payload: Payload)

  /**
   * `handleSendMessage` as written (main.js:33-60): an empty message is
   * ignored, a missing destination, dates or budget raises the alert, and
   * otherwise the message box is cleared (main.js:55) BEFORE `searchFlights`
   * reads it (main.js:177), so the request carries an empty message.
   */
  function Submit(form: Form): (s: Submission)
    ensures s == Ignored <==> Trim(Js, form.input) == ""
    ensures s == MissingFields <==>
      Trim(Js, form.input) != "" && (form.destination == "" || form.dates == "" || form.budget == "")
    ensures s.Sent? ==> s.payload.message == ""
  {
    if Trim(Js, form.input) == "" then Ignored
    else if form.destination == "" || form.dates == "" || form.budget == "" then MissingFields
    else Sent(SearchPayload(form.(input := "")))
  }

  /** The same handler with the request built before the box is cleared: the typed message is sent. */
  function SubmitIntended(form: Form): (s: Submission)
    ensures s == Ignored <==> Trim(Js, form.input) == ""
    ensures s == MissingFields <==>
      Trim(Js, form.input) != "" && (form.destination == "" || form.dates == "" || form.budget == "")
    ensures s.Sent? ==> s.payload.message == Trim(Js, form.input) != ""
  {
    if Trim(Js, form.input) == "" then Ignored
    else if form.destination == "" || form.dates == "" || form.budget == "" then MissingFields
    else Sent(SearchPayload(form))
  }

  /** As written, every request that is sent loses the message the user typed. */
  lemma SubmitDropsMessage(form: Form)
    requires Submit(form).Sent?
    ensures Submit(form).payload.message != Trim(Js, form.input)
  {
  }

  /** The two handlers agree on everything except the message. */
  lemma SubmitDiffersOnlyInMessage(form: Form)
    ensures Submit(form).Sent? <==> SubmitIntended(form).Sent?
    ensures Submit(form).Sent? ==>
      Submit(form).payload == SubmitIntended(form).payload.(message := "")
  {
  }
}
