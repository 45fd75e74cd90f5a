/**
 * The date-range picker (`openCalendar`, main.js:610-716): a popup that first
 * asks for a start day, then reopens for an end day, and writes what was
 * picked into the dates field.
 */
module Picker {
  import opened Text
  import opened Calendar

  /** Which end of the range a popup collects. */
  datatype Mode = StartMode | EndMode

  /** One mounted overlay: its mode and its own `currentMonth` / `currentYear` (main.js:638-639). */
  datatype Popup = Popup(mode: Mode, month: int, year: int)

  /** `${currentMonth + 1}/${day text}/${currentYear}` (main.js:685). */
  function PickText(month: int, dayText: string, year: int): string
    requires 0 <= month <= 11
  {
    NatToString(month + 1) + "/" + dayText + "/" + IntToString(year)
  }

  /**
   * The page's picker state. Every `openCalendar` call mounts a new overlay
   * on top of whatever is already mounted, so the mounted popups form a
   * stack; the user can reach only the top one, the last in `popups`.
   */
  class DatePicker {
    /**
     * False for the page as written. True for the corrected picker, where
     * mounting a popup first removes any popup already mounted.
     */
    const closesOthers: bool
    /** The mounted overlays, bottom first. */
    var popups: seq<Popup>
    /** `setTimeout(openEndCalendar, 200)` calls scheduled and not yet fired (main.js:694). */
    var endPending: nat
    /** `datesInput.value`. */
    var field: string

    ghost predicate Valid()
      reads this
    {
      && (forall k :: 0 <= k < |popups| ==> 0 <= popups[k].month <= 11)
      && (closesOthers ==> |popups| <= 1)
    }

    /** The page as loaded: no popup, no timer, an empty dates field. */
    constructor (closesOthers: bool)
      ensures Valid()
      ensures this.closesOthers == closesOthers
      ensures popups == [] && endPending == 0 && field == ""
    {
      this.closesOthers := closesOthers;
      popups := [];
      endPending := 0;
      field := "";
    }

    /** Mounting a popup (main.js:632-642): it always opens on today's month, above any popup already mounted. */
    method Open(mode: Mode, todayMonth: int, todayYear: int)
      requires Valid() && 0 <= todayMonth <= 11
      modifies this
      ensures Valid()
      ensures popups == (if closesOthers then [] else old(popups)) + [Popup(mode, todayMonth, todayYear)]
      ensures field == old(field) && endPending == old(endPending)
    {
      var p := Popup(mode, todayMonth, todayYear);
      if closesOthers {
        popups := [p];
      } else {
        popups := popups + [p];
      }
    }

    /** A click on the dates field opens a start popup (main.js:610-620). */
    method ClickField(todayMonth: int, todayYear: int)
      requires Valid() && 0 <= todayMonth <= 11
      modifies this
      ensures Valid()
      ensures popups == (if closesOthers then [] else old(popups)) + [Popup(StartMode, todayMonth, todayYear)]
      ensures field == old(field) && endPending == old(endPending)
    {
      Open(StartMode, todayMonth, todayYear);
    }

    /**
     * A scheduled `openEndCalendar` fires (main.js:625-627, scheduled at 694): an end popup
     * opens on today's month, not on the month the start was picked in,
     * above any popup mounted meanwhile.
     */
    method EndTimerFires(todayMonth: int, todayYear: int)
      requires Valid() && 0 <= todayMonth <= 11
      modifies this
      ensures Valid()
      ensures old(endPending) > 0 ==>
        popups == (if closesOthers then [] else old(popups)) + [Popup(EndMode, todayMonth, todayYear)]
        && endPending == old(endPending) - 1
      ensures old(endPending) == 0 ==> popups == old(popups) && endPending == 0
      ensures field == old(field)
    {
      if endPending > 0 {
        endPending := endPending - 1;
        Open(EndMode, todayMonth, todayYear);
      }
    }

    /** Prev/Next in the top popup (main.js:656-676): its month moves by one, wrapping the year. */
    method Navigate(dir: Direction)
      requires Valid()
      modifies this
      ensures Valid()
      ensures field == old(field) && endPending == old(endPending) && |popups| == |old(popups)|
      ensures old(popups) == [] ==> popups == []
      ensures old(popups) != [] ==>
        var top := old(popups)[|old(popups)| - 1];
        var r := ShiftMonth(top.month, top.year, dir);
        popups == old(popups)[..|old(popups)| - 1] + [Popup(top.mode, r.0, r.1)]
    {
      if popups != [] {
        var top := popups[|popups| - 1];
        var r := ShiftMonth(top.month, top.year, dir);
        popups := popups[..|popups| - 1] + [Popup(top.mode, r.0, r.1)];
      }
    }

    /**
     * A click on a day cell of the top popup (main.js:681-702). A start popup
     * makes the field that day and schedules an end popup; an end popup
     * appends ` - ` and the day. Either way only the top popup is removed.
     * A cell without text does nothing.
     */
    method ClickDay(dayText: string)
      requires Valid()
      modifies this
      ensures Valid()
      ensures old(popups) == [] || dayText == "" ==>
        popups == old(popups) && field == old(field) && endPending == old(endPending)
      ensures old(popups) != [] && dayText != "" ==>
        var top := old(popups)[|old(popups)| - 1];
        var picked := PickText(top.month, dayText, top.year);
        popups == old(popups)[..|old(popups)| - 1]
        && (top.mode == StartMode ==> field == picked && endPending == old(endPending) + 1)
        && (top.mode == EndMode ==> field == old(field) + " - " + picked && endPending == old(endPending))
    {
      if popups == [] || dayText == "" {
        return;
      }
      var top := popups[|popups| - 1];
      var picked := PickText(top.month, dayText, top.year);
      popups := popups[..|popups| - 1];
      if top.mode == StartMode {
        field := picked;
        endPending := endPending + 1;
      } else {
        field := field + " - " + picked;
      }
    }

    /** A click on the top popup's backdrop (main.js:713-715) removes that popup and writes nothing. */
    method ClickOverlay()
      requires Valid()
      modifies this
      ensures Valid()
      ensures popups == (if old(popups) == [] then [] else old(popups)[..|old(popups)| - 1])
      ensures field == old(field) && endPending == old(endPending)
    {
      if popups != [] {
        popups := popups[..|popups| - 1];
      }
    }
  }

  /**
   * The whole interaction: open, pick a start day, the timer opens the end
   * popup, pick an end day. The field ends as `start - end`, each day written
   * with the month shown when it was clicked, and the popups are as before.
   */
  method PickRange(p: DatePicker, todayMonth: int, todayYear: int, startDay: string, endDay: string)
    returns (text: string)
    requires p.Valid() && 0 <= todayMonth <= 11 && startDay != "" && endDay != ""
    modifies p
    ensures p.Valid() && text == p.field
    ensures p.popups == (if p.closesOthers then [] else old(p.popups)) && p.endPending == old(p.endPending)
    ensures text == PickText(todayMonth, startDay, todayYear) + " - " + PickText(todayMonth, endDay, todayYear)
  {
    p.ClickField(todayMonth, todayYear);
    p.ClickDay(startDay);
    p.EndTimerFires(todayMonth, todayYear);
    p.ClickDay(endDay);
    text := p.field;
  }

  /**
   * The field clicked again while the end popup is still scheduled: the end
   * popup opens over the second start popup, and after the end day is picked
   * that start popup stays mounted.
   */
  method StalePopupAfterRange(todayMonth: int, todayYear: int, startDay: string, endDay: string)
    returns (mounted: seq<Popup>, text: string)
    requires 0 <= todayMonth <= 11 && startDay != "" && endDay != ""
    ensures mounted == [Popup(StartMode, todayMonth, todayYear)]
    ensures text == PickText(todayMonth, startDay, todayYear) + " - " + PickText(todayMonth, endDay, todayYear)
  {
    var p := new DatePicker(false);
    p.ClickField(todayMonth, todayYear);
    p.ClickDay(startDay);
    p.ClickField(todayMonth, todayYear);
    p.EndTimerFires(todayMonth, todayYear);
    p.ClickDay(endDay);
    mounted, text := p.popups, p.field;
  }

  /** The same clicks on the corrected picker leave no popup mounted and the same range in the field. */
  method NoStalePopupAfterRange(todayMonth: int, todayYear: int, startDay: string, endDay: string)
    returns (mounted: seq<Popup>, text: string)
    requires 0 <= todayMonth <= 11 && startDay != "" && endDay != ""
    ensures mounted == []
    ensures text == PickText(todayMonth, startDay, todayYear) + " - " + PickText(todayMonth, endDay, todayYear)
  {
    var p := new DatePicker(true);
    p.ClickField(todayMonth, todayYear);
    p.ClickDay(startDay);
    p.ClickField(todayMonth, todayYear);
    p.EndTimerFires(todayMonth, todayYear);
    p.ClickDay(endDay);
    mounted, text := p.popups, p.field;
  }
}
