/** The `App` component's state and its handlers and effects, as a class
    whose methods update the fields the way the component's setters do. The
    clock's `today`, the parsed text of the input box and the storage entry
    come in as parameters or fields. */
module Tracker {
  import opened Wrappers
  import opened Days
  import opened Checklist
  import opened Persistence

  /** `step`: `"loading"`, `"setup"` or `"tracker"`. */
  datatype Step = Loading | Setup | Tracking

  /** The setup input box: whether its text is empty, and what `parseInt`
      makes of it (`None` for `NaN`). */
  datatype SetupInput = SetupInput(empty: bool, parsed: Option<int>)

  /** The text of an empty input box. */
  const EmptyInput := SetupInput(true, None)

  const MinDays := 1
  const MaxDays := 365

  /** The message shown for a rejected day count. */
  const InvalidDayCount := "Masukkan angka antara 1 hingga 365"

  /** The day count `handleStart` accepts: a non-empty, numeric input between
      1 and 365. */
  predicate ValidDayCount(input: SetupInput)
  {
    !input.empty && input.parsed.Some? && MinDays <= input.parsed.value <= MaxDays
  }

  class App {
    var step: Step
    var input: SetupInput
    var inputError: string
    var data: array<Day>
    var lastCheckedDate: Option<Date>
    var showCongrats: bool
    /** `prevAllDoneRef.current` */
    var prevAllDone: bool
    /** The `"puasa-data"` entry of the browser's storage, already parsed. */
    var stored: Option<Record>

    /** The day list as a value. */
    function DayList(): seq<Day>
      reads this, data
    {
      data[..]
    }

    /** The record the check handler and the save effect work on. */
    function Current(): Record
      reads this, data
    {
      Record(data[..], lastCheckedDate)
    }

    /** The first render, before the load effect has run. */
    constructor (storage: Option<Record>)
      ensures step == Loading && input == EmptyInput && inputError == ""
      ensures DayList() == [] && lastCheckedDate == None
      ensures !showCongrats && !prevAllDone && stored == storage
    {
      step := Loading;
      input := EmptyInput;
      inputError := "";
      data := new Day[0];
      lastCheckedDate := None;
      showCongrats := false;
      prevAllDone := false;
      stored := storage;
    }

    /** The load effect: hydrate from a stored record with a non-empty list
        and go to the tracker, or go to setup. */
    method Load()
      modifies this
      ensures old(stored).Some? && |old(stored).value.data| > 0 ==>
        fresh(data) && DayList() == old(stored).value.data &&
        lastCheckedDate == NormalizeDate(old(stored).value.lastCheckedDate) &&
        prevAllDone == AllDone(DayList()) && step == Tracking
      ensures old(stored).None? || |old(stored).value.data| == 0 ==>
        step == Setup && data == old(data) && lastCheckedDate == old(lastCheckedDate) &&
        prevAllDone == old(prevAllDone)
      ensures input == old(input) && inputError == old(inputError)
      ensures showCongrats == old(showCongrats) && stored == old(stored)
    {
      match Hydrate(stored)
      case Some(h) =>
        var s := h.data;
        data := new Day[|s|](i requires 0 <= i < |s| => s[i]);
        lastCheckedDate := h.lastCheckedDate;
        prevAllDone := EveryDone(s);
        step := Tracking;
      case None =>
        step := Setup;
    }

    /** The save effect, run after a change of the list or of the date: write
        the record unless the list is empty, and schedule the celebration on
        the false-to-true edge of "all done". */
    method Save() returns (congratsScheduled: bool)
      modifies this`stored, this`prevAllDone
      ensures var e := SaveEffect(old(Current()), old(prevAllDone));
        congratsScheduled == e.congrats && prevAllDone == e.prevAllDone &&
        stored == (if e.write.Some? then e.write else old(stored))
      ensures congratsScheduled <==> AllDone(DayList()) && !old(prevAllDone)
      ensures DayList() != [] ==> stored == Some(Current()) && prevAllDone == AllDone(DayList())
    {
      if data.Length == 0 {
        return false;
      }
      stored := Some(Record(data[..], lastCheckedDate));
      var all := AllDone(data[..]);
      congratsScheduled := all && !prevAllDone;
      prevAllDone := all;
    }

    /** `handleStart`: on a valid day count, install a fresh list of that many
        days and go to the tracker; otherwise only set the error message. */
    method HandleStart()
      modifies this
      ensures ValidDayCount(input) ==>
        fresh(data) && DayList() == GenerateDays(input.parsed.value) && lastCheckedDate == None &&
        !prevAllDone && !AllDone(DayList()) && step == Tracking && inputError == old(inputError)
      ensures !ValidDayCount(input) ==>
        inputError == InvalidDayCount && data == old(data) && lastCheckedDate == old(lastCheckedDate) &&
        prevAllDone == old(prevAllDone) && step == old(step)
      ensures input == old(input) && showCongrats == old(showCongrats) && stored == old(stored)
    {
      if input.empty || input.parsed.None? || input.parsed.value < MinDays || input.parsed.value > MaxDays {
        inputError := InvalidDayCount;
        return;
      }
      var days := GenerateDays(input.parsed.value);
      assert !days[0].done;
      data := new Day[|days|](i requires 0 <= i < |days| => days[i]);
      lastCheckedDate := None;
      prevAllDone := false;
      step := Tracking;
    }

    /** `handleReset`: delete the stored record and return to an empty setup
        screen. */
    method HandleReset()
      modifies this
      ensures stored == None && fresh(data) && DayList() == [] && lastCheckedDate == None
      ensures input == EmptyInput && inputError == "" && !showCongrats && !prevAllDone
      ensures step == Setup
    {
      stored := None;
      data := new Day[0];
      lastCheckedDate := None;
      input := EmptyInput;
      inputError := "";
      showCongrats := false;
      prevAllDone := false;
      step := Setup;
    }

    /** `handleCheck(id)` on the day `today`. */
    method HandleCheck(id: int, today: Date)
      modifies data, this`lastCheckedDate
      ensures Current() == Check(old(Current()), id, today)
    {
      var days := data[..];
      var found := IndexOfId(days, id);
      if found.None? {
        return;
      }
      var item := days[found.value];
      if !item.done {
        if IdOf(days, NextIndex(days)) != Some(item.id) {
          return;
        }
        if AlreadyCheckedToday(lastCheckedDate, today) {
          return;
        }
        MarkAll(id, true);
        lastCheckedDate := Some(today);
      } else {
        if IdOf(days, LastDoneIndex(days)) != Some(id) {
          return;
        }
        MarkAll(id, false);
        if AlreadyCheckedToday(lastCheckedDate, today) {
          lastCheckedDate := None;
        }
      }
    }

    /** The `map` in `handleCheck`: set `done` on every day carrying `id`. */
    method MarkAll(id: int, done: bool)
      modifies data
      ensures DayList() == SetDone(old(DayList()), id, done)
    {
      for i := 0 to data.Length
        invariant forall j :: 0 <= j < i ==>
          data[j] == if old(data[j]).id == id then old(data[j]).(done := done) else old(data[j])
        invariant forall j :: i <= j < data.Length ==> data[j] == old(data[j])
      {
        if data[i].id == id {
          data[i] := data[i].(done := done);
        }
      }
    }

    /** Typing in the input box: store the new text and clear the error. */
    method SetInput(text: SetupInput)
      modifies this`input, this`inputError
      ensures input == text && inputError == ""
    {
      input := text;
      inputError := "";
    }

    /** The scheduled timer firing, or the "all done" banner being tapped. */
    method ShowCongrats()
      modifies this`showCongrats
      ensures showCongrats
    {
      showCongrats := true;
    }

    /** Closing the completion screen. */
    method CloseCongrats()
      modifies this`showCongrats
      ensures !showCongrats
    {
      showCongrats := false;
    }
  }

  /** A client of the class: three days set up on an empty storage, clicked
      through two calendar days `d1` and `d2`. */
  method ThreeDayScenario(d1: Date, d2: Date)
    requires d1 != d2
  {
    var app := new App(None);
    app.Load();
    assert app.step == Setup;
    app.SetInput(SetupInput(false, Some(3)));
    app.HandleStart();
    var r0 := app.Current();
    assert Canonical(r0.data, 0) && r0.lastCheckedDate == None;
    var fired := app.Save();
    assert !fired && app.stored == Some(r0);

    CheckOnCanonical(r0, 0, 1, d1);
    app.HandleCheck(1, d1);
    var r1 := app.Current();
    assert Canonical(r1.data, 1) && r1.lastCheckedDate == Some(d1);

    // the daily gate: day 2 cannot be marked on the same date
    CheckOnCanonical(r1, 1, 2, d1);
    app.HandleCheck(2, d1);
    assert app.Current() == r1;

    CheckOnCanonical(r1, 1, 2, d2);
    app.HandleCheck(2, d2);
    var r2 := app.Current();
    assert Canonical(r2.data, 2) && r2.lastCheckedDate == Some(d2);

    // reverting day 2 on d2 clears the date, so day 2 can be marked again
    CheckOnCanonical(r2, 2, 2, d2);
    app.HandleCheck(2, d2);
    assert Canonical(app.DayList(), 1) && app.lastCheckedDate == None;

    app.HandleReset();
    app.Load();
    assert app.step == Setup && app.DayList() == [];
  }
}
