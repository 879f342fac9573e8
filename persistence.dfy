/** The two effects of the component as functions: loading the stored record
    at start-up, and saving after every change, which is also where the
    completion celebration is scheduled. */
module Persistence {
  import opened Wrappers
  import opened Days
  import opened Checklist

  /** `s.lastCheckedDate || null`: an empty date string reads as no date. */
  function NormalizeDate(d: Option<Date>): Option<Date>
  {
    if d == Some("") then None else d
  }

  /** The load effect's decision. `stored` is the storage entry after parsing
      (`None` for a missing key or a parse failure, empty `data` for a record
      without a `data` list); the result is the record to hydrate, or `None`
      when the component must go to the setup screen. */
  function Hydrate(stored: Option<Record>): Option<Record>
  {
    match stored
    case None => None
    case Some(s) =>
      if |s.data| > 0 then Some(Record(s.data, NormalizeDate(s.lastCheckedDate))) else None
  }

  /** What one run of the save effect does: the record it writes (if any),
      whether it schedules the celebration, and the new "previous all done"
      flag. */
  datatype Effect = Effect(write: Option<Record>, congrats: bool, prevAllDone: bool)

  /** The save effect on state `r` with the flag `prev`: nothing at all for an
      empty list; otherwise write the record, celebrate on a false-to-true edge
      of "all done", and remember "all done". */
  function SaveEffect(r: Record, prev: bool): Effect
  {
    if |r.data| == 0 then Effect(None, false, prev)
    else
      var all := AllDone(r.data);
      Effect(Some(r), all && !prev, all)
  }

  /** Saving and loading again gives back the same record (a date is never the
      empty string, since the clock yields `YYYY-MM-DD`). */
  lemma SaveThenLoad(r: Record, prev: bool)
    requires |r.data| > 0 && r.lastCheckedDate != Some("")
    ensures Hydrate(SaveEffect(r, prev).write) == Some(r)
  {
  }

  /** Hydrating a record sets the flag to `every(done)` of that record, so
      the save that follows a load never celebrates, even for a record that is
      already complete. */
  lemma ReloadNeverCelebrates(stored: Option<Record>)
    requires Hydrate(stored).Some?
    ensures var h := Hydrate(stored).value;
      !SaveEffect(h, EveryDone(h.data)).congrats &&
      SaveEffect(h, EveryDone(h.data)).prevAllDone == EveryDone(h.data)
  {
  }

  /** How many times the celebration is scheduled over a sequence of clicks:
      the save effect runs after each click that changed the state. */
  function Fired(r: Record, prev: bool, clicks: seq<Click>): nat
    decreases |clicks|
  {
    if clicks == [] then 0
    else
      var r' := Check(r, clicks[0].id, clicks[0].today);
      if r' == r then Fired(r, prev, clicks[1..])
      else
        var e := SaveEffect(r', prev);
        (if e.congrats then 1 else 0) + Fired(r', e.prevAllDone, clicks[1..])
  }

  /** How many clicks of a sequence take the list from not complete to complete. */
  function Completions(r: Record, clicks: seq<Click>): nat
    decreases |clicks|
  {
    if clicks == [] then 0
    else
      var r' := Check(r, clicks[0].id, clicks[0].today);
      (if !AllDone(r.data) && AllDone(r'.data) then 1 else 0) + Completions(r', clicks[1..])
  }

  /** The celebration is edge-triggered: when the flag agrees with the list
      (as it does after setup, reset, load and every save), it is scheduled
      exactly once for each click that completes the list, and never
      otherwise. */
  lemma {:induction false} FiredCountsCompletions(r: Record, prev: bool, clicks: seq<Click>)
    requires prev == AllDone(r.data)
    ensures Fired(r, prev, clicks) == Completions(r, clicks)
    decreases |clicks|
  {
    if clicks != [] {
      var r' := Check(r, clicks[0].id, clicks[0].today);
      CheckFrame(r, clicks[0].id, clicks[0].today);
      if r' == r {
        FiredCountsCompletions(r, prev, clicks[1..]);
      } else {
        var e := SaveEffect(r', prev);
        FiredCountsCompletions(r', e.prevAllDone, clicks[1..]);
      }
    }
  }

  /** On a canonical list with `k` days done, a click completes the list
      exactly when it marks the last day and today's mark was not yet made. */
  lemma CompletionIsLastMark(r: Record, k: nat, id: int, today: Date)
    requires Canonical(r.data, k)
    ensures var r' := Check(r, id, today);
      (!AllDone(r.data) && AllDone(r'.data)) <==>
      (k + 1 == |r.data| && id == |r.data| && !AlreadyCheckedToday(r.lastCheckedDate, today))
  {
    CheckOnCanonical(r, k, id, today);
    CanonicalFacts(r.data, k);
    var r' := Check(r, id, today);
    CanonicalFacts(r'.data, NextCount(r, k, id, today));
  }
}
