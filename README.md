# Kodo puasa tracker — verified model of the day-tracking state machine

The app lets a user enter how many make-up fasting days ("kodo puasa") they
owe (1 to 365), then tick them off one per calendar day, in order, with a
celebration when the last one is done. All of its logic sits in the `App`
component of `src/App.jsx`: a list of `{ id, done }` days, the date of the
last tick, a screen `step`, an input error, the celebration flag and a
mutable "previous all done" flag, changed by three handlers (`handleStart`,
`handleReset`, `handleCheck`) and two effects (load at start-up, save after
every change of the list or the date).

The model has five modules:

- `Wrappers` — `Option`.
- `Days` — the `Day` value, `GenerateDays`, the derived values
  (`NextIndex` for `nextItem`, `LastDoneIndex` for the reverse find,
  `AllDone`, `TotalDone`), and the shape the tracker keeps (`Canonical s k`:
  ids are positions 1..n and exactly the first `k` days are done).
- `Checklist` — `Check`, the whole of `handleCheck` as a function on the
  record `{ data, lastCheckedDate }`, the `clickable` flag of the day list,
  and runs of clicks (`Run`).
- `Persistence` — the load effect (`Hydrate`) and the save effect
  (`SaveEffect`, which also schedules the celebration), and counting
  celebrations over a run of clicks.
- `Tracker` — class `App` with the component's state as fields (the list as
  an `array<Day>`), one method per handler and effect, and a client method
  walking through a three-day scenario.

The clock is a `today: Date` parameter of `HandleCheck`. The input box is
its text already run through `parseInt` (`SetupInput(empty, parsed)`, with
`None` for `NaN`). The storage entry is the field `stored: Option<Record>`
holding the already parsed record; a missing key and a parse failure are
both `None`, and a record without a `data` list has empty `data`. The
500 ms timer is the `congratsScheduled` result of `Save`; its callback is
`ShowCongrats`.

Behaviour of the code worth noting:

- The component has no name field. The only setup check is
  the day count, with a single error message.
- No handler checks `step`; the screens only hide the buttons.
- `handleCheck` writes `done` on every day carrying the clicked id (the
  `map` over the list), not on one position. Lists built by `GenerateDays`
  have unique ids, so there this is one day (`MarkSpec`, `UnmarkSpec`).
  A stored record with repeated ids could see several days change at once.
- Undoing a day clears `lastCheckedDate` whenever it equals today, whichever
  day was undone. The date of an older tick is kept.
- A stored `lastCheckedDate` of `""` loads as no date (`|| null`).

## Model

| member | source | states |
|---|---|---|
| `Days.GenerateDays` | src/App.jsx:6-11 | the list has exactly `total` days and day i (0-based) is `{id: i+1, done: false}` |
| `Days.FindFirst` | src/App.jsx:88 | `find`: the result is a position satisfying the predicate with none before it, or none exists at all |
| `Days.FindLast` | src/App.jsx:164 | reverse `find`: the result is a position satisfying the predicate with none after it, or none exists at all |
| `Days.TotalDone` | src/App.jsx:171 | the count is at most the length, equals the length exactly when every day is done, and is 0 exactly when no day is done |
| `Days.AllDoneAgrees` | src/App.jsx:85-88 | `allDone` holds exactly when the list is non-empty and has no next day, exactly when the done count is the length; then the last done day is the last day |
| `Days.GeneratedIsCanonical` | src/App.jsx:6-11 | a generated list has ids 1..n, nothing done, no done ids, unique ids, and is not all done |
| `Days.CanonicalTotal` | src/App.jsx:171 | on a prefix-shaped list with k days done, `totalDone` is k |
| `Days.CanonicalFacts` | src/App.jsx:84-88 | on a prefix-shaped list with k days done: ids are unique, the done ids are {1..k}, the next day is position k, the last done day is position k-1, id x is found at position x-1, and all done means 0 < k = n |
| `Days.CanonicalNext` | src/App.jsx:88 | on a prefix-shaped list, `nextItem` is position k when one is left |
| `Days.CanonicalLastDone` | src/App.jsx:164 | on a prefix-shaped list, the reverse find of a done day gives position k-1 when k > 0 |
| `Days.CanonicalIndexOfId` | src/App.jsx:153 | on a prefix-shaped list, looking up id x gives position x-1 for 1 <= x <= n and nothing otherwise |
| `Days.CanonicalDoneIds` | src/App.jsx:158-165 | on a prefix-shaped list, the set of done ids is {1..k} |
| `Checklist.UniqueIndexOfId` | src/App.jsx:153 | with unique ids, looking up a day's id finds that day |
| `Checklist.SetDoneOneSlot` | src/App.jsx:160 | with unique ids, the `map` of the handler rewrites exactly the one slot with the id |
| `Checklist.CheckFrame` | src/App.jsx:152-169 | for any record, a click keeps the length, changes only days carrying the clicked id and only their `done`, and either keeps the date, sets it to today, or clears a date equal to today |
| `Checklist.UnknownIdIsNoOp` | src/App.jsx:153-154 | an id not in the list leaves the record unchanged |
| `Checklist.GateBlocksMarks` | src/App.jsx:159 | once today is recorded, no click makes any undone day done |
| `Checklist.MarkSpec` | src/App.jsx:156-161 | with unique ids, clicking an undone day changes the record if and only if it is the first undone day and today is not recorded; then only that day becomes done and today is recorded |
| `Checklist.UnmarkSpec` | src/App.jsx:162-168 | with unique ids, clicking a done day changes the record if and only if it is the last done day; then only that day reverts, and the date is cleared if it equals today and kept otherwise |
| `Checklist.ClickableIffChanges` | src/App.jsx:311-317 | with unique ids, a day's `clickable` flag is true exactly when clicking it changes the record |
| `Checklist.MarkThenUnmark` | src/App.jsx:156-168 | on a prefix-shaped list, marking the next day and clicking it again gives back the original list with no date recorded |
| `Checklist.CheckOnCanonical` | src/App.jsx:152-169 | on a prefix-shaped list with k done, a click marks day k+1 (if today not recorded), reverts day k, or does nothing, and the list keeps its shape |
| `Checklist.RunKeepsCanonical` | src/App.jsx:152-169 | any sequence of clicks on a prefix-shaped list keeps its length and its prefix shape |
| `Checklist.GeneratedRunIsPrefix` | src/App.jsx:6-11 | after setup and any clicks, the list has n days, day i has id i+1, and the done ids are {1..k} for k <= n |
| `Checklist.SameDayAtMostOneMark` | src/App.jsx:159-167 | within one calendar day, any clicks leave at most one more day done than at the start of the day, and none more if today was already recorded |
| `Persistence.SaveThenLoad` | src/App.jsx:96-103 | a record written by the save effect loads back as the same record |
| `Persistence.ReloadNeverCelebrates` | src/App.jsx:102 | after a load, even of a complete record, the following save schedules no celebration and keeps the flag |
| `Persistence.FiredCountsCompletions` | src/App.jsx:124-128 | while the flag agrees with the list, the celebration is scheduled once for each click that completes the list and at no other time |
| `Persistence.CompletionIsLastMark` | src/App.jsx:85 | on a prefix-shaped list, a click completes it exactly when it marks the last day and today is not recorded |
| `Tracker.App.constructor` | src/App.jsx:75-81 | the first render: loading step, empty input and error, no days, no date, no celebration, flag false |
| `Tracker.App.Load` | src/App.jsx:91-113 | a stored record with a non-empty list is installed with its date normalised, the flag set to its `allDone`, and step tracker; otherwise only the step becomes setup |
| `Tracker.App.Save` | src/App.jsx:116-129 | for an empty list nothing changes; otherwise the record is written, the celebration is scheduled exactly when all days are done and the flag was false, and the flag becomes `allDone` |
| `Tracker.App.HandleStart` | src/App.jsx:131-138 | a valid count (non-empty, numeric, 1..365) installs a fresh generated list, clears the date, sets the flag to false and shows the tracker; an invalid one only sets the error message |
| `Tracker.App.HandleReset` | src/App.jsx:140-150 | the stored record is deleted; list, date, input, error and celebration are cleared, the flag is false and the step is setup |
| `Tracker.App.HandleCheck` | src/App.jsx:152-169 | the new list and date are exactly `Check` of the old ones for this id and today |
| `Tracker.App.MarkAll` | src/App.jsx:160 | the array afterwards is the old list with `done` set on every day carrying the id |
| `Tracker.App.SetInput` | src/App.jsx:212 | typing stores the new text and clears the error |
| `Tracker.App.ShowCongrats` | src/App.jsx:125 | the timer callback shows the completion screen |
| `Tracker.App.CloseCongrats` | src/App.jsx:194 | closing hides the completion screen |

## Left out

- Rendering, styling and animation (the `Confetti` and `CongratsCard` components and all framer-motion use). They are cosmetic and keep no invariant.
- `todayStr`: the clock and `toISOString`. `today` is a parameter of `HandleCheck`.
- `localStorage` and `JSON.parse`/`JSON.stringify`. The storage entry is the field `stored`, holding the parsed record. A parse failure is `None`, and so is a stored `null`. Stored records are assumed to hold `{id, done}` days, and a missing `data` list is modelled as an empty one.
- `parseInt`. The input is taken already parsed, as `SetupInput(empty, parsed)`.
- The 500 ms `setTimeout`. `Save` returns whether the celebration was scheduled. The callback is the separate method `ShowCongrats`, since nothing depends on when it runs.
- React's re-rendering. Each handler and each effect is one atomic method. A click runs the save effect only when it changed the list or the date, which is what `Fired` models. The effect also runs after setup, load and reset, and a user of the class calls `Save` for those.
- The progress percentage and the ring geometry (floating point). Only the integer `TotalDone` is modelled.
- The per-day flags `isPast` and `isFuture`. `isFuture` only chooses styles, and `isPast` is computed but never read.
