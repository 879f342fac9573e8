/** The check handler of the tracker as a function on the record it reads and
    writes, the per-day `clickable` flag of the day list, and what any
    sequence of clicks can and cannot do to the list. */
module Checklist {
  import opened Wrappers
  import opened Days

  /** A calendar day, as the `YYYY-MM-DD` string the clock yields. */
  type Date = string

  /** `{ data, lastCheckedDate }`: the part of the component state the check
      handler reads and writes, and also the record kept in storage. */
  datatype Record = Record(data: seq<Day>, lastCheckedDate: Option<Date>)

  /** `alreadyCheckedToday = lastCheckedDate === today` */
  predicate AlreadyCheckedToday(last: Option<Date>, today: Date)
  {
    last == Some(today)
  }

  /** `prev.map(d => d.id === id ? { ...d, done } : d)` */
  function SetDone(s: seq<Day>, id: int, done: bool): seq<Day>
  {
    seq(|s|, i requires 0 <= i < |s| => if s[i].id == id then s[i].(done := done) else s[i])
  }

  /** `handleCheck(id)` on the day `today`: mark the next undone day at most
      once per calendar day, or revert the last done day; anything else
      leaves the record as it is. */
  function Check(r: Record, id: int, today: Date): Record
  {
    match IndexOfId(r.data, id)
    case None => r
    case Some(i) =>
      if !r.data[i].done then
        if IdOf(r.data, NextIndex(r.data)) != Some(r.data[i].id) then r
        else if AlreadyCheckedToday(r.lastCheckedDate, today) then r
        else Record(SetDone(r.data, id, true), Some(today))
      else if IdOf(r.data, LastDoneIndex(r.data)) != Some(id) then r
      else Record(SetDone(r.data, id, false),
                  if AlreadyCheckedToday(r.lastCheckedDate, today) then None else r.lastCheckedDate)
  }

  /** The `clickable` flag the day list computes for `item`. */
  predicate Clickable(r: Record, item: Day, today: Date)
  {
    var isNext := IdOf(r.data, NextIndex(r.data)) == Some(item.id);
    var canUncheck := item.done && IdOf(r.data, LastDoneIndex(r.data)) == Some(item.id);
    (!item.done && isNext && !AlreadyCheckedToday(r.lastCheckedDate, today)) || (item.done && canUncheck)
  }

  /** With unique ids, looking a day up by its id finds that day. */
  lemma UniqueIndexOfId(s: seq<Day>, i: nat)
    requires UniqueIds(s) && i < |s|
    ensures IndexOfId(s, s[i].id) == Some(i)
  {
  }

  /** With unique ids, the `map` in the handler rewrites exactly one slot. */
  lemma SetDoneOneSlot(s: seq<Day>, i: nat, done: bool)
    requires UniqueIds(s) && i < |s|
    ensures SetDone(s, s[i].id, done) == s[i := s[i].(done := done)]
  {
  }

  /** Whatever the record, a check keeps the list length, changes only days
      carrying the clicked id and only their `done` flag, and either keeps
      `lastCheckedDate`, sets it to today, or clears a date equal to today. */
  lemma CheckFrame(r: Record, id: int, today: Date)
    ensures var r' := Check(r, id, today);
      |r'.data| == |r.data| &&
      (forall i :: 0 <= i < |r.data| && r'.data[i] != r.data[i] ==>
         r.data[i].id == id && r'.data[i] == r.data[i].(done := !r.data[i].done)) &&
      (r'.lastCheckedDate == r.lastCheckedDate || r'.lastCheckedDate == Some(today) ||
       (r'.lastCheckedDate == None && r.lastCheckedDate == Some(today)))
  {
  }

  /** An id that is not in the list is always a no-op. */
  lemma UnknownIdIsNoOp(r: Record, id: int, today: Date)
    requires forall i :: 0 <= i < |r.data| ==> r.data[i].id != id
    ensures Check(r, id, today) == r
  {
  }

  /** Once today's mark is made, no click on the same day marks another day:
      the daily gate. */
  lemma GateBlocksMarks(r: Record, id: int, today: Date)
    requires AlreadyCheckedToday(r.lastCheckedDate, today)
    ensures var r' := Check(r, id, today);
      forall i :: 0 <= i < |r.data| && !r.data[i].done ==> !r'.data[i].done
  {
  }

  /** Marking a day that is not done: it happens exactly when the day is the
      first undone one and nothing was checked today, and then that day alone
      becomes done and today is recorded. */
  lemma MarkSpec(r: Record, i: nat, today: Date)
    requires UniqueIds(r.data) && i < |r.data| && !r.data[i].done
    ensures var r' := Check(r, r.data[i].id, today);
      (r' != r <==> NextIndex(r.data) == Some(i) && !AlreadyCheckedToday(r.lastCheckedDate, today)) &&
      (r' != r ==> r'.data == r.data[i := r.data[i].(done := true)] && r'.lastCheckedDate == Some(today))
  {
  }

  /** Reverting a day that is done: it happens exactly when the day is the
      last done one, and then that day alone reverts; a date equal to today is
      cleared and any other date is kept. */
  lemma UnmarkSpec(r: Record, i: nat, today: Date)
    requires UniqueIds(r.data) && i < |r.data| && r.data[i].done
    ensures var r' := Check(r, r.data[i].id, today);
      (r' != r <==> LastDoneIndex(r.data) == Some(i)) &&
      (r' != r ==> r'.data == r.data[i := r.data[i].(done := false)] &&
                   r'.lastCheckedDate == if AlreadyCheckedToday(r.lastCheckedDate, today) then None else r.lastCheckedDate)
  {
  }

  /** The `clickable` flag of a day is true exactly when clicking it would
      change the record. */
  lemma ClickableIffChanges(r: Record, i: nat, today: Date)
    requires UniqueIds(r.data) && i < |r.data|
    ensures Clickable(r, r.data[i], today) <==> Check(r, r.data[i].id, today) != r
  {
  }

  /** On a canonical list, undoing a mark straight away gives back the list
      as it was, with the daily gate open again. */
  lemma MarkThenUnmark(r: Record, k: nat, today: Date)
    requires Canonical(r.data, k) && k < |r.data|
    requires !AlreadyCheckedToday(r.lastCheckedDate, today)
    ensures Check(r, k + 1, today).lastCheckedDate == Some(today)
    ensures Check(Check(r, k + 1, today), k + 1, today) == Record(r.data, None)
  {
    CheckOnCanonical(r, k, k + 1, today);
    CheckOnCanonical(Check(r, k + 1, today), k + 1, k + 1, today);
  }

  /** The number of days done on a canonical list after a click on `id`, when
      `k` were done before. */
  function NextCount(r: Record, k: nat, id: int, today: Date): nat
  {
    if id == k + 1 && k < |r.data| && !AlreadyCheckedToday(r.lastCheckedDate, today) then k + 1
    else if id == k && k > 0 then k - 1
    else k
  }

  /** On a canonical list with `k` days done, a click does exactly one of
      three things: marks day k+1 (when nothing was checked today), reverts
      day k, or nothing; the list stays canonical. */
  lemma CheckOnCanonical(r: Record, k: nat, id: int, today: Date)
    requires Canonical(r.data, k)
    ensures Canonical(Check(r, id, today).data, NextCount(r, k, id, today))
    ensures var r' := Check(r, id, today);
      if id == k + 1 && k < |r.data| && !AlreadyCheckedToday(r.lastCheckedDate, today) then
        Canonical(r'.data, k + 1) && r'.lastCheckedDate == Some(today)
      else if id == k && k > 0 then
        Canonical(r'.data, k - 1) &&
        r'.lastCheckedDate == if AlreadyCheckedToday(r.lastCheckedDate, today) then None else r.lastCheckedDate
      else r' == r
  {
    CanonicalFacts(r.data, k);
    if 1 <= id <= |r.data| {
      var i := id - 1;
      assert r.data[i].id == id;
      if r.data[i].done {
        UnmarkSpec(r, i, today);
      } else {
        MarkSpec(r, i, today);
      }
    }
  }

  /** One click of the user: the id of the day tapped and the date it happened. */
  datatype Click = Click(id: int, today: Date)

  /** The record after a sequence of clicks. */
  function Run(r: Record, clicks: seq<Click>): Record
    decreases |clicks|
  {
    if clicks == [] then r else Run(Check(r, clicks[0].id, clicks[0].today), clicks[1..])
  }

  /** Starting from a canonical list, any sequence of clicks keeps the length,
      keeps every id at its position, and keeps the done days a prefix. */
  lemma {:induction false} RunKeepsCanonical(r: Record, k: nat, clicks: seq<Click>)
    requires Canonical(r.data, k)
    ensures var r' := Run(r, clicks); |r'.data| == |r.data| && Canonical(r'.data, TotalDone(r'.data))
    decreases |clicks|
  {
    if clicks == [] {
      CanonicalTotal(r.data, k);
    } else {
      var r1 := Check(r, clicks[0].id, clicks[0].today);
      CheckOnCanonical(r, k, clicks[0].id, clicks[0].today);
      var k1 := NextCount(r, k, clicks[0].id, clicks[0].today);
      RunKeepsCanonical(r1, k1, clicks[1..]);
    }
  }

  /** The list a fresh setup gives stays of that length, with ids 1..n in order
      and the done ids exactly {1..k}, whatever the user clicks. */
  lemma GeneratedRunIsPrefix(n: nat, clicks: seq<Click>)
    ensures var r := Run(Record(GenerateDays(n), None), clicks);
      var k := TotalDone(r.data);
      |r.data| == n && k <= n &&
      (forall i :: 0 <= i < n ==> r.data[i].id == i + 1) &&
      (forall x :: x in DoneIds(r.data) <==> 1 <= x <= k)
  {
    GeneratedIsCanonical(n);
    var start := Record(GenerateDays(n), None);
    RunKeepsCanonical(start, 0, clicks);
    var r := Run(start, clicks);
    CanonicalFacts(r.data, TotalDone(r.data));
  }

  /** What a day's clicks may still add: the count done, plus one while
      today's mark has not been made. */
  function Allowance(r: Record, today: Date): nat
  {
    TotalDone(r.data) + if AlreadyCheckedToday(r.lastCheckedDate, today) then 0 else 1
  }

  /** Within one calendar day, however the user clicks, at most one more day
      ends up done than at the start of the day, and none more if today's mark
      was already made. */
  lemma {:induction false} SameDayAtMostOneMark(r: Record, k: nat, today: Date, clicks: seq<Click>)
    requires Canonical(r.data, k)
    requires forall c :: c in clicks ==> c.today == today
    ensures Allowance(Run(r, clicks), today) <= Allowance(r, today)
    ensures TotalDone(Run(r, clicks).data) <= k + 1
    ensures AlreadyCheckedToday(r.lastCheckedDate, today) ==> TotalDone(Run(r, clicks).data) <= k
    decreases |clicks|
  {
    CanonicalTotal(r.data, k);
    if clicks != [] {
      assert clicks[0] in clicks;
      var r1 := Check(r, clicks[0].id, today);
      CheckOnCanonical(r, k, clicks[0].id, today);
      var k1 := NextCount(r, k, clicks[0].id, clicks[0].today);
      CanonicalTotal(r1.data, k1);
      assert Allowance(r1, today) <= Allowance(r, today);
      assert forall c :: c in clicks[1..] ==> c in clicks;
      SameDayAtMostOneMark(r1, k1, today, clicks[1..]);
    }
  }
}
