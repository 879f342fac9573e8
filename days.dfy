/** The list of make-up days and the values the component derives from it
    on every render: the next day to check, the last day done, whether all
    are done, and how many are done. */
module Days {
  import opened Wrappers

  /** One make-up day: `{ id, done }`. */
  datatype Day = Day(id: int, done: bool)

  /** `generateDays(total)`: days 1..total, none done. */
  function GenerateDays(total: nat): (r: seq<Day>)
    ensures |r| == total
    ensures forall i :: 0 <= i < total ==> r[i] == Day(i + 1, false)
  {
    if total == 0 then [] else GenerateDays(total - 1) + [Day(total, false)]
  }

  /** `Array.prototype.find`, as an index: the first position whose day satisfies `p`. */
  function FindFirst(s: seq<Day>, p: Day -> bool): (r: Option<nat>)
    ensures r.Some? ==> r.value < |s| && p(s[r.value])
    ensures r.Some? ==> forall j :: 0 <= j < r.value ==> !p(s[j])
    ensures r.None? ==> forall j :: 0 <= j < |s| ==> !p(s[j])
  {
    if s == [] then None
    else if p(s[0]) then Some(0)
    else match FindFirst(s[1..], p)
      case None => None
      case Some(j) => Some(j + 1)
  }

  /** `[...s].reverse().find(p)`, as an index: the last position whose day satisfies `p`. */
  function FindLast(s: seq<Day>, p: Day -> bool): (r: Option<nat>)
    ensures r.Some? ==> r.value < |s| && p(s[r.value])
    ensures r.Some? ==> forall j :: r.value < j < |s| ==> !p(s[j])
    ensures r.None? ==> forall j :: 0 <= j < |s| ==> !p(s[j])
  {
    if s == [] then None
    else if p(s[|s| - 1]) then Some(|s| - 1)
    else FindLast(s[..|s| - 1], p)
  }

  /** `data.find(d => d.id === id)` */
  function IndexOfId(s: seq<Day>, id: int): Option<nat>
  {
    FindFirst(s, (d: Day) => d.id == id)
  }

  /** `nextItem = data.find(i => !i.done)` */
  function NextIndex(s: seq<Day>): Option<nat>
  {
    FindFirst(s, (d: Day) => !d.done)
  }

  /** `lastDone = [...data].reverse().find(d => d.done)` */
  function LastDoneIndex(s: seq<Day>): Option<nat>
  {
    FindLast(s, (d: Day) => d.done)
  }

  /** `x?.id` for an optional position `x` of `s`. */
  function IdOf(s: seq<Day>, x: Option<nat>): Option<int>
    requires x.Some? ==> x.value < |s|
  {
    match x
    case None => None
    case Some(i) => Some(s[i].id)
  }

  /** `data.every(i => i.done)` (true of the empty list). */
  predicate EveryDone(s: seq<Day>)
  {
    forall i :: 0 <= i < |s| ==> s[i].done
  }

  /** `allDone = data.length > 0 && data.every(i => i.done)` */
  predicate AllDone(s: seq<Day>)
  {
    |s| > 0 && EveryDone(s)
  }

  /** `totalDone = data.filter(i => i.done).length` */
  function TotalDone(s: seq<Day>): (r: nat)
    ensures r <= |s|
    ensures r == |s| <==> EveryDone(s)
    ensures r == 0 <==> forall i :: 0 <= i < |s| ==> !s[i].done
  {
    if s == [] then 0
    else
      var init := s[..|s| - 1];
      assert forall i :: 0 <= i < |init| ==> init[i] == s[i];
      TotalDone(init) + (if s[|s| - 1].done then 1 else 0)
  }

  /** The ids of the days that are done. */
  function DoneIds(s: seq<Day>): set<int>
  {
    set i | 0 <= i < |s| && s[i].done :: s[i].id
  }

  /** No two days share an id. */
  predicate UniqueIds(s: seq<Day>)
  {
    forall i, j :: 0 <= i < j < |s| ==> s[i].id != s[j].id
  }

  /** The shape the tracker keeps: every id is its 1-based position and the
      days done are exactly the first `k`. */
  predicate Canonical(s: seq<Day>, k: nat)
  {
    k <= |s| && forall i :: 0 <= i < |s| ==> s[i] == Day(i + 1, i < k)
  }

  /** A freshly generated list has the tracker's shape with nothing done. */
  lemma GeneratedIsCanonical(n: nat)
    ensures Canonical(GenerateDays(n), 0)
    ensures UniqueIds(GenerateDays(n)) && TotalDone(GenerateDays(n)) == 0
    ensures !AllDone(GenerateDays(n)) && DoneIds(GenerateDays(n)) == {}
  {
  }

  /** Counting the done days of a canonical list. */
  lemma {:induction false} CanonicalTotal(s: seq<Day>, k: nat)
    requires Canonical(s, k)
    ensures TotalDone(s) == k
  {
    if s != [] {
      var init := s[..|s| - 1];
      var k' := if k < |s| then k else |s| - 1;
      assert Canonical(init, k');
      CanonicalTotal(init, k');
    }
  }

  /** On a canonical list with `k` days done, the derived values are exactly
      what the prefix shape says: the next day is day k+1, the last done day is
      day k, id x sits at position x-1, and the done ids are {1..k}. */
  lemma CanonicalFacts(s: seq<Day>, k: nat)
    requires Canonical(s, k)
    ensures UniqueIds(s)
    ensures TotalDone(s) == k
    ensures forall x :: x in DoneIds(s) <==> 1 <= x <= k
    ensures NextIndex(s) == if k < |s| then Some(k) else None
    ensures LastDoneIndex(s) == if k > 0 then Some(k - 1) else None
    ensures forall id :: IndexOfId(s, id) == if 1 <= id <= |s| then Some(id - 1) else None
    ensures AllDone(s) <==> 0 < k == |s|
  {
    CanonicalTotal(s, k);
    CanonicalDoneIds(s, k);
    CanonicalNext(s, k);
    CanonicalLastDone(s, k);
    CanonicalIndexOfId(s, k);
  }

  lemma CanonicalDoneIds(s: seq<Day>, k: nat)
    requires Canonical(s, k)
    ensures forall x :: x in DoneIds(s) <==> 1 <= x <= k
  {
    forall x | 1 <= x <= k ensures x in DoneIds(s) {
      assert s[x - 1].id == x && s[x - 1].done;
    }
  }

  lemma CanonicalNext(s: seq<Day>, k: nat)
    requires Canonical(s, k)
    ensures NextIndex(s) == if k < |s| then Some(k) else None
  {
    if k < |s| {
      assert !s[k].done;
    }
  }

  lemma CanonicalLastDone(s: seq<Day>, k: nat)
    requires Canonical(s, k)
    ensures LastDoneIndex(s) == if k > 0 then Some(k - 1) else None
  {
    if k > 0 {
      assert s[k - 1].done;
    }
  }

  lemma CanonicalIndexOfId(s: seq<Day>, k: nat)
    requires Canonical(s, k)
    ensures forall id :: IndexOfId(s, id) == if 1 <= id <= |s| then Some(id - 1) else None
  {
    forall id ensures IndexOfId(s, id) == if 1 <= id <= |s| then Some(id - 1) else None {
      if 1 <= id <= |s| {
        assert s[id - 1].id == id;
      }
    }
  }

  /** The derived values agree with one another: the list is complete exactly
      when it is non-empty and there is no next day, exactly when every day is
      counted as done. */
  lemma AllDoneAgrees(s: seq<Day>)
    ensures AllDone(s) <==> |s| > 0 && NextIndex(s).None?
    ensures AllDone(s) <==> |s| > 0 && TotalDone(s) == |s|
    ensures AllDone(s) ==> LastDoneIndex(s) == Some(|s| - 1)
  {
  }
}
