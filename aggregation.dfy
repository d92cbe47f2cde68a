/**
 * Selecting the stints of one local date, clipping them to the date's
 * window and summing the clipped lengths (`stints_by_date`,
 * `hours_by_date`), and the order in which `liststints` shows them.
 * Totals are in seconds.
 */
module Aggregation {
  import opened TimeModel
  import opened Records

  /**
   * The selection of `stints_by_date`: the start or the end lies strictly
   * inside the window. Both ends are strict, so a stint that covers the
   * whole window is not selected.
   */
  predicate Selected(s: Stint, w: Window) {
    (w.earliest < s.start < w.latest) || (w.earliest < s.end < w.latest)
  }

  /** The stints of a local date, in store order. */
  function StintsByDate(stints: seq<Stint>, date: Date, offset: Offset): (r: seq<Stint>)
    ensures forall s :: multiset(r)[s] == (if Selected(s, DateLimits(date, offset)) then multiset(stints)[s] else 0)
    ensures forall s :: s in r ==> Selected(s, DateLimits(date, offset))
  {
    if |stints| == 0 then []
    else
      var rest := StintsByDate(stints[1..], date, offset);
      assert stints == [stints[0]] + stints[1..];
      if Selected(stints[0], DateLimits(date, offset)) then [stints[0]] + rest else rest
  }

  /** The part of a stint that lies inside the window: `min(latest, end) - max(earliest, start)`. */
  function Contribution(s: Stint, w: Window): (c: int)
    ensures Selected(s, w) && s.start <= s.end && w.earliest <= w.latest ==>
      0 <= c <= s.end - s.start && c <= w.latest - w.earliest
  {
    Min(w.latest, s.end) - Max(w.earliest, s.start)
  }

  function Min(a: int, b: int): int { if a <= b then a else b }
  function Max(a: int, b: int): int { if a <= b then b else a }

  /** The sum of the clipped contributions of some stints. */
  function Total(stints: seq<Stint>, w: Window): int {
    if |stints| == 0 then 0 else Contribution(stints[0], w) + Total(stints[1..], w)
  }

  /** The summed lengths of some stints, unclipped. */
  function Length(stints: seq<Stint>): int {
    if |stints| == 0 then 0 else stints[0].end - stints[0].start + Length(stints[1..])
  }

  /** The stints of the store that the date selects start no later than they end. */
  predicate SelectedWellFormed(stints: seq<Stint>, w: Window) {
    forall s :: s in stints && Selected(s, w) ==> s.start <= s.end
  }

  /** `hours_by_date`, in seconds: the clipped lengths of the date's stints, summed. */
  function HoursByDate(stints: seq<Stint>, date: Date, offset: Offset): (seconds: int)
    ensures (forall s :: s in stints ==> !Selected(s, DateLimits(date, offset))) ==> seconds == 0
    ensures SelectedWellFormed(stints, DateLimits(date, offset)) ==>
      0 <= seconds <= Length(StintsByDate(stints, date, offset))
      && seconds <= |StintsByDate(stints, date, offset)| * SECONDS_PER_DAY
  {
    TotalFacts(stints, date, offset);
    Total(StintsByDate(stints, date, offset), DateLimits(date, offset))
  }

  lemma TotalFacts(stints: seq<Stint>, date: Date, offset: Offset)
    ensures var w := DateLimits(date, offset);
            var selected := StintsByDate(stints, date, offset);
            ((forall s :: s in stints ==> !Selected(s, w)) ==> Total(selected, w) == 0)
            && (SelectedWellFormed(stints, w) ==>
                  0 <= Total(selected, w) <= Length(selected)
                  && Total(selected, w) <= |selected| * SECONDS_PER_DAY)
  {
    var w := DateLimits(date, offset);
    var selected := StintsByDate(stints, date, offset);
    forall i | 0 <= i < |selected| ensures selected[i] in stints && Selected(selected[i], w) {
      assert multiset(selected)[selected[i]] > 0;
    }
    if SelectedWellFormed(stints, w) {
      TotalBounds(selected, w);
    }
    if |selected| > 0 {
      assert selected[0] in stints && Selected(selected[0], w);
    }
  }

  /** Each selected, well-formed stint adds between nothing and its own length, and at most a day. */
  lemma {:induction false} TotalBounds(sel: seq<Stint>, w: Window)
    requires w.latest - w.earliest == SECONDS_PER_DAY
    requires forall i :: 0 <= i < |sel| ==> sel[i].start <= sel[i].end && Selected(sel[i], w)
    ensures 0 <= Total(sel, w) <= Length(sel)
    ensures Total(sel, w) <= |sel| * SECONDS_PER_DAY
  {
    if |sel| > 0 {
      TotalBounds(sel[1..], w);
    }
  }

  lemma {:induction false} TotalAppend(a: seq<Stint>, b: seq<Stint>, w: Window)
    ensures Total(a + b, w) == Total(a, w) + Total(b, w)
  {
    if |a| > 0 {
      assert (a + b)[1..] == a[1..] + b;
      TotalAppend(a[1..], b, w);
    } else {
      assert a + b == b;
    }
  }

  /** The order in which the stints come back does not change the total. */
  lemma {:induction false} TotalPermutation(a: seq<Stint>, b: seq<Stint>, w: Window)
    requires multiset(a) == multiset(b)
    ensures Total(a, w) == Total(b, w)
  {
    if |a| > 0 {
      var x := a[0];
      assert x in multiset(b);
      var j :| 0 <= j < |b| && b[j] == x;
      var rest := b[..j] + b[j + 1..];
      assert a == [x] + a[1..];
      assert multiset(a[1..]) == multiset(a) - multiset{x};
      RemoveAt(b, j);
      TotalPermutation(a[1..], rest, w);
      TotalRemoveAt(b, j, w);
    } else {
      assert |b| == |multiset(b)| == 0;
    }
  }

  lemma RemoveAt(b: seq<Stint>, j: nat)
    requires j < |b|
    ensures multiset(b[..j] + b[j + 1..]) == multiset(b) - multiset{b[j]}
  {
    assert b == b[..j] + [b[j]] + b[j + 1..];
  }

  lemma TotalRemoveAt(b: seq<Stint>, j: nat, w: Window)
    requires j < |b|
    ensures Total(b, w) == Contribution(b[j], w) + Total(b[..j] + b[j + 1..], w)
  {
    assert b == b[..j] + ([b[j]] + b[j + 1..]);
    TotalAppend(b[..j], [b[j]] + b[j + 1..], w);
    assert ([b[j]] + b[j + 1..])[1..] == b[j + 1..];
    TotalAppend(b[..j], b[j + 1..], w);
  }

  lemma {:induction false} StintsByDateAppend(a: seq<Stint>, b: seq<Stint>, date: Date, offset: Offset)
    ensures StintsByDate(a + b, date, offset) == StintsByDate(a, date, offset) + StintsByDate(b, date, offset)
  {
    if |a| > 0 {
      assert (a + b)[1..] == a[1..] + b;
      StintsByDateAppend(a[1..], b, date, offset);
    } else {
      assert a + b == b;
    }
  }

  /**
   * A stint that starts at or before local midnight and ends at or after the
   * next midnight is not selected and adds nothing to the date's total.
   */
  lemma SpanningStintNotCounted(stints: seq<Stint>, s: Stint, date: Date, offset: Offset)
    requires s.start <= DateLimits(date, offset).earliest
    requires s.end >= DateLimits(date, offset).latest
    ensures !Selected(s, DateLimits(date, offset))
    ensures HoursByDate(stints + [s], date, offset) == HoursByDate(stints, date, offset)
  {
    StintsByDateAppend(stints, [s], date, offset);
    assert StintsByDate(stints, date, offset) + [] == StintsByDate(stints, date, offset);
  }

  /**
   * A stint that runs from inside one date's window into the next date's
   * window is selected on both dates, and the two clipped parts add up to
   * the stint's whole length.
   */
  lemma MidnightSplit(s: Stint, date: Date, offset: Offset)
    requires DateLimits(date, offset).earliest < s.start < DateLimits(date, offset).latest
    requires DateLimits(date + 1, offset).earliest < s.end < DateLimits(date + 1, offset).latest
    ensures Selected(s, DateLimits(date, offset)) && Selected(s, DateLimits(date + 1, offset))
    ensures Contribution(s, DateLimits(date, offset)) + Contribution(s, DateLimits(date + 1, offset))
            == s.end - s.start
  {
    ConsecutiveWindows(date, offset);
  }

  /** The date's stint-by-stint sum: each stint adds its clipped part when it is selected. */
  function GuardedTotal(stints: seq<Stint>, w: Window): int {
    if |stints| == 0 then 0
    else (if Selected(stints[0], w) then Contribution(stints[0], w) else 0) + GuardedTotal(stints[1..], w)
  }

  /** Selecting first and then summing is the same as summing the selected stints' parts in one pass. */
  lemma {:induction false} HoursByDateIsGuardedTotal(stints: seq<Stint>, date: Date, offset: Offset)
    ensures HoursByDate(stints, date, offset) == GuardedTotal(stints, DateLimits(date, offset))
  {
    if |stints| > 0 {
      HoursByDateIsGuardedTotal(stints[1..], date, offset);
    }
  }

  /** A 23:00 to 01:00 stint counts one hour on each of its two dates. */
  lemma MidnightScenario(date: Date, offset: Offset, s: Stint)
    requires s.start == CombineDateTime(date, 23 * 3600, offset).AsInstant()
    requires s.end == CombineDateTime(date + 1, 3600, offset).AsInstant()
    ensures HoursByDate([s], date, offset) == 3600
    ensures HoursByDate([s], date + 1, offset) == 3600
  {
    WindowBounds(date, offset);
    WindowBounds(date + 1, offset);
    HoursByDateIsGuardedTotal([s], date, offset);
    HoursByDateIsGuardedTotal([s], date + 1, offset);
    assert [s][1..] == [];
  }

  /** Stints 09:00 to 12:00 and 13:00 to 13:30 on the same date make three and a half hours. */
  lemma WorkdayScenario(date: Date, offset: Offset, a: Stint, b: Stint)
    requires a.start == CombineDateTime(date, 9 * 3600, offset).AsInstant()
    requires a.end == CombineDateTime(date, 12 * 3600, offset).AsInstant()
    requires b.start == CombineDateTime(date, 13 * 3600, offset).AsInstant()
    requires b.end == CombineDateTime(date, 13 * 3600 + 1800, offset).AsInstant()
    ensures HoursByDate([a, b], date, offset) == 3 * 3600 + 1800
  {
    WindowBounds(date, offset);
    var w := DateLimits(date, offset);
    HoursByDateIsGuardedTotal([a, b], date, offset);
    assert [a, b][1..] == [b];
    assert [b][1..] == [];
    assert Selected(a, w) && Contribution(a, w) == 3 * 3600;
    assert Selected(b, w) && Contribution(b, w) == 1800;
    assert GuardedTotal([b], w) == 1800;
  }

  predicate SortedByStart(rows: seq<Stint>) {
    forall i, j :: 0 <= i < j < |rows| ==> rows[i].start <= rows[j].start
  }

  function Insert(x: Stint, rows: seq<Stint>): (r: seq<Stint>)
    requires SortedByStart(rows)
    ensures SortedByStart(r)
    ensures multiset(r) == multiset(rows) + multiset{x}
  {
    if |rows| == 0 || x.start <= rows[0].start then
      [x] + rows
    else
      var rest := Insert(x, rows[1..]);
      assert rows == [rows[0]] + rows[1..];
      assert forall k :: 0 <= k < |rest| ==> rows[0].start <= rest[k].start by {
        forall k | 0 <= k < |rest| ensures rows[0].start <= rest[k].start {
          assert rest[k] in multiset(rows[1..]) + multiset{x};
        }
      }
      [rows[0]] + rest
  }

  /** `sorted(rows, key=lambda stint: stint.start)`: ordered by start, with the same stints. */
  function SortByStart(rows: seq<Stint>): (r: seq<Stint>)
    ensures SortedByStart(r)
    ensures multiset(r) == multiset(rows)
  {
    if |rows| == 0 then []
    else
      assert rows == [rows[0]] + rows[1..];
      Insert(rows[0], SortByStart(rows[1..]))
  }

  /**
   * The rows `liststints` shows for a date: the same selection the total is
   * computed from, ordered by start.
   */
  function ListStints(stints: seq<Stint>, date: Date, offset: Offset): (rows: seq<Stint>)
    ensures SortedByStart(rows)
    ensures multiset(rows) == multiset(StintsByDate(stints, date, offset))
    ensures forall s :: s in rows <==> s in stints && Selected(s, DateLimits(date, offset))
  {
    var rows := SortByStart(StintsByDate(stints, date, offset));
    assert forall s :: s in rows <==> s in multiset(StintsByDate(stints, date, offset));
    rows
  }

  // ---------------------------------------------------------------------------
  // The total as the stored rows are read back.
  //
  // The `stint` table's DateTime columns keep no offset: a stint is stored as
  // its UTC wall-clock reading and read back without a timezone. The total
  // then calls `astimezone(timezone.utc)` on these readings, which takes a
  // reading without a timezone to be LOCAL time, so each stint is clipped as if
  // it lay `offset` seconds earlier than it does. The selection itself compares
  // the stored UTC readings and is not shifted.
  // ---------------------------------------------------------------------------

  /** One stint's contribution, with its stored readings taken as local time. */
  function ContributionAsLoaded(s: Stint, w: Window, offset: Offset): int {
    Min(w.latest, Moment(s.end, offset).AsInstant()) - Max(w.earliest, Moment(s.start, offset).AsInstant())
  }

  function TotalAsLoaded(stints: seq<Stint>, w: Window, offset: Offset): int {
    if |stints| == 0 then 0
    else ContributionAsLoaded(stints[0], w, offset) + TotalAsLoaded(stints[1..], w, offset)
  }

  /** `hours_by_date` as written, in seconds, on rows read back from the table. */
  function HoursByDateAsLoaded(stints: seq<Stint>, date: Date, offset: Offset): (seconds: int)
    ensures offset == 0 ==> seconds == HoursByDate(stints, date, offset)
  {
    var w := DateLimits(date, offset);
    var selected := StintsByDate(stints, date, offset);
    AsLoadedInUtc(selected, w);
    TotalAsLoaded(selected, w, offset)
  }

  lemma {:induction false} AsLoadedInUtc(stints: seq<Stint>, w: Window)
    ensures TotalAsLoaded(stints, w, 0) == Total(stints, w)
  {
    if |stints| > 0 {
      AsLoadedInUtc(stints[1..], w);
    }
  }

  function GuardedTotalAsLoaded(stints: seq<Stint>, w: Window, offset: Offset): int {
    if |stints| == 0 then 0
    else (if Selected(stints[0], w) then ContributionAsLoaded(stints[0], w, offset) else 0)
         + GuardedTotalAsLoaded(stints[1..], w, offset)
  }

  lemma {:induction false} AsLoadedIsGuardedTotal(stints: seq<Stint>, date: Date, offset: Offset)
    ensures HoursByDateAsLoaded(stints, date, offset)
            == GuardedTotalAsLoaded(stints, DateLimits(date, offset), offset)
  {
    if |stints| > 0 {
      AsLoadedIsGuardedTotal(stints[1..], date, offset);
    }
  }

  /**
   * One hour east of UTC, a 23:00 to 01:00 stint read back from the table
   * counts two hours on its first date and none on its second, where the
   * corrected total counts one hour on each.
   */
  lemma AsLoadedMisSplitsMidnight(date: Date, s: Stint)
    requires s.start == CombineDateTime(date, 23 * 3600, 3600).AsInstant()
    requires s.end == CombineDateTime(date + 1, 3600, 3600).AsInstant()
    ensures HoursByDateAsLoaded([s], date, 3600) == 7200
    ensures HoursByDateAsLoaded([s], date + 1, 3600) == 0
    ensures HoursByDate([s], date, 3600) == 3600 && HoursByDate([s], date + 1, 3600) == 3600
  {
    WindowBounds(date, 3600);
    WindowBounds(date + 1, 3600);
    AsLoadedIsGuardedTotal([s], date, 3600);
    AsLoadedIsGuardedTotal([s], date + 1, 3600);
    assert [s][1..] == [];
    MidnightScenario(date, 3600, s);
  }

  /**
   * One hour east of UTC, a stint from 00:10 to 00:20 local time read back
   * from the table contributes minus forty minutes as written: the shifted
   * end lies before local midnight. The corrected total is its ten minutes.
   */
  lemma AsLoadedNegativeContribution(date: Date, s: Stint)
    requires s.start == CombineDateTime(date, 600, 3600).AsInstant()
    requires s.end == CombineDateTime(date, 1200, 3600).AsInstant()
    ensures s.start <= s.end
    ensures HoursByDateAsLoaded([s], date, 3600) == -2400
    ensures HoursByDate([s], date, 3600) == 600
  {
    WindowBounds(date, 3600);
    AsLoadedIsGuardedTotal([s], date, 3600);
    HoursByDateIsGuardedTotal([s], date, 3600);
    assert [s][1..] == [];
  }
}
