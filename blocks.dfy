/**
  Dated blocks of unavailable time, the date range a window covers, the
  midnight split used for sleep and store-closed hours, and the
  chronological sort, shared by shiftScheduler.js, test2.js and test.js.
*/
module Blocks {
  import opened CivilTime
  import opened Seqs

  /** One unavailable interval { date, startTime, endTime } on a concrete day. */
  datatype TimeBlock = TimeBlock(date: int, startTime: Minute, endTime: Minute)

  /** A half-open interval [start, end) of instants: a free slot or a shift. */
  datatype Interval = Interval(start: int, end: int)

  /** `new Date(`${date}T${startTime}`)` */
  function BlockStart(b: TimeBlock): int {
    Instant(b.date, b.startTime)
  }

  /** `new Date(`${date}T${endTime}`)`; "24:00" is the next midnight. */
  function BlockEnd(b: TimeBlock): int {
    Instant(b.date, b.endTime)
  }

  function Length(v: Interval): int {
    v.end - v.start
  }

  /**
    The period from `from` to `to` on date d: one block, or two when it
    crosses midnight (from > to), the first ending at "24:00" and the second
    starting at "00:00" of the next date.
  */
  function SplitAtMidnight(d: int, from: Minute, to: Minute): seq<TimeBlock> {
    if from > to then [TimeBlock(d, from, 1440), TimeBlock(d + 1, 0, to)]
    else [TimeBlock(d, from, to)]
  }

  /** Total minutes covered by a list of blocks. */
  function Covered(s: seq<TimeBlock>): int {
    if s == [] then 0 else Covered(s[..|s| - 1]) + (BlockEnd(s[|s| - 1]) - BlockStart(s[|s| - 1]))
  }

  /**
    The split blocks run without a gap from `from` on d to `to` on the same
    date or on the next one, and so cover (to - from) minutes modulo a day.
  */
  lemma SplitIsContiguous(d: int, from: Minute, to: Minute)
    ensures var r := SplitAtMidnight(d, from, to);
      && BlockStart(r[0]) == Instant(d, from)
      && BlockEnd(r[|r| - 1]) == Instant(if from > to then d + 1 else d, to)
      && (|r| == 2 ==> BlockEnd(r[0]) == BlockStart(r[1]))
      && Covered(r) == (if from > to then 1440 - from + to else to - from)
  {
    var r := SplitAtMidnight(d, from, to);
    if from > to {
      assert r[..1] == [r[0]];
      assert r[..1][..0] == [];
      assert Covered(r[..1]) == 1440 - from;
    } else {
      assert r[..0] == [];
    }
  }

  /** `dateRange.map(date => split(date)).flat()` */
  function SplitEachDate(dates: seq<int>, from: Minute, to: Minute): seq<TimeBlock> {
    if dates == [] then []
    else
      var prefix := SplitEachDate(dates[..|dates| - 1], from, to);
      prefix + SplitAtMidnight(dates[|dates| - 1], from, to)
  }

  /**
    Every date contributes its blocks in place: two per date, split at
    midnight, when the period runs over midnight, and one per date otherwise.
  */
  lemma SplitEachDateShape(dates: seq<int>, from: Minute, to: Minute)
    ensures var r := SplitEachDate(dates, from, to);
      from > to ==> |r| == 2 * |dates| && forall i :: 0 <= i < |dates| ==>
        r[2 * i] == TimeBlock(dates[i], from, 1440) && r[2 * i + 1] == TimeBlock(dates[i] + 1, 0, to)
    ensures var r := SplitEachDate(dates, from, to);
      from <= to ==> |r| == |dates| && forall i :: 0 <= i < |dates| ==>
        r[i] == TimeBlock(dates[i], from, to)
  {
    if from > to {
      SplitOvernightShape(dates, from, to);
    } else {
      SplitSameDayShape(dates, from, to);
    }
  }

  lemma {:induction false} SplitOvernightShape(dates: seq<int>, from: Minute, to: Minute)
    requires from > to
    ensures var r := SplitEachDate(dates, from, to);
      |r| == 2 * |dates| && forall i :: 0 <= i < |dates| ==>
        r[2 * i] == TimeBlock(dates[i], from, 1440) && r[2 * i + 1] == TimeBlock(dates[i] + 1, 0, to)
  {
    if dates != [] {
      var n := |dates| - 1;
      var init := dates[..n];
      SplitOvernightShape(init, from, to);
      var r := SplitEachDate(init, from, to) + [TimeBlock(dates[n], from, 1440), TimeBlock(dates[n] + 1, 0, to)];
      assert SplitEachDate(dates, from, to) == r;
      assert forall i :: 0 <= i < n ==> init[i] == dates[i];
    }
  }

  lemma {:induction false} SplitSameDayShape(dates: seq<int>, from: Minute, to: Minute)
    requires from <= to
    ensures var r := SplitEachDate(dates, from, to);
      |r| == |dates| && forall i :: 0 <= i < |dates| ==> r[i] == TimeBlock(dates[i], from, to)
  {
    if dates != [] {
      var n := |dates| - 1;
      var init := dates[..n];
      SplitSameDayShape(init, from, to);
      var r := SplitEachDate(init, from, to) + [TimeBlock(dates[n], from, to)];
      assert SplitEachDate(dates, from, to) == r;
      assert forall i :: 0 <= i < n ==> init[i] == dates[i];
    }
  }

  /** A block comes from the split of some date of the list, and each such block is present. */
  lemma {:induction false} SplitEachDateMembers(dates: seq<int>, from: Minute, to: Minute, b: TimeBlock)
    ensures b in SplitEachDate(dates, from, to) <==>
      exists i :: 0 <= i < |dates| && b in SplitAtMidnight(dates[i], from, to)
  {
    if dates != [] {
      var init := dates[..|dates| - 1];
      SplitEachDateMembers(init, from, to, b);
      assert forall i :: 0 <= i < |init| ==> init[i] == dates[i];
      assert SplitEachDate(dates, from, to)
          == SplitEachDate(init, from, to) + SplitAtMidnight(dates[|dates| - 1], from, to);
    }
  }

  /**
    The dates the loop `while (currentDate <= endDate) { push(date);
    currentDate += 1 day }` visits, from instant `from` up to `end`.
  */
  function DaySpan(from: int, end: int): seq<int>
    decreases end - from
  {
    if from > end then [] else [DayOf(from)] + DaySpan(from + MinutesPerDay, end)
  }

  lemma {:induction false} DaySpanDays(from: int, end: int)
    ensures forall i :: 0 <= i < |DaySpan(from, end)| ==>
      DaySpan(from, end)[i] == DayOf(from) + i && from + MinutesPerDay * i <= end
    ensures from + MinutesPerDay * |DaySpan(from, end)| > end
    decreases end - from
  {
    if from <= end {
      DaySpanDays(from + MinutesPerDay, end);
      assert DayOf(from + MinutesPerDay) == DayOf(from) + 1;
    }
  }

  /**
    The date range of a window: every day from the day of `from` on, one day
    apart, as long as the day's instant is not after `end`.
  */
  method DateRange(from: int, end: int) returns (dates: seq<int>)
    ensures dates == DaySpan(from, end)
    ensures forall i :: 0 <= i < |dates| ==> dates[i] == DayOf(from) + i
    ensures forall i :: 0 <= i < |dates| ==> from + MinutesPerDay * i <= end
    ensures from + MinutesPerDay * |dates| > end
  {
    dates := [];
    var current := from;
    while current <= end
      invariant current == from + MinutesPerDay * |dates|
      invariant dates + DaySpan(current, end) == DaySpan(from, end)
      decreases end - current
    {
      dates := dates + [DayOf(current)];
      current := current + MinutesPerDay;
    }
    DaySpanDays(from, end);
  }

  /** `blocks.sort((a, b) => start(a) - start(b))` */
  function SortBlocks(s: seq<TimeBlock>): (r: seq<TimeBlock>)
    ensures SortedBy(r, BlockStart) && multiset(r) == multiset(s)
  {
    SortBy(s, BlockStart)
  }

  /** The test that keeps the blocks dated `day` (date keys compared as strings). */
  function OnDay(day: int): TimeBlock -> bool {
    (b: TimeBlock) => b.date == day
  }

  /** The blocks of the list dated `day`, in list order. */
  function DayBlocks(blocked: seq<TimeBlock>, day: int): seq<TimeBlock> {
    Filter(blocked, OnDay(day))
  }

  /** The four fixed appointments both proposal drafts start from. */
  function MockBlocks(): seq<TimeBlock> {
    [ TimeBlock(739037, 9 * 60, 12 * 60),
      TimeBlock(739041, 9 * 60, 12 * 60),
      TimeBlock(739046, 14 * 60, 16 * 60),
      TimeBlock(739051, 18 * 60, 20 * 60) ]
  }

  /** The appointments fall on 2024-06-01, -05, -10 and -15. */
  lemma MockBlocksDates()
    ensures MockBlocks()[0].date == DayNumber(Civil(2024, 6, 1))
    ensures MockBlocks()[1].date == DayNumber(Civil(2024, 6, 5))
    ensures MockBlocks()[2].date == DayNumber(Civil(2024, 6, 10))
    ensures MockBlocks()[3].date == DayNumber(Civil(2024, 6, 15))
  {
  }

  /** hourlyWage, nightWage and holidayPay of a job. */
  datatype Wages = Wages(hourly: int, night: int, holiday: int)
}
