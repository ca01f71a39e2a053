/**
  The earlier proposal draft of TestCode/test.js: the mock and sleep
  blocks, the free slots between the blocks of each day filtered to the
  opening hours, one candidate shift per slot with one flat rate, and the
  prefix-greedy selection that stops once the target is reached.
*/
module FlatRateProposal {
  import opened CivilTime
  import opened Seqs
  import opened Blocks

  /** A whole hour as this draft passes times around: 0..24. */
  type Hour = h: int | 0 <= h <= 24

  /** Eight hours, the longest candidate, in minutes. */
  const MaxShift: int := 480

  // ---------------------------------------------------------------------
  // getAllUnavailableTimes
  // ---------------------------------------------------------------------

  /** The mock appointments, then the sleep blocks of every date from start to end, by start. */
  function AllUnavailable(start: int, end: int, sleepStart: Hour, sleepEnd: Hour): (r: seq<TimeBlock>)
    ensures SortedBy(r, BlockStart)
    ensures multiset(r) == multiset(MockBlocks()
      + SplitEachDate(DaySpan(start, end), sleepStart * MinutesPerHour, sleepEnd * MinutesPerHour))
  {
    SortBlocks(MockBlocks() + SplitEachDate(DaySpan(start, end), sleepStart * MinutesPerHour, sleepEnd * MinutesPerHour))
  }

  method GetAllUnavailableTimes(start: int, end: int, sleepStart: Hour, sleepEnd: Hour)
    returns (times: seq<TimeBlock>)
    ensures times == AllUnavailable(start, end, sleepStart, sleepEnd)
  {
    var from: Minute, to: Minute := sleepStart * MinutesPerHour, sleepEnd * MinutesPerHour;
    var mock := MockBlocks();
    times := mock;
    var current := start;
    ghost var dates: seq<int> := [];
    while current <= end
      invariant dates + DaySpan(current, end) == DaySpan(start, end)
      invariant times == mock + SplitEachDate(dates, from, to)
      decreases end - current
    {
      var day := DayOf(current);
      SleepStep(mock, dates, day, from, to, times);
      if sleepStart > sleepEnd {
        times := times + [TimeBlock(day, from, 1440), TimeBlock(day + 1, 0, to)];
      } else {
        times := times + [TimeBlock(day, from, to)];
      }
      DaySpanStep(dates, current, end);
      dates := dates + [day];
      current := current + MinutesPerDay;
    }
    assert dates == DaySpan(start, end) by {
      assert DaySpan(current, end) == [];
      assert dates + [] == dates;
    }
    times := SortBlocks(times);
  }

  /** One pass of a date loop moves one date from the dates still to come to those done. */
  lemma DaySpanStep(dates: seq<int>, current: int, end: int)
    requires current <= end
    ensures dates + DaySpan(current, end) == (dates + [DayOf(current)]) + DaySpan(current + MinutesPerDay, end)
  {
    assert DaySpan(current, end) == [DayOf(current)] + DaySpan(current + MinutesPerDay, end);
  }

  /** The sleep blocks of one more date extend the list built so far. */
  lemma SleepStep(mock: seq<TimeBlock>, dates: seq<int>, day: int, from: Minute, to: Minute, times: seq<TimeBlock>)
    requires times == mock + SplitEachDate(dates, from, to)
    ensures times + SplitAtMidnight(day, from, to) == mock + SplitEachDate(dates + [day], from, to)
  {
    SplitEachDateSnoc(dates, day, from, to);
    assert mock + (SplitEachDate(dates, from, to) + SplitAtMidnight(day, from, to))
        == (mock + SplitEachDate(dates, from, to)) + SplitAtMidnight(day, from, to);
  }

  lemma SplitEachDateSnoc(dates: seq<int>, day: int, from: Minute, to: Minute)
    ensures SplitEachDate(dates + [day], from, to) == SplitEachDate(dates, from, to) + SplitAtMidnight(day, from, to)
  {
    assert (dates + [day])[..|dates|] == dates;
  }

  // ---------------------------------------------------------------------
  // findAvailableSlots
  // ---------------------------------------------------------------------

  /** The state of the for-of loop over a day's blocks: lastEndTime and the slots pushed. */
  datatype GapState = GapState(lastEnd: int, slots: seq<Interval>)

  /**
    One block: the gap before it becomes a slot; a block ending on another
    date than it starts pushes that gap a second time and moves lastEndTime
    to its end, any other block moves lastEndTime to the later of the two.
  */
  function GapStep(g: GapState, b: TimeBlock): GapState {
    var st := BlockStart(b);
    var et := BlockEnd(b);
    var pushed := if st > g.lastEnd then g.slots + [Interval(g.lastEnd, st)] else g.slots;
    if DayOf(et) != DayOf(st) then
      GapState(et, if st > g.lastEnd then pushed + [Interval(g.lastEnd, st)] else pushed)
    else GapState(if et > g.lastEnd then et else g.lastEnd, pushed)
  }

  function Gaps(blocks: seq<TimeBlock>, dayStart: int): GapState {
    if blocks == [] then GapState(dayStart, [])
    else GapStep(Gaps(blocks[..|blocks| - 1], dayStart), blocks[|blocks| - 1])
  }

  /** dayStart: the opening hour of the day. */
  function DayStart(day: int, open: Hour): int {
    Instant(day, open * MinutesPerHour)
  }

  /** dayEnd: the closing hour, of the next day when the store closes at or before it opens. */
  function DayEnd(day: int, open: Hour, close: Hour): int {
    Instant(if close <= open then day + 1 else day, close * MinutesPerHour)
  }

  /** The slots of one day: the gaps, then the rest of the day after the last block. */
  function DaySlots(blocked: seq<TimeBlock>, day: int, open: Hour, close: Hour): seq<Interval> {
    var g := Gaps(DayBlocks(blocked, day), DayStart(day, open));
    g.slots + (if g.lastEnd < DayEnd(day, open, close) then [Interval(g.lastEnd, DayEnd(day, open, close))] else [])
  }

  /** The slots of every date of the list, date after date. */
  function SlotsOfDates(blocked: seq<TimeBlock>, dates: seq<int>, open: Hour, close: Hour): seq<Interval> {
    if dates == [] then []
    else SlotsOfDates(blocked, dates[..|dates| - 1], open, close) + DaySlots(blocked, dates[|dates| - 1], open, close)
  }

  lemma SlotsOfDatesSnoc(blocked: seq<TimeBlock>, dates: seq<int>, day: int, open: Hour, close: Hour)
    ensures SlotsOfDates(blocked, dates + [day], open, close)
         == SlotsOfDates(blocked, dates, open, close) + DaySlots(blocked, day, open, close)
  {
    assert (dates + [day])[..|dates|] == dates;
  }

  /** The final filter: the slot's start and end hours both fall in the opening hours. */
  function KeepOpenHours(open: Hour, close: Hour): Interval -> bool {
    (v: Interval) =>
      (HourOf(v.start) >= open || HourOf(v.start) < close) && (HourOf(v.end) > open || HourOf(v.end) <= close)
  }

  /** The raw slots of the window before the opening-hours filter. */
  function RawSlots(blocked: seq<TimeBlock>, start: int, end: int, open: Hour, close: Hour): seq<Interval> {
    SlotsOfDates(blocked, DaySpan(start, end), open, close)
  }

  function AvailableSlots(blocked: seq<TimeBlock>, start: int, end: int, open: Hour, close: Hour): seq<Interval> {
    Filter(RawSlots(blocked, start, end, open, close), KeepOpenHours(open, close))
  }

  /**
    What the block loop keeps: every slot is non-empty and starts at the
    day's start or at the end of one of the blocks, and so does lastEndTime.
  */
  /** A slot of day d starts at the opening time or where a block of that date ends. */
  predicate StartsAtOpenOrBlockEnd(v: Interval, blocked: seq<TimeBlock>, d: int, open: Hour) {
    v.start == DayStart(d, open) || exists b :: b in blocked && b.date == d && v.start == BlockEnd(b)
  }

  predicate GapInvariant(g: GapState, blocks: seq<TimeBlock>, dayStart: int) {
    && (g.lastEnd == dayStart || exists b :: b in blocks && g.lastEnd == BlockEnd(b))
    && forall v :: v in g.slots ==>
         v.start < v.end && (v.start == dayStart || exists b :: b in blocks && v.start == BlockEnd(b))
  }

  lemma {:induction false} GapsInvariant(blocks: seq<TimeBlock>, dayStart: int)
    ensures GapInvariant(Gaps(blocks, dayStart), blocks, dayStart)
  {
    if blocks != [] {
      var init := blocks[..|blocks| - 1];
      var last := blocks[|blocks| - 1];
      GapsInvariant(init, dayStart);
      assert forall b :: b in init ==> b in blocks;
      assert last in blocks;
      GapStepKeeps(Gaps(init, dayStart), init, last, blocks, dayStart);
    }
  }

  lemma GapStepKeeps(g: GapState, init: seq<TimeBlock>, last: TimeBlock, blocks: seq<TimeBlock>, dayStart: int)
    requires GapInvariant(g, init, dayStart)
    requires forall b :: b in init ==> b in blocks
    requires last in blocks
    ensures GapInvariant(GapStep(g, last), blocks, dayStart)
  {
    var g' := GapStep(g, last);
    forall v | v in g'.slots
      ensures v.start < v.end && (v.start == dayStart || exists b :: b in blocks && v.start == BlockEnd(b))
    {
      if v !in g.slots {
        assert v == Interval(g.lastEnd, BlockStart(last));
      }
    }
  }

  /**
    Every slot of a day is non-empty and starts at the day's opening or at
    the end of a block of that date.
  */
  lemma DaySlotsShape(blocked: seq<TimeBlock>, day: int, open: Hour, close: Hour)
    ensures forall v :: v in DaySlots(blocked, day, open, close) ==>
      v.start < v.end && StartsAtOpenOrBlockEnd(v, blocked, day, open)
  {
    var blocks := DayBlocks(blocked, day);
    GapsInvariant(blocks, DayStart(day, open));
  }

  /** The slots pushed for a list of dates each come from one of the dates. */
  lemma {:induction false} SlotsOfDatesMembers(blocked: seq<TimeBlock>, dates: seq<int>, open: Hour, close: Hour)
    ensures forall v :: v in SlotsOfDates(blocked, dates, open, close) ==>
      exists i :: 0 <= i < |dates| && v in DaySlots(blocked, dates[i], open, close)
  {
    if dates != [] {
      var init := dates[..|dates| - 1];
      SlotsOfDatesMembers(blocked, init, open, close);
      assert forall i :: 0 <= i < |init| ==> init[i] == dates[i];
    }
  }

  /**
    findAvailableSlots returns, in order, exactly the raw slots whose hours
    pass the opening-hours test, and each of them is non-empty and starts at
    a day's opening or at the end of a block of its date.
  */
  lemma AvailableSlotsSpec(blocked: seq<TimeBlock>, start: int, end: int, open: Hour, close: Hour)
    ensures IsSubsequence(AvailableSlots(blocked, start, end, open, close), RawSlots(blocked, start, end, open, close))
    ensures forall v :: v in RawSlots(blocked, start, end, open, close) ==>
      (v in AvailableSlots(blocked, start, end, open, close) <==> KeepOpenHours(open, close)(v))
    ensures forall v :: v in AvailableSlots(blocked, start, end, open, close) ==>
      v.start < v.end && (exists d :: d in DaySpan(start, end) && StartsAtOpenOrBlockEnd(v, blocked, d, open))
  {
    var raw := RawSlots(blocked, start, end, open, close);
    var keep := KeepOpenHours(open, close);
    FilterIsSubsequence(raw, keep);
    forall v | v in raw ensures v in Filter(raw, keep) <==> keep(v) {
      var i :| 0 <= i < |raw| && raw[i] == v;
    }
    SlotsOfDatesMembers(blocked, DaySpan(start, end), open, close);
    forall v | v in AvailableSlots(blocked, start, end, open, close)
      ensures v.start < v.end && (exists d :: d in DaySpan(start, end) && StartsAtOpenOrBlockEnd(v, blocked, d, open))
    {
      var i :| 0 <= i < |DaySpan(start, end)| && v in DaySlots(blocked, DaySpan(start, end)[i], open, close);
      DaySlotsShape(blocked, DaySpan(start, end)[i], open, close);
    }
  }

  /**
    A gap before a block that ends at "24:00" is pushed twice: with the store
    open 08:00-02:00 and one block 23:00-24:00, the day's slots are 08:00-23:00
    twice, then 00:00-02:00 of the next day.
  */
  lemma DuplicateSlotExample(day: int)
    ensures DaySlots([TimeBlock(day, 23 * 60, 1440)], day, 8, 2) ==
      [ Interval(Instant(day, 8 * 60), Instant(day, 23 * 60)),
        Interval(Instant(day, 8 * 60), Instant(day, 23 * 60)),
        Interval(Instant(day + 1, 0), Instant(day + 1, 2 * 60)) ]
  {
    var b := TimeBlock(day, 23 * 60, 1440);
    assert [b][1..] == [];
    assert DayBlocks([b], day) == [b];
    assert [b][..0] == [];
    assert DayOf(BlockEnd(b)) == day + 1 && DayOf(BlockStart(b)) == day;
    assert Gaps([b], DayStart(day, 8)) == GapStep(GapState(DayStart(day, 8), []), b);
  }

  /** The loop as evidently intended: each gap is pushed once. */
  function GapStepOnce(g: GapState, b: TimeBlock): GapState {
    var st := BlockStart(b);
    var et := BlockEnd(b);
    var pushed := if st > g.lastEnd then g.slots + [Interval(g.lastEnd, st)] else g.slots;
    if DayOf(et) != DayOf(st) then GapState(et, pushed)
    else GapState(if et > g.lastEnd then et else g.lastEnd, pushed)
  }

  function GapsOnce(blocks: seq<TimeBlock>, dayStart: int): GapState {
    if blocks == [] then GapState(dayStart, [])
    else GapStepOnce(GapsOnce(blocks[..|blocks| - 1], dayStart), blocks[|blocks| - 1])
  }

  function DaySlotsOnce(blocked: seq<TimeBlock>, day: int, open: Hour, close: Hour): seq<Interval> {
    var g := GapsOnce(DayBlocks(blocked, day), DayStart(day, open));
    g.slots + (if g.lastEnd < DayEnd(day, open, close) then [Interval(g.lastEnd, DayEnd(day, open, close))] else [])
  }

  predicate AscendingBefore(g: GapState, limit: int) {
    && g.lastEnd <= limit
    && (forall v :: v in g.slots ==> v.start < g.lastEnd)
    && (forall i, j :: 0 <= i < j < |g.slots| ==> g.slots[i].start < g.slots[j].start)
  }

  lemma {:induction false} GapsOnceAscending(blocks: seq<TimeBlock>, dayStart: int, day: int)
    requires dayStart <= Instant(day + 1, 0)
    requires forall b :: b in blocks ==> b.date == day && b.startTime <= b.endTime
    ensures AscendingBefore(GapsOnce(blocks, dayStart), Instant(day + 1, 0))
  {
    if blocks != [] {
      var init := blocks[..|blocks| - 1];
      var last := blocks[|blocks| - 1];
      assert forall b :: b in init ==> b in blocks;
      assert last in blocks;
      GapsOnceAscending(init, dayStart, day);
      var g := GapsOnce(init, dayStart);
      var g' := GapsOnce(blocks, dayStart);
      assert g'.lastEnd >= g.lastEnd;
      forall i, j | 0 <= i < j < |g'.slots| ensures g'.slots[i].start < g'.slots[j].start {
        if j >= |g.slots| {
          assert g'.slots[i] == g.slots[i] && g.slots[i] in g.slots;
        } else {
          assert g'.slots[i] == g.slots[i] && g'.slots[j] == g.slots[j];
        }
      }
    }
  }

  /**
    With each gap pushed once, and blocks that do not end before they
    start, a day's slots start strictly one after the other, so no slot is
    repeated.
  */
  lemma CorrectedSlotsAscend(blocked: seq<TimeBlock>, day: int, open: Hour, close: Hour)
    requires forall b :: b in blocked ==> b.startTime <= b.endTime
    ensures var s := DaySlotsOnce(blocked, day, open, close);
      forall i, j :: 0 <= i < j < |s| ==> s[i].start < s[j].start
  {
    var blocks := DayBlocks(blocked, day);
    GapsOnceAscending(blocks, DayStart(day, open), day);
    var g := GapsOnce(blocks, DayStart(day, open));
    var s := DaySlotsOnce(blocked, day, open, close);
    forall i, j | 0 <= i < j < |s| ensures s[i].start < s[j].start {
      if j >= |g.slots| {
        assert s[i] == g.slots[i] && g.slots[i] in g.slots;
      } else {
        assert s[i] == g.slots[i] && s[j] == g.slots[j];
      }
    }
  }

  /** findAvailableSlots: the day loop with the inner block loop, then the opening-hours filter. */
  method FindAvailableSlots(blocked: seq<TimeBlock>, start: int, end: int, open: Hour, close: Hour)
    returns (slots: seq<Interval>)
    ensures slots == AvailableSlots(blocked, start, end, open, close)
  {
    var raw: seq<Interval> := [];
    var current := start;
    ghost var dates: seq<int> := [];
    while current <= end
      invariant dates + DaySpan(current, end) == DaySpan(start, end)
      invariant raw == SlotsOfDates(blocked, dates, open, close)
      decreases end - current
    {
      var day := DayOf(current);
      var daySlots := DayGaps(blocked, day, open, close);
      raw := raw + daySlots;
      DaySpanStep(dates, current, end);
      SlotsOfDatesSnoc(blocked, dates, day, open, close);
      dates := dates + [day];
      current := current + MinutesPerDay;
    }
    assert DaySpan(current, end) == [];
    assert dates + [] == dates;
    slots := Filter(raw, KeepOpenHours(open, close));
  }

  /** One pass of the date loop: the for-of over the day's blocks, then the gap up to dayEnd. */
  method DayGaps(blocked: seq<TimeBlock>, day: int, open: Hour, close: Hour) returns (daySlots: seq<Interval>)
    ensures daySlots == DaySlots(blocked, day, open, close)
  {
    var dayStart := DayStart(day, open);
    var dayEnd := DayEnd(day, open, close);
    var blocks := Filter(blocked, OnDay(day));
    var g := GapState(dayStart, []);
    for n := 0 to |blocks|
      invariant g == Gaps(blocks[..n], dayStart)
    {
      assert blocks[..n + 1][..n] == blocks[..n];
      g := GapStep(g, blocks[n]);
    }
    assert blocks[..|blocks|] == blocks;
    if g.lastEnd < dayEnd {
      g := g.(slots := g.slots + [Interval(g.lastEnd, dayEnd)]);
    }
    daySlots := g.slots;
  }

  // ---------------------------------------------------------------------
  // generateShiftCandidates
  // ---------------------------------------------------------------------

  /** A candidate shift with the one rate it is paid at. */
  datatype Candidate = Candidate(start: int, end: int, wage: int)

  predicate IsNightCandidate(start: int, end: int) {
    HourOf(start) >= 22 || HourOf(end) <= 5
  }

  /** The candidate of a slot: eight hours from its start, or up to its end if sooner. */
  function CandidateOf(v: Interval, w: Wages): Candidate {
    var end := if v.start + MaxShift > v.end then v.end else v.start + MaxShift;
    var wage := if IsNightCandidate(v.start, end) then w.night
                else if IsWeekend(DayOf(v.start)) then w.holiday
                else w.hourly;
    Candidate(v.start, end, wage)
  }

  /**
    A candidate starts with its slot, lies within it, lasts at most eight
    hours, and falls short of eight hours only when the slot does.
  */
  lemma CandidateWithinSlot(v: Interval, w: Wages)
    requires v.start < v.end
    ensures var c := CandidateOf(v, w);
      && c.start == v.start && c.start < c.end <= v.end
      && c.end - c.start <= MaxShift
      && (c.end - c.start < MaxShift ==> c.end == v.end)
  {
  }

  /**
    The rate: the night wage whenever the candidate starts at 22:00 or later
    or its end shows an hour up to 5, even on a weekend; otherwise the
    holiday pay when its start day is a Sunday (weekday 0) or a Saturday
    (weekday 6); otherwise the hourly wage. A candidate ending at midnight
    shows hour 0 and so pays the night wage.
  */
  lemma CandidateRate(v: Interval, w: Wages)
    ensures var c := CandidateOf(v, w);
      var night := HourOf(v.start) >= 22 || HourOf(c.end) <= 5;
      && (night ==> c.wage == w.night)
      && (!night && (Weekday(DayOf(v.start)) == 0 || Weekday(DayOf(v.start)) == 6) ==> c.wage == w.holiday)
      && (!night && 1 <= Weekday(DayOf(v.start)) <= 5 ==> c.wage == w.hourly)
    ensures CandidateOf(v, w).end % MinutesPerDay == 0 ==> CandidateOf(v, w).wage == w.night
  {
  }

  method GenerateShiftCandidates(slots: seq<Interval>, w: Wages) returns (candidates: seq<Candidate>)
    ensures |candidates| == |slots|
    ensures forall i :: 0 <= i < |slots| ==> candidates[i] == CandidateOf(slots[i], w)
  {
    candidates := [];
    for n := 0 to |slots|
      invariant |candidates| == n
      invariant forall i :: 0 <= i < n ==> candidates[i] == CandidateOf(slots[i], w)
    {
      var start := slots[n].start;
      var end := start + MaxShift;
      if end > slots[n].end {
        end := slots[n].end;
      }
      var wage := if IsNightCandidate(start, end) then w.night
                  else if IsWeekend(DayOf(start)) then w.holiday
                  else w.hourly;
      candidates := candidates + [Candidate(start, end, wage)];
    }
  }

  // ---------------------------------------------------------------------
  // selectOptimalShifts (randomize = false)
  // ---------------------------------------------------------------------

  /** shiftDuration * shift.wage */
  function CandidatePay(c: Candidate): real {
    (c.end - c.start) as real / 60.0 * c.wage as real
  }

  function PayTotal(s: seq<Candidate>): real {
    if s == [] then 0.0 else PayTotal(s[..|s| - 1]) + CandidatePay(s[|s| - 1])
  }

  function CandidateStart(c: Candidate): int {
    c.start
  }

  /**
    n is where the loop breaks: the total before each of the first n
    candidates was below the target, and the total of those n has reached
    it unless every candidate was taken.
  */
  predicate GreedyPrefix(candidates: seq<Candidate>, target: real, n: nat) {
    && n <= |candidates|
    && (forall k :: 0 <= k < n ==> PayTotal(candidates[..k]) < target)
    && (n < |candidates| ==> PayTotal(candidates[..n]) >= target)
  }

  /** The break point is determined by the candidates and the target. */
  lemma GreedyPrefixUnique(candidates: seq<Candidate>, target: real, n: nat, m: nat)
    requires GreedyPrefix(candidates, target, n) && GreedyPrefix(candidates, target, m)
    ensures n == m
  {
  }

  /** A target that is not positive selects nothing. */
  lemma NothingForNoTarget(candidates: seq<Candidate>, target: real, n: nat)
    requires GreedyPrefix(candidates, target, n) && target <= 0.0
    ensures n == 0
  {
    assert candidates[..0] == [];
  }

  /**
    selectOptimalShifts without shuffling: the candidates up to the break
    point, sorted by start, and their total earnings.
  */
  method SelectOptimalShifts(candidates: seq<Candidate>, target: real)
    returns (selected: seq<Candidate>, total: real)
    ensures GreedyPrefix(candidates, target, |selected|)
    ensures total == PayTotal(candidates[..|selected|])
    ensures SortedBy(selected, CandidateStart)
    ensures multiset(selected) == multiset(candidates[..|selected|])
    ensures selected == SortBy(candidates[..|selected|], CandidateStart)
  {
    var chosen: seq<Candidate> := [];
    total := 0.0;
    var n := 0;
    // the loop body starts with `if (totalEarnings >= targetEarnings) break;`
    while n < |candidates| && total < target
      invariant 0 <= n <= |candidates|
      invariant chosen == candidates[..n]
      invariant total == PayTotal(candidates[..n])
      invariant forall k :: 0 <= k < n ==> PayTotal(candidates[..k]) < target
    {
      assert candidates[..n + 1][..n] == candidates[..n];
      total := total + CandidatePay(candidates[n]);
      chosen := chosen + [candidates[n]];
      n := n + 1;
    }
    selected := SortBy(chosen, CandidateStart);
  }
}
