/**
  The proposal draft of TestCode/test2.js: the mock unavailable times, the
  day-by-day carving of shifts around the blocked times under an eight-hour
  daily cap, the hour-by-hour pricing of a shift and the greedy selection
  against a target.
*/
module CappedProposal {
  import opened CivilTime
  import opened Seqs
  import opened Blocks

  /** Eight hours, the daily cap, in minutes. */
  const DailyCap: int := 480

  // ---------------------------------------------------------------------
  // getUnavailableTimes (mock variant)
  // ---------------------------------------------------------------------

  /** The mock appointments and the sleep blocks of every date from start to end, by start. */
  function MockUnavailable(sleepStart: Minute, sleepEnd: Minute, start: int, end: int): (r: seq<TimeBlock>)
    ensures SortedBy(r, BlockStart)
    ensures multiset(r) == multiset(MockBlocks() + SplitEachDate(DaySpan(start, end), sleepStart, sleepEnd))
  {
    SortBlocks(MockBlocks() + SplitEachDate(DaySpan(start, end), sleepStart, sleepEnd))
  }

  method GetUnavailableTimes(sleepStart: Minute, sleepEnd: Minute, start: int, end: int)
    returns (times: seq<TimeBlock>)
    ensures times == MockUnavailable(sleepStart, sleepEnd, start, end)
  {
    var dates := DateRange(start, end);
    var sleep := SplitEachDate(dates, sleepStart, sleepEnd);
    times := SortBlocks(MockBlocks() + sleep);
  }

  // ---------------------------------------------------------------------
  // proposeShifts: the carving of one day
  // ---------------------------------------------------------------------

  /** The state of the block loop: currentTime, totalHours (in minutes) and dayShifts. */
  datatype Cursor = Cursor(time: int, used: int, shifts: seq<Interval>)

  /** Total minutes of a list of shifts. */
  function Total(s: seq<Interval>): int {
    if s == [] then 0 else Total(s[..|s| - 1]) + Length(s[|s| - 1])
  }

  /**
    One block: the gap before it becomes a shift, shortened so that the day
    stays within the cap; then the cursor moves to the later of the block's
    end and the opening time.
  */
  function ScanStep(c: Cursor, b: TimeBlock, dayOpen: int): Cursor {
    var next := if BlockEnd(b) > dayOpen then BlockEnd(b) else dayOpen;
    if c.time < BlockStart(b) then
      var duration := if c.used + (BlockStart(b) - c.time) > DailyCap then DailyCap - c.used
                      else BlockStart(b) - c.time;
      if duration > 0 then Cursor(next, c.used + duration, c.shifts + [Interval(c.time, c.time + duration)])
      else Cursor(next, c.used, c.shifts)
    else Cursor(next, c.used, c.shifts)
  }

  /** The block loop over the day's blocks, from the opening time. */
  function Scan(blocks: seq<TimeBlock>, dayOpen: int): Cursor {
    if blocks == [] then Cursor(dayOpen, 0, [])
    else ScanStep(Scan(blocks[..|blocks| - 1], dayOpen), blocks[|blocks| - 1], dayOpen)
  }

  /** The shift after the last block: up to the cap, clamped to the closing time. */
  function Trailing(c: Cursor, dayClose: int): seq<Interval> {
    if c.time < dayClose && c.used < DailyCap then
      var potential := c.time + (DailyCap - c.used);
      var end := if potential > dayClose then dayClose else potential;
      if c.time < end then [Interval(c.time, end)] else []
    else []
  }

  /** The shifts proposed for one day. */
  function DayShifts(blocked: seq<TimeBlock>, day: int, open: Minute, close: Minute): seq<Interval> {
    var c := Scan(DayBlocks(blocked, day), Instant(day, open));
    c.shifts + Trailing(c, Instant(day, close))
  }

  /**
    What the block loop keeps: the minutes used are the shifts' total and
    within the cap, the cursor never goes before the opening time, every
    shift is non-empty, starts at or after the opening time and ends no
    later than the start of some block of the day or at the cap.
  */
  lemma {:induction false} ScanInvariant(blocks: seq<TimeBlock>, dayOpen: int)
    ensures CursorInvariant(Scan(blocks, dayOpen), dayOpen)
  {
    if blocks != [] {
      ScanInvariant(blocks[..|blocks| - 1], dayOpen);
      ScanStepKeeps(Scan(blocks[..|blocks| - 1], dayOpen), blocks[|blocks| - 1], dayOpen);
    }
  }

  predicate CursorInvariant(c: Cursor, dayOpen: int) {
    && c.used == Total(c.shifts) && 0 <= c.used <= DailyCap && c.time >= dayOpen
    && (forall v :: v in c.shifts ==> dayOpen <= v.start < v.end)
  }

  lemma ScanStepKeeps(c: Cursor, b: TimeBlock, dayOpen: int)
    requires CursorInvariant(c, dayOpen)
    ensures CursorInvariant(ScanStep(c, b, dayOpen), dayOpen)
  {
    var c' := ScanStep(c, b, dayOpen);
    if |c'.shifts| > |c.shifts| {
      assert c'.shifts[..|c'.shifts| - 1] == c.shifts;
    }
  }

  predicate EndsAtBlockOrCap(c: Cursor, blocks: seq<TimeBlock>) {
    forall i :: 0 <= i < |c.shifts| ==>
      (exists b :: b in blocks && c.shifts[i].end == BlockStart(b))
      || (i == |c.shifts| - 1 && c.used == DailyCap)
  }

  /**
    Only the cap shortens a shift of the block loop: each one ends at the
    start of a block of the day, except possibly the last, which may instead
    end where the day reaches eight hours.
  */
  lemma {:induction false} ScanEnds(blocks: seq<TimeBlock>, dayOpen: int)
    ensures EndsAtBlockOrCap(Scan(blocks, dayOpen), blocks)
  {
    if blocks != [] {
      var init := blocks[..|blocks| - 1];
      ScanEnds(init, dayOpen);
      ScanInvariant(init, dayOpen);
      var c := Scan(init, dayOpen);
      var c' := Scan(blocks, dayOpen);
      var last := blocks[|blocks| - 1];
      forall i | 0 <= i < |c'.shifts|
        ensures (exists b :: b in blocks && c'.shifts[i].end == BlockStart(b))
             || (i == |c'.shifts| - 1 && c'.used == DailyCap)
      {
        if i < |c.shifts| {
          assert c'.shifts[i] == c.shifts[i];
          if exists b :: b in init && c.shifts[i].end == BlockStart(b) {
            var b :| b in init && c.shifts[i].end == BlockStart(b);
            assert b in blocks;
          } else {
            assert c.used == DailyCap;
            assert c'.shifts == c.shifts;
          }
        } else {
          assert last in blocks;
          assert c.time < BlockStart(last);
          if c.used + (BlockStart(last) - c.time) > DailyCap {
            assert c'.used == DailyCap && i == |c'.shifts| - 1;
          } else {
            assert c'.shifts[i].end == BlockStart(last);
          }
        }
      }
    }
  }

  /**
    If the blocks come in order of their start and none ends before it
    starts, every shift ends before the cursor and before the start of the
    last block looked at, and the shifts follow each other without overlap.
  */
  lemma {:induction false} ScanOrdered(blocks: seq<TimeBlock>, dayOpen: int)
    requires SortedBy(blocks, BlockStart)
    requires forall b :: b in blocks ==> BlockStart(b) <= BlockEnd(b)
    ensures forall v :: v in Scan(blocks, dayOpen).shifts ==> v.end <= Scan(blocks, dayOpen).time
    ensures blocks != [] ==>
      forall v :: v in Scan(blocks, dayOpen).shifts ==> v.end <= BlockStart(blocks[|blocks| - 1])
    ensures forall i, j :: 0 <= i < j < |Scan(blocks, dayOpen).shifts| ==>
      Scan(blocks, dayOpen).shifts[i].end <= Scan(blocks, dayOpen).shifts[j].start
  {
    if blocks != [] {
      var init := blocks[..|blocks| - 1];
      var last := blocks[|blocks| - 1];
      assert forall i :: 0 <= i < |init| ==> init[i] == blocks[i];
      ScanOrdered(init, dayOpen);
      var c := Scan(init, dayOpen);
      var c' := Scan(blocks, dayOpen);
      assert last in blocks;
      if init != [] {
        assert BlockStart(init[|init| - 1]) <= BlockStart(last);
      }
      forall v | v in c'.shifts ensures v.end <= BlockStart(last) && v.end <= c'.time {
        if v !in c.shifts {
          assert v == c'.shifts[|c'.shifts| - 1];
        }
      }
      forall i, j | 0 <= i < j < |c'.shifts| ensures c'.shifts[i].end <= c'.shifts[j].start {
        if j >= |c.shifts| {
          assert c'.shifts[i] == c.shifts[i] && c.shifts[i] in c.shifts;
          assert c'.shifts[j].start == c.time;
        } else {
          assert c'.shifts[i] == c.shifts[i] && c'.shifts[j] == c.shifts[j];
        }
      }
    }
  }

  /** A day's shifts are non-empty, start at or after its opening and total at most eight hours. */
  lemma DayShiftsBounded(blocked: seq<TimeBlock>, day: int, open: Minute, close: Minute)
    ensures Total(DayShifts(blocked, day, open, close)) <= DailyCap
    ensures forall v :: v in DayShifts(blocked, day, open, close) ==>
      Instant(day, open) <= v.start < v.end
  {
    var blocks := DayBlocks(blocked, day);
    var c := Scan(blocks, Instant(day, open));
    ScanInvariant(blocks, Instant(day, open));
    var t := Trailing(c, Instant(day, close));
    TotalConcat(c.shifts, t);
    if t != [] {
      assert t[..0] == [];
      assert Total(t) == Length(t[0]);
    }
  }

  lemma {:induction false} TotalConcat(a: seq<Interval>, b: seq<Interval>)
    ensures Total(a + b) == Total(a) + Total(b)
    decreases |b|
  {
    if b == [] {
      assert a + b == a;
    } else {
      assert (a + b)[..|a + b| - 1] == a + b[..|b| - 1];
      TotalConcat(a, b[..|b| - 1]);
    }
  }

  /**
    The shift after the last block ends at the earlier of the closing time
    and the moment the day reaches eight hours; the others are not clamped
    to the closing time.
  */
  lemma TrailingClamp(c: Cursor, dayClose: int)
    requires Trailing(c, dayClose) != []
    ensures |Trailing(c, dayClose)| == 1 && Trailing(c, dayClose)[0].start == c.time
    ensures Trailing(c, dayClose)[0].end <= dayClose
    ensures Trailing(c, dayClose)[0].end - c.time <= DailyCap - c.used
    ensures Trailing(c, dayClose)[0].end == dayClose || Trailing(c, dayClose)[0].end - c.time == DailyCap - c.used
  {
  }

  /**
    A shift of the block loop can run past the closing time: with the store
    open 08:00-12:00 and one block 14:00-15:00, the day's first shift is
    08:00-14:00.
  */
  lemma IntermediateShiftPassesClose(day: int)
    ensures DayShifts([TimeBlock(day, 14 * 60, 15 * 60)], day, 8 * 60, 12 * 60)
         == [Interval(Instant(day, 8 * 60), Instant(day, 14 * 60))]
    ensures Instant(day, 14 * 60) > Instant(day, 12 * 60)
  {
    var b := TimeBlock(day, 14 * 60, 15 * 60);
    assert DayBlocks([b], day) == [b];
    assert [b][..0] == [];
    var o := Instant(day, 8 * 60);
    assert Scan([b][..0], o) == Cursor(o, 0, []);
    var c := Scan([b], o);
    assert c == ScanStep(Cursor(o, 0, []), b, o);
    assert c == Cursor(Instant(day, 15 * 60), 360, [Interval(Instant(day, 8 * 60), Instant(day, 14 * 60))]);
    assert Trailing(c, Instant(day, 12 * 60)) == [];
  }

  /** Whatever the other dates hold, a day's shifts depend only on the blocks of that date. */
  lemma OtherDatesIgnored(p: seq<TimeBlock>, b: TimeBlock, q: seq<TimeBlock>, day: int, open: Minute, close: Minute)
    requires b.date != day
    ensures DayShifts(p + [b] + q, day, open, close) == DayShifts(p + q, day, open, close)
  {
    var f := OnDay(day);
    FilterConcat(p + [b], q, f);
    FilterConcat(p, [b], f);
    FilterConcat(p, q, f);
    assert [b][1..] == [];
    assert Filter([b], f) == [];
    assert DayBlocks(p + [b] + q, day) == DayBlocks(p + q, day);
  }

  /** Every shift of a day lies between its opening and the following midnight. */
  lemma DayShiftsWithinDay(blocked: seq<TimeBlock>, day: int, open: Minute, close: Minute)
    ensures forall v :: v in DayShifts(blocked, day, open, close) ==>
      Instant(day, open) <= v.start && v.end <= Instant(day + 1, 0)
  {
    var blocks := DayBlocks(blocked, day);
    var c := Scan(blocks, Instant(day, open));
    ScanInvariant(blocks, Instant(day, open));
    ScanEnds(blocks, Instant(day, open));
    forall v | v in c.shifts ensures v.end <= Instant(day + 1, 0) {
      var i :| 0 <= i < |c.shifts| && c.shifts[i] == v;
      if exists b :: b in blocks && v.end == BlockStart(b) {
        var b :| b in blocks && v.end == BlockStart(b);
        assert b.date == day;
      } else {
        CapEndsInsideBlocks(blocks, Instant(day, open), day);
      }
    }
  }

  /**
    The last shift of the block loop, when it reaches the cap, still ends no
    later than the start of the block it was carved before.
  */
  lemma {:induction false} CapEndsInsideBlocks(blocks: seq<TimeBlock>, dayOpen: int, day: int)
    requires forall b :: b in blocks ==> b.date == day
    ensures forall v :: v in Scan(blocks, dayOpen).shifts ==> v.end <= Instant(day + 1, 0)
  {
    if blocks != [] {
      var init := blocks[..|blocks| - 1];
      var last := blocks[|blocks| - 1];
      assert forall b :: b in init ==> b in blocks;
      CapEndsInsideBlocks(init, dayOpen, day);
      assert last in blocks;
    }
  }

  /** Both branches of the day loop at once: the shifts of one day are in order and do not overlap. */
  lemma DayShiftsOrdered(blocked: seq<TimeBlock>, day: int, open: Minute, close: Minute)
    requires SortedBy(blocked, BlockStart)
    requires forall b :: b in blocked ==> BlockStart(b) <= BlockEnd(b)
    ensures var s := DayShifts(blocked, day, open, close);
      forall i, j :: 0 <= i < j < |s| ==> s[i].end <= s[j].start
  {
    var blocks := DayBlocks(blocked, day);
    FilterKeepsSorted(blocked, OnDay(day), BlockStart);
    ScanOrdered(blocks, Instant(day, open));
    var c := Scan(blocks, Instant(day, open));
    var s := DayShifts(blocked, day, open, close);
    var t := Trailing(c, Instant(day, close));
    assert s == c.shifts + t;
    forall i, j | 0 <= i < j < |s| ensures s[i].end <= s[j].start {
      if j >= |c.shifts| {
        assert s[j].start == c.time;
        assert s[i] == c.shifts[i] && c.shifts[i] in c.shifts;
      } else {
        assert s[i] == c.shifts[i] && s[j] == c.shifts[j];
      }
    }
  }

  // ---------------------------------------------------------------------
  // proposeShifts: the day loop
  // ---------------------------------------------------------------------

  /** The first day: the start date's day at opening time, or the next day if that is before start. */
  function FirstDay(start: int, open: Minute): int {
    if Instant(DayOf(start), open) < start then DayOf(start) + 1 else DayOf(start)
  }

  /** The shifts of every day from `day` on whose opening instant is not after end. */
  function ProposeFrom(blocked: seq<TimeBlock>, day: int, end: int, open: Minute, close: Minute): seq<Interval>
    decreases end - Instant(day, open)
  {
    if Instant(day, open) > end then []
    else DayShifts(blocked, day, open, close) + ProposeFrom(blocked, day + 1, end, open, close)
  }

  /** The proposal of the draft over [start, end] for a list of blocked times. */
  function Proposal(blocked: seq<TimeBlock>, start: int, end: int, open: Minute, close: Minute): seq<Interval> {
    ProposeFrom(blocked, FirstDay(start, open), end, open, close)
  }

  /**
    Every shift of the proposal comes from one day of the loop: it starts at
    or after that day's opening, itself not before start nor after end, and
    it ends by the following midnight.
  */
  lemma {:induction false} ProposeFromDays(blocked: seq<TimeBlock>, day: int, end: int, open: Minute, close: Minute)
    ensures forall v :: v in ProposeFrom(blocked, day, end, open, close) ==>
      exists d :: day <= d && Instant(d, open) <= end && v in DayShifts(blocked, d, open, close)
    decreases end - Instant(day, open)
  {
    if Instant(day, open) <= end {
      ProposeFromDays(blocked, day + 1, end, open, close);
    }
  }

  /** Every proposed shift starts at or after start, is non-empty and ends by the midnight after its day. */
  lemma ProposalInWindow(blocked: seq<TimeBlock>, start: int, end: int, open: Minute, close: Minute)
    ensures forall v :: v in Proposal(blocked, start, end, open, close) ==>
      start <= v.start < v.end && DayOf(v.start) <= DayOf(end)
  {
    var first := FirstDay(start, open);
    ProposeFromDays(blocked, first, end, open, close);
    forall v | v in Proposal(blocked, start, end, open, close)
      ensures start <= v.start < v.end && DayOf(v.start) <= DayOf(end)
    {
      var d :| first <= d && Instant(d, open) <= end && v in DayShifts(blocked, d, open, close);
      DayShiftsBounded(blocked, d, open, close);
      DayShiftsWithinDay(blocked, d, open, close);
      assert Instant(first, open) >= start;
      assert Instant(d, open) >= Instant(first, open);
      DayOfInstant(v.start, d);
      DayOfMonotone(Instant(d, 0), end);
      DayOfInstant(Instant(d, 0), d);
    }
  }

  /**
    With blocks in order of their start, none ending before it starts, the
    whole proposal runs forward in time without two shifts overlapping.
  */
  lemma {:induction false} ProposeFromOrdered(blocked: seq<TimeBlock>, day: int, end: int, open: Minute, close: Minute)
    requires SortedBy(blocked, BlockStart)
    requires forall b :: b in blocked ==> BlockStart(b) <= BlockEnd(b)
    ensures forall v :: v in ProposeFrom(blocked, day, end, open, close) ==> Instant(day, open) <= v.start
    ensures forall i, j :: 0 <= i < j < |ProposeFrom(blocked, day, end, open, close)| ==>
      ProposeFrom(blocked, day, end, open, close)[i].end <= ProposeFrom(blocked, day, end, open, close)[j].start
    decreases end - Instant(day, open)
  {
    if Instant(day, open) <= end {
      ProposeFromOrdered(blocked, day + 1, end, open, close);
      DayShiftsOrdered(blocked, day, open, close);
      DayShiftsWithinDay(blocked, day, open, close);
      var a := DayShifts(blocked, day, open, close);
      var rest := ProposeFrom(blocked, day + 1, end, open, close);
      var all := ProposeFrom(blocked, day, end, open, close);
      assert all == a + rest;
      forall v | v in all ensures Instant(day, open) <= v.start {
        if v !in a {
          assert v in rest;
        }
      }
      forall i, j | 0 <= i < j < |all| ensures all[i].end <= all[j].start {
        if j < |a| {
          assert all[i] == a[i] && all[j] == a[j];
        } else if i >= |a| {
          assert all[i] == rest[i - |a|] && all[j] == rest[j - |a|];
        } else {
          assert all[i] == a[i] && a[i] in a;
          assert all[j] == rest[j - |a|] && rest[j - |a|] in rest;
        }
      }
    }
  }

  /**
    The body of the day loop: the block loop over the blocks dated `day`,
    from the opening time, then the trailing shift up to the closing time.
  */
  method CarveDay(blocked: seq<TimeBlock>, day: int, open: Minute, close: Minute)
    returns (dayShifts: seq<Interval>)
    ensures dayShifts == DayShifts(blocked, day, open, close)
  {
    var dayOpen := Instant(day, open);
    var dayClose := Instant(day, close);
    var blocks := Filter(blocked, OnDay(day));
    var cursor := Cursor(dayOpen, 0, []);
    for n := 0 to |blocks|
      invariant cursor == Scan(blocks[..n], dayOpen)
    {
      assert blocks[..n + 1][..n] == blocks[..n];
      cursor := ScanStep(cursor, blocks[n], dayOpen);
    }
    assert blocks[..|blocks|] == blocks;
    dayShifts := cursor.shifts + Trailing(cursor, dayClose);
  }

  /** One turn of the day loop: the day's shifts move from the part still to come to the part done. */
  lemma ProposeNext(blocked: seq<TimeBlock>, day: int, end: int, open: Minute, close: Minute,
                    done: seq<Interval>, all: seq<Interval>)
    requires Instant(day, open) <= end
    requires done + ProposeFrom(blocked, day, end, open, close) == all
    ensures (done + DayShifts(blocked, day, open, close)) + ProposeFrom(blocked, day + 1, end, open, close) == all
  {
    var today := DayShifts(blocked, day, open, close);
    var rest := ProposeFrom(blocked, day + 1, end, open, close);
    assert ProposeFrom(blocked, day, end, open, close) == today + rest;
    assert done + (today + rest) == (done + today) + rest;
  }

  /**
    proposeShifts: the mock blocked times, then for each day from the first
    one the block loop and the trailing shift.
  */
  method ProposeShifts(sleepStart: Minute, sleepEnd: Minute, start: int, end: int, open: Minute, close: Minute)
    returns (shifts: seq<Interval>)
    ensures shifts == Proposal(MockUnavailable(sleepStart, sleepEnd, start, end), start, end, open, close)
  {
    var blocked := GetUnavailableTimes(sleepStart, sleepEnd, start, end);
    shifts := [];
    var day := FirstDay(start, open);
    while Instant(day, open) <= end
      invariant shifts + ProposeFrom(blocked, day, end, open, close) == Proposal(blocked, start, end, open, close)
      decreases end - Instant(day, open)
    {
      var dayShifts := CarveDay(blocked, day, open, close);
      ProposeNext(blocked, day, end, open, close, shifts, Proposal(blocked, start, end, open, close));
      shifts := shifts + dayShifts;
      day := day + 1;
    }
  }

  // ---------------------------------------------------------------------
  // runTests: the hour-sliced wage
  // ---------------------------------------------------------------------

  /** The one-hour steps from t, the last one clipped at end. */
  function SlicesFrom(t: int, end: int): seq<Interval>
    decreases end - t
  {
    if t >= end then []
    else [Interval(t, if t + MinutesPerHour > end then end else t + MinutesPerHour)] + SlicesFrom(t + MinutesPerHour, end)
  }

  predicate IsNightHour(t: int) {
    HourOf(t) >= 22 || HourOf(t) < 5
  }

  /** The pay of one slice: night or hourly rate, plus the holiday surcharge on Saturday and Sunday. */
  function SlicePay(v: Interval, w: Wages): real {
    var hours := Length(v) as real / 60.0;
    var base := if IsNightHour(v.start) then hours * w.night as real else hours * w.hourly as real;
    base + (if IsWeekend(DayOf(v.start)) then hours * (w.holiday - w.hourly) as real else 0.0)
  }

  function PayOf(slices: seq<Interval>, w: Wages): real {
    if slices == [] then 0.0 else SlicePay(slices[0], w) + PayOf(slices[1..], w)
  }

  /** The earnings of a shift: the pay of its hour slices. */
  function ShiftPay(v: Interval, w: Wages): real {
    PayOf(SlicesFrom(v.start, v.end), w)
  }

  function SliceLengths(s: seq<Interval>): int {
    if s == [] then 0 else Length(s[0]) + SliceLengths(s[1..])
  }

  /**
    The slices run from t to end one after the other, each non-empty and at
    most an hour long, and together last exactly the shift.
  */
  lemma {:induction false} SlicesCover(t: int, end: int)
    requires t < end
    ensures var s := SlicesFrom(t, end);
      && |s| > 0 && s[0].start == t && s[|s| - 1].end == end
      && (forall i :: 0 <= i < |s| ==> s[i].start < s[i].end <= s[i].start + MinutesPerHour)
      && (forall i :: 0 <= i < |s| - 1 ==> s[i].end == s[i + 1].start)
      && SliceLengths(s) == end - t
    decreases end - t
  {
    var s := SlicesFrom(t, end);
    if t + MinutesPerHour < end {
      SlicesCover(t + MinutesPerHour, end);
      var rest := SlicesFrom(t + MinutesPerHour, end);
      assert s == [Interval(t, t + MinutesPerHour)] + rest;
      assert s[1..] == rest;
      forall i | 0 <= i < |s| - 1 ensures s[i].end == s[i + 1].start {
        if i > 0 {
          assert s[i] == rest[i - 1] && s[i + 1] == rest[i];
        }
      }
    } else {
      assert SlicesFrom(t + MinutesPerHour, end) == [];
      assert s == [Interval(t, end)];
    }
  }

  lemma {:induction false} SliceLengthsCover(t: int, end: int)
    requires t <= end
    ensures SliceLengths(SlicesFrom(t, end)) == end - t
    decreases end - t
  {
    if t < end {
      var next := if t + MinutesPerHour > end then end else t + MinutesPerHour;
      SliceLengthsCover(next, end);
      if t + MinutesPerHour >= end {
        assert SlicesFrom(t + MinutesPerHour, end) == [];
      }
    }
  }

  /** With a single rate throughout, a shift earns its hours times that rate. */
  lemma FlatRate(v: Interval, rate: int)
    requires v.start <= v.end
    ensures ShiftPay(v, Wages(rate, rate, rate)) == Length(v) as real / 60.0 * rate as real
  {
    SliceLengthsCover(v.start, v.end);
    FlatRateSlices(SlicesFrom(v.start, v.end), rate);
  }

  lemma {:induction false} FlatRateSlices(s: seq<Interval>, rate: int)
    ensures PayOf(s, Wages(rate, rate, rate)) == SliceLengths(s) as real / 60.0 * rate as real
  {
    if s != [] {
      FlatRateSlices(s[1..], rate);
    }
  }

  /** A Saturday hour from 23:00 at 1000/1200/1500 earns 1200 + 500 = 1700. */
  lemma SaturdayNightHour(d: int)
    requires Weekday(d) == 6
    ensures ShiftPay(Interval(Instant(d, 23 * 60), Instant(d + 1, 0)), Wages(1000, 1200, 1500)) == 1700.0
  {
    var v := Interval(Instant(d, 23 * 60), Instant(d + 1, 0));
    var w := Wages(1000, 1200, 1500);
    assert SlicesFrom(v.start + 60, v.end) == [];
    assert SlicesFrom(v.start, v.end) == [v];
    assert HourOf(v.start) == 23;
    assert DayOf(v.start) == d && IsWeekend(d);
    assert Length(v) == 60;
    assert SlicePay(v, w) == 1.0 * 1200.0 + 1.0 * 500.0;
    assert PayOf([v], w) == SlicePay(v, w) + PayOf([v][1..], w);
  }

  /** The wage loop of runTests for one shift. */
  method ShiftEarnings(v: Interval, w: Wages) returns (earnings: real)
    ensures earnings == ShiftPay(v, w)
  {
    earnings := 0.0;
    var current := v.start;
    while current < v.end
      invariant earnings + PayOf(SlicesFrom(current, v.end), w) == ShiftPay(v, w)
      decreases v.end - current
    {
      var next := current + MinutesPerHour;
      if next > v.end {
        next := v.end;
      }
      earnings := earnings + SlicePay(Interval(current, next), w);
      current := current + MinutesPerHour;
    }
  }

  // ---------------------------------------------------------------------
  // runTests: the greedy selection
  // ---------------------------------------------------------------------

  /** selectedShifts and totalEarnings. */
  datatype Selection = Selection(chosen: seq<Interval>, total: real)

  /**
    The greedy loop under any pay function: a shift is taken whenever the
    total so far is at most the target; the loop never stops early.
  */
  function Pick(shifts: seq<Interval>, pay: Interval -> real, target: real): Selection {
    if shifts == [] then Selection([], 0.0)
    else
      var s := Pick(shifts[..|shifts| - 1], pay, target);
      var v := shifts[|shifts| - 1];
      if s.total <= target then Selection(s.chosen + [v], s.total + pay(v)) else s
  }

  function SumOf(s: seq<Interval>, pay: Interval -> real): real {
    if s == [] then 0.0 else SumOf(s[..|s| - 1], pay) + pay(s[|s| - 1])
  }

  lemma {:induction false} PickTotal(shifts: seq<Interval>, pay: Interval -> real, target: real)
    ensures Pick(shifts, pay, target).total == SumOf(Pick(shifts, pay, target).chosen, pay)
    ensures IsSubsequence(Pick(shifts, pay, target).chosen, shifts)
    ensures Pick(shifts, pay, target).chosen != [] ==>
      Pick(shifts, pay, target).total
        - pay(Pick(shifts, pay, target).chosen[|Pick(shifts, pay, target).chosen| - 1]) <= target
  {
    if shifts != [] {
      var init := shifts[..|shifts| - 1];
      var v := shifts[|shifts| - 1];
      PickTotal(init, pay, target);
      var s := Pick(init, pay, target);
      var chosen := Pick(shifts, pay, target).chosen;
      if s.total <= target {
        assert chosen[..|chosen| - 1] == s.chosen;
        SubsequenceSnoc(s.chosen, init, v);
      } else {
        SubsequenceExtend(s.chosen, init, v);
      }
      assert init + [v] == shifts;
    }
  }

  /**
    Once the total is over the target nothing more is taken and the total
    stays put, so the chosen shifts are a prefix of the input.
  */
  lemma {:induction false} PickIsPrefix(shifts: seq<Interval>, pay: Interval -> real, target: real)
    ensures |Pick(shifts, pay, target).chosen| <= |shifts|
    ensures Pick(shifts, pay, target).chosen == shifts[..|Pick(shifts, pay, target).chosen|]
    ensures |Pick(shifts, pay, target).chosen| < |shifts| ==> Pick(shifts, pay, target).total > target
    ensures Pick(shifts, pay, target).total <= target ==> Pick(shifts, pay, target).chosen == shifts
  {
    if shifts != [] {
      var init := shifts[..|shifts| - 1];
      PickIsPrefix(init, pay, target);
      var s := Pick(init, pay, target);
      var v := shifts[|shifts| - 1];
      if s.total <= target {
        assert s.chosen == init;
        assert Pick(shifts, pay, target).chosen == shifts by {
          assert init + [v] == shifts;
        }
        assert shifts[..|shifts|] == shifts;
      } else {
        assert Pick(shifts, pay, target) == s;
        assert shifts[..|s.chosen|] == init[..|s.chosen|];
      }
    }
  }

  /** The earnings of a shift at the given wages. */
  function PayAt(w: Wages): Interval -> real {
    v => ShiftPay(v, w)
  }

  /** The selection of runTests: the greedy loop with the hour-sliced earnings. */
  function Select(shifts: seq<Interval>, w: Wages, target: real): Selection {
    Pick(shifts, PayAt(w), target)
  }

  /** The earnings of a list of shifts, added up in order. */
  function SumPay(s: seq<Interval>, w: Wages): real {
    SumOf(s, PayAt(w))
  }

  /**
    The total is the earnings of the chosen shifts, which keep their order,
    and before the last one was added the total was still at most the target.
  */
  lemma SelectionTotal(shifts: seq<Interval>, w: Wages, target: real)
    ensures Select(shifts, w, target).total == SumPay(Select(shifts, w, target).chosen, w)
    ensures IsSubsequence(Select(shifts, w, target).chosen, shifts)
    ensures Select(shifts, w, target).chosen != [] ==>
      Select(shifts, w, target).total
        - ShiftPay(Select(shifts, w, target).chosen[|Select(shifts, w, target).chosen| - 1], w) <= target
  {
    PickTotal(shifts, PayAt(w), target);
    var chosen := Select(shifts, w, target).chosen;
    if chosen != [] {
      assert PayAt(w)(chosen[|chosen| - 1]) == ShiftPay(chosen[|chosen| - 1], w);
    }
  }

  /** With rates that are not negative and a holiday pay not below the hourly wage, no shift pays less than nothing. */
  lemma PayNotNegative(v: Interval, w: Wages)
    requires 0 <= w.hourly <= w.holiday && 0 <= w.night
    ensures ShiftPay(v, w) >= 0.0
  {
    if v.start < v.end {
      SlicesCover(v.start, v.end);
    }
    SlicesPayNotNegative(SlicesFrom(v.start, v.end), w);
  }

  lemma {:induction false} SlicesPayNotNegative(s: seq<Interval>, w: Wages)
    requires 0 <= w.hourly <= w.holiday && 0 <= w.night
    requires forall i :: 0 <= i < |s| ==> s[i].start <= s[i].end
    ensures PayOf(s, w) >= 0.0
  {
    if s != [] {
      assert forall i :: 0 <= i < |s[1..]| ==> s[1..][i] == s[i + 1];
      SlicesPayNotNegative(s[1..], w);
    }
  }

  /**
    The selection is the longest prefix whose every addition found the
    total at most the target: once it skips a shift the total is over the
    target for good, and a final total at most the target means every
    shift was taken.
  */
  lemma SelectionIsPrefix(shifts: seq<Interval>, w: Wages, target: real)
    ensures |Select(shifts, w, target).chosen| <= |shifts|
    ensures Select(shifts, w, target).chosen == shifts[..|Select(shifts, w, target).chosen|]
    ensures |Select(shifts, w, target).chosen| < |shifts| ==> Select(shifts, w, target).total > target
    ensures Select(shifts, w, target).total <= target ==> Select(shifts, w, target).chosen == shifts
  {
    PickIsPrefix(shifts, PayAt(w), target);
  }

  /** The selection loop of runTests. */
  method SelectShifts(shifts: seq<Interval>, w: Wages, target: real)
    returns (selected: seq<Interval>, total: real)
    ensures Selection(selected, total) == Select(shifts, w, target)
  {
    selected, total := [], 0.0;
    for n := 0 to |shifts|
      invariant Selection(selected, total) == Select(shifts[..n], w, target)
    {
      assert shifts[..n + 1][..n] == shifts[..n];
      var earnings := ShiftEarnings(shifts[n], w);
      if total <= target {
        selected := selected + [shifts[n]];
        total := total + earnings;
      }
    }
    assert shifts[..|shifts|] == shifts;
  }
}
