/**
  The unavailability aggregator of public/script/shiftScheduler.js: the
  registered records expanded into a window, the sleep and store-closed
  blocks of every date of the window, all of them sorted by start, and the
  window and sleep hours getShifts derives from its form.
*/
module ShiftScheduler {
  import opened CivilTime
  import opened Seqs
  import opened Results
  import opened Blocks
  import opened Recurrence
  import opened Store
  import opened IsoText
  import opened JsText

  // ---------------------------------------------------------------------
  // loadRegisteredTimes
  // ---------------------------------------------------------------------

  /** The blocks pushed for the visited dates cs: one for each date not before startDay. */
  function WindowBlocks(cs: seq<Civil>, startDay: int, st: Minute, et: Minute): seq<TimeBlock> {
    if cs == [] then []
    else
      WindowBlocks(cs[..|cs| - 1], startDay, st, et)
      + (if DayNumber(cs[|cs| - 1]) >= startDay then [TimeBlock(DayNumber(cs[|cs| - 1]), st, et)] else [])
  }

  /**
    The blocks one stored record contributes to the window
    [startDay, endDay]. A record with a recurrence other than the four
    known values whose date is not after endDay keeps the loop at its base
    date for ever: that is the EndlessRecurrence outcome. A date that is
    not a calendar date is an Invalid Date, which every comparison rejects.
  */
  function RecordBlocks(rec: StoredRecord, startDay: int, endDay: int): Result<seq<TimeBlock>> {
    var kind := RecurrenceOf(rec.recurrence);
    if kind == NoRepeat then
      if Valid(rec.date) && startDay <= DayNumber(rec.date) <= endDay
      then Ok([TimeBlock(DayNumber(rec.date), rec.startTime, rec.endTime)])
      else Ok([])
    else if !Valid(rec.date) || DayNumber(rec.date) > endDay then Ok([])
    else if Repeats(kind) then
      Ok(WindowBlocks(Occurrences(kind, rec.date, endDay), startDay, rec.startTime, rec.endTime))
    else Err(EndlessRecurrence)
  }

  lemma WindowBlocksSnoc(cs: seq<Civil>, c: Civil, startDay: int, st: Minute, et: Minute)
    ensures WindowBlocks(cs + [c], startDay, st, et)
         == WindowBlocks(cs, startDay, st, et) + (if DayNumber(c) >= startDay then [TimeBlock(DayNumber(c), st, et)] else [])
  {
    assert (cs + [c])[..|cs|] == cs;
  }

  lemma {:induction false} WindowBlocksMembers(cs: seq<Civil>, startDay: int, st: Minute, et: Minute, b: TimeBlock)
    ensures b in WindowBlocks(cs, startDay, st, et) <==>
      exists i :: 0 <= i < |cs| && DayNumber(cs[i]) >= startDay && b == TimeBlock(DayNumber(cs[i]), st, et)
  {
    if cs != [] {
      var init := cs[..|cs| - 1];
      WindowBlocksMembers(init, startDay, st, et, b);
      assert forall i :: 0 <= i < |init| ==> init[i] == cs[i];
    }
  }

  lemma {:induction false} WindowBlocksAscend(cs: seq<Civil>, startDay: int, st: Minute, et: Minute)
    requires forall i, j :: 0 <= i < j < |cs| ==> DayNumber(cs[i]) < DayNumber(cs[j])
    ensures forall i, j :: 0 <= i < j < |WindowBlocks(cs, startDay, st, et)| ==>
      WindowBlocks(cs, startDay, st, et)[i].date < WindowBlocks(cs, startDay, st, et)[j].date
  {
    if cs != [] {
      var init := cs[..|cs| - 1];
      var last := cs[|cs| - 1];
      assert forall i :: 0 <= i < |init| ==> init[i] == cs[i];
      WindowBlocksAscend(init, startDay, st, et);
      if DayNumber(last) >= startDay {
        WindowBlocksBelow(init, startDay, st, et, DayNumber(last));
        AscendSnoc(WindowBlocks(init, startDay, st, et), TimeBlock(DayNumber(last), st, et));
      }
    }
  }

  /** When every date is before a bound, so is every block of the window. */
  lemma WindowBlocksBelow(cs: seq<Civil>, startDay: int, st: Minute, et: Minute, bound: int)
    requires forall i :: 0 <= i < |cs| ==> DayNumber(cs[i]) < bound
    ensures forall b :: b in WindowBlocks(cs, startDay, st, et) ==> b.date < bound
  {
    forall b | b in WindowBlocks(cs, startDay, st, et) ensures b.date < bound {
      WindowBlocksMembers(cs, startDay, st, et, b);
    }
  }

  /** A block dated after every block of an ascending list extends it ascending. */
  lemma AscendSnoc(front: seq<TimeBlock>, x: TimeBlock)
    requires forall i, j :: 0 <= i < j < |front| ==> front[i].date < front[j].date
    requires forall b :: b in front ==> b.date < x.date
    ensures forall i, j :: 0 <= i < j < |front + [x]| ==> (front + [x])[i].date < (front + [x])[j].date
  {
    var r := front + [x];
    forall i, j | 0 <= i < j < |r| ensures r[i].date < r[j].date {
      assert r[i] == front[i] && front[i] in front;
    }
  }

  /**
    A non-repeating record contributes its own block exactly when its date
    lies in the window, with the stored times unchanged.
  */
  lemma NoneRecordBlocks(rec: StoredRecord, startDay: int, endDay: int, b: TimeBlock)
    requires rec.recurrence == "none"
    ensures RecordBlocks(rec, startDay, endDay).Ok?
    ensures |RecordBlocks(rec, startDay, endDay).value| <= 1
    ensures b in RecordBlocks(rec, startDay, endDay).value <==>
      Valid(rec.date) && startDay <= DayNumber(rec.date) <= endDay
      && b == TimeBlock(DayNumber(rec.date), rec.startTime, rec.endTime)
  {
  }

  /**
    A daily, weekly or monthly record contributes exactly the blocks at the
    iterates of its base date that lie in the window, each with the stored
    times.
  */
  lemma RepeatingRecordBlocks(rec: StoredRecord, startDay: int, endDay: int, b: TimeBlock)
    requires Repeats(RecurrenceOf(rec.recurrence)) && Valid(rec.date)
    ensures RecordBlocks(rec, startDay, endDay).Ok?
    ensures b in RecordBlocks(rec, startDay, endDay).value <==>
      exists k: nat :: startDay <= DayNumber(Iterate(RecurrenceOf(rec.recurrence), rec.date, k)) <= endDay
        && b == TimeBlock(DayNumber(Iterate(RecurrenceOf(rec.recurrence), rec.date, k)), rec.startTime, rec.endTime)
  {
    RepeatingRecordIsWindow(rec, startDay, endDay);
    OccurrenceBlocks(RecurrenceOf(rec.recurrence), rec.date, startDay, endDay, rec.startTime, rec.endTime, b);
  }

  /** A repeating record with a real date gives the window's blocks at the dates its loop visits. */
  lemma RepeatingRecordIsWindow(rec: StoredRecord, startDay: int, endDay: int)
    requires Repeats(RecurrenceOf(rec.recurrence)) && Valid(rec.date)
    ensures RecordBlocks(rec, startDay, endDay)
         == Ok(WindowBlocks(Occurrences(RecurrenceOf(rec.recurrence), rec.date, endDay), startDay, rec.startTime, rec.endTime))
  {
    if DayNumber(rec.date) > endDay {
      assert Occurrences(RecurrenceOf(rec.recurrence), rec.date, endDay) == [];
    }
  }

  /** The window blocks at the visited dates are those at the iterates that fall in the window. */
  lemma OccurrenceBlocks(kind: Recurrence, base: Civil, startDay: int, endDay: int, st: Minute, et: Minute, b: TimeBlock)
    requires Repeats(kind) && Valid(base)
    ensures b in WindowBlocks(Occurrences(kind, base, endDay), startDay, st, et) <==>
      exists k: nat :: startDay <= DayNumber(Iterate(kind, base, k)) <= endDay
        && b == TimeBlock(DayNumber(Iterate(kind, base, k)), st, et)
  {
    if b in WindowBlocks(Occurrences(kind, base, endDay), startDay, st, et) {
      var k := WindowBlockIsIterate(kind, base, startDay, endDay, st, et, b);
    }
    if exists k: nat :: startDay <= DayNumber(Iterate(kind, base, k)) <= endDay
        && b == TimeBlock(DayNumber(Iterate(kind, base, k)), st, et) {
      var k: nat :| startDay <= DayNumber(Iterate(kind, base, k)) <= endDay
        && b == TimeBlock(DayNumber(Iterate(kind, base, k)), st, et);
      IterateBlockInWindow(kind, base, startDay, endDay, st, et, k);
    }
  }

  lemma WindowBlockIsIterate(kind: Recurrence, base: Civil, startDay: int, endDay: int, st: Minute, et: Minute, b: TimeBlock)
    returns (k: nat)
    requires Repeats(kind) && Valid(base)
    requires b in WindowBlocks(Occurrences(kind, base, endDay), startDay, st, et)
    ensures startDay <= DayNumber(Iterate(kind, base, k)) <= endDay
    ensures b == TimeBlock(DayNumber(Iterate(kind, base, k)), st, et)
  {
    var occ := Occurrences(kind, base, endDay);
    OccurrencesAreIterates(kind, base, endDay);
    WindowBlocksMembers(occ, startDay, st, et, b);
    var i :| 0 <= i < |occ| && DayNumber(occ[i]) >= startDay && b == TimeBlock(DayNumber(occ[i]), st, et);
    assert occ[i] == Iterate(kind, base, i);
    k := i;
  }

  lemma IterateBlockInWindow(kind: Recurrence, base: Civil, startDay: int, endDay: int, st: Minute, et: Minute, k: nat)
    requires Repeats(kind) && Valid(base)
    requires startDay <= DayNumber(Iterate(kind, base, k)) <= endDay
    ensures TimeBlock(DayNumber(Iterate(kind, base, k)), st, et) in WindowBlocks(Occurrences(kind, base, endDay), startDay, st, et)
  {
    var occ := Occurrences(kind, base, endDay);
    var b := TimeBlock(DayNumber(Iterate(kind, base, k)), st, et);
    OccurrencesComplete(kind, base, endDay, k);
    OccurrencesAreIterates(kind, base, endDay);
    assert occ[k] == Iterate(kind, base, k);
    WindowBlocksMembers(occ, startDay, st, et, b);
  }

  /** The blocks of a repeating record come out in strictly ascending date order. */
  lemma RepeatingRecordAscends(rec: StoredRecord, startDay: int, endDay: int)
    requires Repeats(RecurrenceOf(rec.recurrence)) && Valid(rec.date)
    ensures RecordBlocks(rec, startDay, endDay).Ok?
    ensures forall i, j :: 0 <= i < j < |RecordBlocks(rec, startDay, endDay).value| ==>
      RecordBlocks(rec, startDay, endDay).value[i].date < RecordBlocks(rec, startDay, endDay).value[j].date
  {
    var kind := RecurrenceOf(rec.recurrence);
    var occ := Occurrences(kind, rec.date, endDay);
    forall i, j | 0 <= i < j < |occ| ensures DayNumber(occ[i]) < DayNumber(occ[j]) {
      OccurrencesAscend(kind, rec.date, endDay, i, j);
    }
    WindowBlocksAscend(occ, startDay, rec.startTime, rec.endTime);
    if DayNumber(rec.date) > endDay {
      assert occ == [];
    }
    assert RecordBlocks(rec, startDay, endDay).value == WindowBlocks(occ, startDay, rec.startTime, rec.endTime);
  }

  /**
    A weekly record from the 3rd of June covers the 3rd, 10th, 17th and
    24th in the window of June, whatever the year.
  */
  lemma WeeklyJuneExample(y: int, st: Minute, et: Minute)
    requires y >= 1
    ensures RecordBlocks(StoredRecord("", Civil(y, 6, 3), st, et, "weekly", ""),
        MonthWindow(y, 6).0, MonthWindow(y, 6).1)
      == Ok([TimeBlock(DayNumber(Civil(y, 6, 3)), st, et), TimeBlock(DayNumber(Civil(y, 6, 10)), st, et),
             TimeBlock(DayNumber(Civil(y, 6, 17)), st, et), TimeBlock(DayNumber(Civil(y, 6, 24)), st, et)])
  {
    var first := MonthWindow(y, 6).0;
    var last := MonthWindow(y, 6).1;
    var c3, c10, c17, c24 := Civil(y, 6, 3), Civil(y, 6, 10), Civil(y, 6, 17), Civil(y, 6, 24);
    AddDaysWithinMonth(c3, 7);
    AddDaysWithinMonth(c10, 7);
    AddDaysWithinMonth(c17, 7);
    AddDaysIsLater(c24, 7);
    var after := Step(Weekly, c24);
    assert Occurrences(Weekly, after, last) == [];
    assert Occurrences(Weekly, c24, last) == [c24];
    assert Occurrences(Weekly, c17, last) == [c17, c24];
    assert Occurrences(Weekly, c10, last) == [c10, c17, c24];
    var occ := [c3, c10, c17, c24];
    assert Occurrences(Weekly, c3, last) == occ;
    var b3, b10, b17, b24 := TimeBlock(DayNumber(c3), st, et), TimeBlock(DayNumber(c10), st, et),
      TimeBlock(DayNumber(c17), st, et), TimeBlock(DayNumber(c24), st, et);
    assert [c3][..0] == [];
    assert WindowBlocks([c3], first, st, et) == [b3];
    assert [c3, c10][..1] == [c3];
    assert WindowBlocks([c3, c10], first, st, et) == [b3, b10];
    assert [c3, c10, c17][..2] == [c3, c10];
    assert WindowBlocks([c3, c10, c17], first, st, et) == [b3, b10, b17];
    assert occ[..3] == [c3, c10, c17];
    assert WindowBlocks(occ, first, st, et) == [b3, b10, b17, b24];
  }

  /**
    Exactly the records with an unknown recurrence whose date is not after
    endDay are endless, and for them the loop condition holds at every
    pass, because the date never moves.
  */
  lemma EndlessRecords(rec: StoredRecord, startDay: int, endDay: int)
    ensures RecordBlocks(rec, startDay, endDay).Err? <==>
      RecurrenceOf(rec.recurrence).Unknown? && Valid(rec.date) && DayNumber(rec.date) <= endDay
    ensures RecordBlocks(rec, startDay, endDay).Err? ==>
      forall k: nat :: DayNumber(Iterate(RecurrenceOf(rec.recurrence), rec.date, k)) <= endDay
  {
    if RecordBlocks(rec, startDay, endDay).Err? {
      forall k: nat ensures DayNumber(Iterate(RecurrenceOf(rec.recurrence), rec.date, k)) <= endDay {
        NonRepeatingNeverMoves(RecurrenceOf(rec.recurrence), rec.date, k);
      }
    }
  }

  /** Every block a record contributes lies in the window and carries the stored times. */
  lemma RecordBlocksInWindow(rec: StoredRecord, startDay: int, endDay: int)
    requires RecordBlocks(rec, startDay, endDay).Ok?
    ensures forall b :: b in RecordBlocks(rec, startDay, endDay).value ==>
      startDay <= b.date <= endDay && b.startTime == rec.startTime && b.endTime == rec.endTime
  {
    var kind := RecurrenceOf(rec.recurrence);
    if Repeats(kind) && Valid(rec.date) {
      forall b | b in RecordBlocks(rec, startDay, endDay).value
        ensures startDay <= b.date <= endDay && b.startTime == rec.startTime && b.endTime == rec.endTime
      {
        RepeatingRecordBlocks(rec, startDay, endDay, b);
      }
    }
  }

  /** The expansion of one record, as the loop of loadRegisteredTimes does it. */
  method ExpandRecord(rec: StoredRecord, startDay: int, endDay: int) returns (r: Result<seq<TimeBlock>>)
    ensures r == RecordBlocks(rec, startDay, endDay)
  {
    var kind := RecurrenceOf(rec.recurrence);
    if kind == NoRepeat {
      if Valid(rec.date) && startDay <= DayNumber(rec.date) <= endDay {
        return Ok([TimeBlock(DayNumber(rec.date), rec.startTime, rec.endTime)]);
      }
      return Ok([]);
    }
    if !Valid(rec.date) || DayNumber(rec.date) > endDay {
      return Ok([]);
    }
    if !Repeats(kind) {
      // the loop body would never move currentDate
      return Err(EndlessRecurrence);
    }
    var blocks := ExpandRepeating(rec, kind, startDay, endDay);
    return Ok(blocks);
  }

  /** The while loop of a repeating record: one block per visited date inside the window. */
  method ExpandRepeating(rec: StoredRecord, kind: Recurrence, startDay: int, endDay: int)
    returns (blocks: seq<TimeBlock>)
    requires Valid(rec.date) && Repeats(kind)
    ensures blocks == WindowBlocks(Occurrences(kind, rec.date, endDay), startDay, rec.startTime, rec.endTime)
  {
    blocks := [];
    var current := rec.date;
    ghost var visited: seq<Civil> := [];
    while DayNumber(current) <= endDay
      invariant Valid(current)
      invariant visited + Occurrences(kind, current, endDay) == Occurrences(kind, rec.date, endDay)
      invariant blocks == WindowBlocks(visited, startDay, rec.startTime, rec.endTime)
      decreases endDay - DayNumber(current)
    {
      if DayNumber(current) >= startDay && DayNumber(current) <= endDay {
        blocks := blocks + [TimeBlock(DayNumber(current), rec.startTime, rec.endTime)];
      }
      VisitNext(kind, current, endDay, visited, Occurrences(kind, rec.date, endDay));
      WindowBlocksSnoc(visited, current, startDay, rec.startTime, rec.endTime);
      visited := visited + [current];
      current := Step(kind, current);
    }
    assert visited == Occurrences(kind, rec.date, endDay);
  }

  /** The expansion of one record over the window. */
  function BlocksOf(startDay: int, endDay: int): StoredRecord -> Result<seq<TimeBlock>> {
    rec => RecordBlocks(rec, startDay, endDay)
  }

  /** The registered times of a list of records: their blocks in record order. */
  function RegisteredTimes(records: seq<StoredRecord>, startDay: int, endDay: int): Result<seq<TimeBlock>> {
    Gather(records, BlocksOf(startDay, endDay))
  }

  /**
    The registered times exist exactly when no record is endless, and then
    they are the blocks of the individual records and nothing else.
  */
  lemma RegisteredTimesMembers(records: seq<StoredRecord>, startDay: int, endDay: int, b: TimeBlock)
    ensures RegisteredTimes(records, startDay, endDay).Ok? <==>
      forall i :: 0 <= i < |records| ==> RecordBlocks(records[i], startDay, endDay).Ok?
    ensures RegisteredTimes(records, startDay, endDay).Ok? ==>
      (b in RegisteredTimes(records, startDay, endDay).value <==>
        exists i :: 0 <= i < |records| && b in RecordBlocks(records[i], startDay, endDay).value)
  {
    var f := BlocksOf(startDay, endDay);
    assert forall i :: 0 <= i < |records| ==> f(records[i]) == RecordBlocks(records[i], startDay, endDay);
    GatherOk(records, f);
    if RegisteredTimes(records, startDay, endDay).Ok? {
      GatherMembers(records, f, b);
    }
  }

  /** loadRegisteredTimes with the store's documents given as a list. */
  method LoadRegisteredTimes(records: seq<StoredRecord>, startDay: int, endDay: int)
    returns (r: Result<seq<TimeBlock>>)
    ensures r == RegisteredTimes(records, startDay, endDay)
  {
    var registered: seq<TimeBlock> := [];
    for n := 0 to |records|
      invariant RegisteredTimes(records[..n], startDay, endDay) == Ok(registered)
    {
      assert records[..n + 1][..n] == records[..n];
      var blocks := ExpandRecord(records[n], startDay, endDay);
      if blocks.Err? {
        GatherErrorPersists(records, n + 1, BlocksOf(startDay, endDay));
        assert records[..|records|] == records;
        return Err(blocks.failure);
      }
      registered := registered + blocks.value;
    }
    assert records[..|records|] == records;
    return Ok(registered);
  }

  // ---------------------------------------------------------------------
  // getUnavailableTimes
  // ---------------------------------------------------------------------

  /** The dates of the window [startDay, endDay]. */
  function WindowDates(startDay: int, endDay: int): seq<int> {
    DaySpan(Instant(startDay, 0), Instant(endDay, 0))
  }

  /** The window holds every date from startDay to endDay, ascending, one day apart. */
  lemma WindowDatesAreTheWindow(startDay: int, endDay: int)
    ensures |WindowDates(startDay, endDay)| == if startDay <= endDay then endDay - startDay + 1 else 0
    ensures forall i :: 0 <= i < |WindowDates(startDay, endDay)| ==> WindowDates(startDay, endDay)[i] == startDay + i
  {
    var dates := WindowDates(startDay, endDay);
    DaySpanDays(Instant(startDay, 0), Instant(endDay, 0));
    assert DayOf(Instant(startDay, 0)) == startDay;
    var n := |dates|;
    if n > 0 {
      assert Instant(startDay, 0) + MinutesPerDay * (n - 1) <= Instant(endDay, 0);
      assert startDay + (n - 1) <= endDay;
    }
    assert Instant(startDay, 0) + MinutesPerDay * n > Instant(endDay, 0);
    assert startDay + n > endDay;
  }

  /**
    All unavailable blocks of the window: the registered ones, then the
    sleep blocks, then the store-closed blocks (closed from storeCloseTime
    to storeOpenTime), sorted by their start instant.
  */
  function UnavailableTimes(
    sleepStart: Minute, sleepEnd: Minute, startDay: int, endDay: int,
    open: Minute, close: Minute, records: seq<StoredRecord>): (r: Result<seq<TimeBlock>>)
    ensures r.Ok? <==> RegisteredTimes(records, startDay, endDay).Ok?
    ensures r.Ok? ==> SortedBy(r.value, BlockStart)
    ensures r.Ok? ==>
      multiset(r.value) == multiset(RegisteredTimes(records, startDay, endDay).value
        + SplitEachDate(WindowDates(startDay, endDay), sleepStart, sleepEnd)
        + SplitEachDate(WindowDates(startDay, endDay), close, open))
  {
    match RegisteredTimes(records, startDay, endDay)
    case Err(f) => Err(f)
    case Ok(registered) =>
      var dates := WindowDates(startDay, endDay);
      Ok(SortBlocks(registered + SplitEachDate(dates, sleepStart, sleepEnd) + SplitEachDate(dates, close, open)))
  }

  /** The split of the window's dates holds the split blocks of each date of the window. */
  lemma WindowSplitMembers(startDay: int, endDay: int, from: Minute, to: Minute, b: TimeBlock)
    ensures b in SplitEachDate(WindowDates(startDay, endDay), from, to) <==>
      exists d :: startDay <= d <= endDay && b in SplitAtMidnight(d, from, to)
  {
    var dates := WindowDates(startDay, endDay);
    WindowDatesAreTheWindow(startDay, endDay);
    SplitEachDateMembers(dates, from, to, b);
    if exists d :: startDay <= d <= endDay && b in SplitAtMidnight(d, from, to) {
      var d :| startDay <= d <= endDay && b in SplitAtMidnight(d, from, to);
      assert dates[d - startDay] == d;
    }
  }

  /**
    A block is unavailable exactly when it is registered, or is part of the
    sleep period or of the closed period of some date of the window.
  */
  lemma UnavailableTimesMembers(
    sleepStart: Minute, sleepEnd: Minute, startDay: int, endDay: int,
    open: Minute, close: Minute, records: seq<StoredRecord>, b: TimeBlock)
    requires UnavailableTimes(sleepStart, sleepEnd, startDay, endDay, open, close, records).Ok?
    ensures b in UnavailableTimes(sleepStart, sleepEnd, startDay, endDay, open, close, records).value <==>
      b in RegisteredTimes(records, startDay, endDay).value
      || (exists d :: startDay <= d <= endDay && b in SplitAtMidnight(d, sleepStart, sleepEnd))
      || (exists d :: startDay <= d <= endDay && b in SplitAtMidnight(d, close, open))
  {
    var dates := WindowDates(startDay, endDay);
    var registered := RegisteredTimes(records, startDay, endDay).value;
    var sleep := SplitEachDate(dates, sleepStart, sleepEnd);
    var closed := SplitEachDate(dates, close, open);
    var r := UnavailableTimes(sleepStart, sleepEnd, startDay, endDay, open, close, records).value;
    assert b in r <==> b in multiset(registered + sleep + closed);
    assert b in multiset(registered + sleep + closed) <==> b in registered || b in sleep || b in closed;
    WindowSplitMembers(startDay, endDay, sleepStart, sleepEnd, b);
    WindowSplitMembers(startDay, endDay, close, open, b);
  }

  /** getUnavailableTimes with the registered records given as a list. */
  method GetUnavailableTimes(
    sleepStart: Minute, sleepEnd: Minute, startDay: int, endDay: int,
    open: Minute, close: Minute, records: seq<StoredRecord>) returns (r: Result<seq<TimeBlock>>)
    ensures r == UnavailableTimes(sleepStart, sleepEnd, startDay, endDay, open, close, records)
  {
    var dates := DateRange(Instant(startDay, 0), Instant(endDay, 0));
    var sleep := SplitEachDate(dates, sleepStart, sleepEnd);
    var closed := SplitEachDate(dates, close, open);
    var registered := LoadRegisteredTimes(records, startDay, endDay);
    if registered.Err? {
      return Err(registered.failure);
    }
    return Ok(SortBlocks(registered.value + sleep + closed));
  }

  // ---------------------------------------------------------------------
  // getShifts
  // ---------------------------------------------------------------------

  /** The sleep period of a lifestyle: morning 22:00-06:00, night 02:00-10:00, otherwise 23:00-07:00. */
  function SleepHours(lifestyle: string): (Minute, Minute) {
    if lifestyle == "morning" then (22 * 60, 6 * 60)
    else if lifestyle == "night" then (2 * 60, 10 * 60)
    else (23 * 60, 7 * 60)
  }

  /**
    Every lifestyle sleeps eight hours a night; only the night lifestyle's
    sleep stays within one date.
  */
  lemma SleepIsEightHours(lifestyle: string, d: int)
    ensures var (from, to) := SleepHours(lifestyle);
      && Covered(SplitAtMidnight(d, from, to)) == 480
      && (|SplitAtMidnight(d, from, to)| == 1 <==> lifestyle == "night")
  {
    var (from, to) := SleepHours(lifestyle);
    SplitIsContiguous(d, from, to);
  }

  /**
    The first and last day of a month: Date.UTC(year, month - 1, 1) and
    Date.UTC(year, month, 0), day zero of the following month.
  */
  function MonthWindow(y: int, m: int): (w: (int, int))
    requires 1 <= y && 1 <= m <= 12
    ensures w.0 == DayNumber(Civil(y, m, 1))
    ensures w.1 == DayNumber(Civil(y, m, DaysInMonth(y, m)))
    ensures w.1 - w.0 + 1 == DaysInMonth(y, m)
  {
    MonthEndThenNext(y, m);
    NextDayIsNext(Civil(y, m, DaysInMonth(y, m)));
    (DayNumber(Civil(y, m, 1)), DayNumber(FirstOfMonth(MonthIndex(y, m) + 1)) - 1)
  }

  /** Days from 0001-01-01 to 1970-01-01, the origin of JS time values. */
  const UnixEpochDay := 719162

  /** A JS date lies at most 8.64e15 ms, that is 10^8 days, from the origin. */
  const MaxDaysFromEpoch := 100000000

  /**
    The month of Date.UTC(year, month - 1, 1) as a month index: a year from
    0 to 99 stands for 1900 + year, and a month outside 1..12 carries into
    the years around it.
  */
  function UtcMonthIndex(year: nat, month: nat): (i: int)
    ensures i >= MonthIndex(100, 1) - 1
  {
    MonthIndex(if year <= 99 then 1900 + year else year, 1) + (month - 1)
  }

  /**
    The (year, month) getShifts reads from the pieces of the month picker's
    text split at '-': Number of the first piece and parseInt of the
    second. None where either reads as NaN or there is no second piece.
  */
  function ReadParts(parts: seq<string>): Option<(nat, nat)>
    requires |parts| >= 1
    requires |parts| >= 2 ==> '-' !in parts[1]
  {
    var year := ToNumber(parts[0]);
    var month := if |parts| >= 2 then ParseInt(parts[1]) else None;
    if year.None? || month.None? then None
    else Some((year.value, month.value))
  }

  function ReadMonth(targetMonth: string): Option<(nat, nat)> {
    SplitJoin(targetMonth, '-');
    ReadParts(Split(targetMonth, '-'))
  }

  /**
    The first and last day of the month with index i, as Date.UTC gives
    them. None where the last day lies beyond the range of JS dates, where
    the first `toISOString` throws.
  */
  function WindowAt(i: int): (w: Option<(int, int)>)
    requires i >= 0
    ensures w.Some? ==> w.value.0 <= w.value.1 <= UnixEpochDay + MaxDaysFromEpoch
    ensures w.Some? ==> 28 <= w.value.1 - w.value.0 + 1 <= 31
  {
    var (first, last) := MonthWindow(YearOfIndex(i), MonthOfIndex(i));
    if last - UnixEpochDay > MaxDaysFromEpoch then None else Some((first, last))
  }

  /** Date.UTC(year, month - 1, 1) to Date.UTC(year, month, 0). */
  function WindowOf(year: nat, month: nat): Option<(int, int)> {
    WindowAt(UtcMonthIndex(year, month))
  }

  /** The window of the month picker's text, None for an invalid date. */
  function TargetWindow(targetMonth: string): Option<(int, int)> {
    match ReadMonth(targetMonth)
    case None => None
    case Some((year, month)) => WindowOf(year, month)
  }

  /** A text with one '-' splits into the two pieces around it. */
  lemma ReadPieces(a: string, b: string)
    requires '-' !in a && '-' !in b
    ensures ReadMonth(a + "-" + b) == ReadParts([a, b])
  {
    SplitFirst(a, '-', b);
    SplitWhole(b, '-');
    assert a + "-" + b == a + ['-'] + b;
  }

  lemma PadNoDash(y: int)
    requires 0 <= y < 10000
    ensures '-' !in Pad4(y)
  {
    assert Pad4(y) == Pad2(y / 100) + Pad2(y % 100);
  }

  /** A four-digit year, '-' and a two-digit month read as those two numbers, whatever the month. */
  lemma ReadPadded(y: int, m: int)
    requires 0 <= y < 10000 && 0 <= m < 100
    ensures ReadMonth(Pad4(y) + "-" + Pad2(m)) == Some((y, m))
  {
    PadNoDash(y);
    ReadPieces(Pad4(y), Pad2(m));
    ToNumberPad4(y);
    ParseIntPad2(m);
  }

  /** An unpadded one-digit month is read as well: "2024-6" is month 6. */
  lemma ReadUnpadded(y: int, d: int)
    requires 0 <= y < 10000 && 0 <= d <= 9
    ensures ReadMonth(Pad4(y) + "-" + [DigitChar(d)]) == Some((y, d))
  {
    PadNoDash(y);
    ReadPieces(Pad4(y), [DigitChar(d)]);
    ToNumberPad4(y);
    ParseIntDigit(d);
  }

  /** The parts of a date text after the month are ignored: "2024-06-15" reads as "2024-06". */
  lemma ExtraPiecesIgnored(a: string, b: string, c: string)
    requires '-' !in a && '-' !in b
    ensures ReadMonth(a + "-" + b + "-" + c) == ReadMonth(a + "-" + b)
  {
    SplitFirst(a, '-', b + "-" + c);
    SplitFirst(b, '-', c);
    assert a + "-" + b + "-" + c == a + ['-'] + (b + ['-'] + c);
    var parts := Split(a + "-" + b + "-" + c, '-');
    assert parts[0] == a && parts[1] == b;
    ReadPieces(a, b);
  }

  /** A text without a '-' has no month piece; parseInt(undefined) is NaN. */
  lemma NoMonthPiece(s: string)
    requires '-' !in s
    ensures ReadMonth(s) == None
  {
    SplitWhole(s, '-');
  }

  /**
    A year from 0 to 99 is 1900 + year, and a month in 1..12 is that month:
    the window runs from its day 1 to its last day.
  */
  lemma WindowOfMonth(year: nat, m: int)
    requires year < 10000 && 1 <= m <= 12
    ensures WindowOf(year, m) == Some(MonthWindow(if year <= 99 then 1900 + year else year, m))
  {
    var y := if year <= 99 then 1900 + year else year;
    var i := UtcMonthIndex(year, m);
    assert i == MonthIndex(y, m);
    IndexParts(y, m);
    var c := Civil(y, m, DaysInMonth(y, m));
    YearEndsBefore(c, 10000);
    assert DaysBeforeYear(10000) == 3652059;
    assert MonthWindow(y, m).1 == DayNumber(c);
  }

  /** Month 13 is January of the next year and month 0 December of the year before. */
  lemma MonthCarries(year: nat, m: nat)
    requires 100 <= year
    ensures WindowOf(year, m + 12) == WindowOf(year + 1, m)
    ensures 101 <= year ==> WindowOf(year, 0) == WindowOf(year - 1, 12)
  {
    assert UtcMonthIndex(year, m + 12) == UtcMonthIndex(year + 1, m);
    if 101 <= year {
      assert UtcMonthIndex(year, 0) == UtcMonthIndex(year - 1, 12);
    }
  }

  /** A "YYYY-MM" picker value gives that month's window; years 0000 to 0099 are 1900 to 1999. */
  lemma PickerWindow(y: int, m: int)
    requires 0 <= y < 10000 && 1 <= m <= 12
    ensures TargetWindow(YearMonthText(y, m)) == Some(MonthWindow(if y <= 99 then 1900 + y else y, m))
  {
    ReadPadded(y, m);
    WindowOfMonth(y, m);
  }

  /**
    getShifts up to the unavailable times it obtains: the first job's
    opening hours (no job: NoJobs), the window of the month picker's text
    (an invalid date: InvalidDate) and the lifestyle's sleep period.
  */
  method GetShifts(targetMonth: string, lifestyle: string, jobs: seq<Job>, records: seq<StoredRecord>)
    returns (r: Result<seq<TimeBlock>>)
    ensures |jobs| == 0 ==> r == Err(NoJobs)
    ensures |jobs| > 0 && TargetWindow(targetMonth).None? ==> r == Err(InvalidDate)
    ensures |jobs| > 0 && TargetWindow(targetMonth).Some? ==>
      var (first, last) := TargetWindow(targetMonth).value;
      var (sleepStart, sleepEnd) := SleepHours(lifestyle);
      r == UnavailableTimes(sleepStart, sleepEnd, first, last, jobs[0].storeOpenTime, jobs[0].storeCloseTime, records)
  {
    var (sleepStart, sleepEnd) := SleepHours(lifestyle);
    if |jobs| == 0 {
      return Err(NoJobs);
    }
    var window := TargetWindow(targetMonth);
    if window.None? {
      return Err(InvalidDate);
    }
    var (first, last) := window.value;
    r := GetUnavailableTimes(sleepStart, sleepEnd, first, last,
      jobs[0].storeOpenTime, jobs[0].storeCloseTime, records);
  }
}
