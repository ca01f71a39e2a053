/**
  The display side of public/script/calendar.js: stored records expanded
  into calendar events up to three months ahead, the first-occurrence
  filter over the part-time shifts, the holiday events and the holiday
  test, the job colour table and the weekend classes of the day cells.
*/
module Calendar {
  import opened CivilTime
  import opened Seqs
  import opened Results
  import opened Recurrence
  import opened Store
  import opened IsoText

  // ---------------------------------------------------------------------
  // Events
  // ---------------------------------------------------------------------

  /** `date + 'T' + time`: the start or end of an event, kept as its two parts. */
  datatype Stamp = Stamp(date: Civil, time: Minute)

  /** The text the page builds, "YYYY-MM-DDTHH:MM". */
  function StampText(s: Stamp): (t: string)
    requires Valid(s.date) && s.date.year < 10000
    ensures |t| == 16 && t[10] == 'T'
  {
    IsoDate(s.date) + "T" + TimeText(s.time)
  }

  /**
    Two stamps have the same text exactly when they are the same stamp, so
    the page's `===` on start and end strings is equality of stamps.
  */
  lemma StampTextInjective(a: Stamp, b: Stamp)
    requires Valid(a.date) && a.date.year < 10000 && Valid(b.date) && b.date.year < 10000
    ensures StampText(a) == StampText(b) <==> a == b
  {
    if StampText(a) == StampText(b) {
      var s, t := StampText(a), StampText(b);
      assert s[..10] == IsoDate(a.date) && t[..10] == IsoDate(b.date);
      assert s[11..] == TimeText(a.time) && t[11..] == TimeText(b.time);
      IsoDateInjective(a.date, b.date);
      TimeTextInjective(a.time, b.time);
    }
  }

  /** An event of the calendar: { title, start, end, color }. */
  datatype Event = Event(title: string, start: Stamp, end: Stamp, color: string)

  /** The event of a record on date c. */
  function OccurrenceEvent(rec: StoredRecord, c: Civil, color: string): Event {
    Event(rec.name, Stamp(c, rec.startTime), Stamp(c, rec.endTime), color)
  }

  /** The events pushed for the visited dates cs, one per date, in order. */
  function EventsAt(rec: StoredRecord, cs: seq<Civil>, color: string): (r: seq<Event>)
    ensures |r| == |cs|
    ensures forall i :: 0 <= i < |cs| ==> r[i] == OccurrenceEvent(rec, cs[i], color)
  {
    if cs == [] then []
    else EventsAt(rec, cs[..|cs| - 1], color) + [OccurrenceEvent(rec, cs[|cs| - 1], color)]
  }

  /** endDate: today with its month moved three ahead by setMonth. */
  function Horizon(today: Civil): int {
    DayNumber(AddMonths(today, 3))
  }

  /**
    The horizon is a real date after today, at least as late as the first
    day of the third month ahead, and for a day of month every month has it
    is that same day three months on.
  */
  lemma HorizonThreeMonths(today: Civil)
    requires Valid(today)
    ensures Valid(AddMonths(today, 3)) && Horizon(today) > DayNumber(today)
    ensures Horizon(today) >= DayNumber(FirstOfMonth(MonthIndex(today.year, today.month) + 3))
    ensures today.day <= 28 ==>
      AddMonths(today, 3).day == today.day
      && MonthIndex(AddMonths(today, 3).year, AddMonths(today, 3).month) == MonthIndex(today.year, today.month) + 3
  {
    AddMonthsIsLater(today, 3);
    IndexOfParts(MonthIndex(today.year, today.month) + 3);
  }

  /**
    The events one stored record contributes up to the day endDay, in the
    given colour. A non-repeating record gives its own event whatever its
    date. A repeating record gives an event at every date the loop visits
    from its base date; a record whose date is not a calendar date is an
    Invalid Date, which the loop test rejects. A record with another
    recurrence value whose date is not after endDay never leaves the loop:
    EndlessRecurrence.
  */
  function RecordEvents(rec: StoredRecord, endDay: int, color: string): Result<seq<Event>> {
    var kind := RecurrenceOf(rec.recurrence);
    if kind == NoRepeat then Ok([OccurrenceEvent(rec, rec.date, color)])
    else if !Valid(rec.date) || DayNumber(rec.date) > endDay then Ok([])
    else if Repeats(kind) then Ok(EventsAt(rec, Occurrences(kind, rec.date, endDay), color))
    else Err(EndlessRecurrence)
  }

  /** A 'none' record yields exactly one event, on its own date with its own times. */
  lemma NoneRecordEvent(rec: StoredRecord, endDay: int, color: string)
    requires rec.recurrence == "none"
    ensures RecordEvents(rec, endDay, color)
         == Ok([Event(rec.name, Stamp(rec.date, rec.startTime), Stamp(rec.date, rec.endTime), color)])
  {
  }

  /**
    A daily, weekly or monthly record yields, in order, one event for each
    iterate of its base date that is not after endDay, and for no other
    date: the k-th event falls on the k-th iterate, never before the base
    date, and the first iterate without an event is after endDay.
  */
  lemma {:induction false} RepeatingRecordEvents(rec: StoredRecord, endDay: int, color: string)
    requires Repeats(RecurrenceOf(rec.recurrence)) && Valid(rec.date)
    ensures RecordEvents(rec, endDay, color).Ok?
    ensures var events := RecordEvents(rec, endDay, color).value;
      forall k :: 0 <= k < |events| ==>
        events[k] == OccurrenceEvent(rec, Iterate(RecurrenceOf(rec.recurrence), rec.date, k), color)
        && DayNumber(rec.date) <= DayNumber(Iterate(RecurrenceOf(rec.recurrence), rec.date, k)) <= endDay
    ensures forall k: nat ::
      (DayNumber(Iterate(RecurrenceOf(rec.recurrence), rec.date, k)) <= endDay
       <==> k < |RecordEvents(rec, endDay, color).value|)
  {
    var kind := RecurrenceOf(rec.recurrence);
    var occ := Occurrences(kind, rec.date, endDay);
    OccurrencesAreIterates(kind, rec.date, endDay);
    if DayNumber(rec.date) > endDay {
      assert occ == [];
    }
    assert RecordEvents(rec, endDay, color).value == EventsAt(rec, occ, color);
    forall k | 0 <= k < |occ| ensures DayNumber(rec.date) <= DayNumber(Iterate(kind, rec.date, k)) {
      IterateIsLater(kind, rec.date, 0, k);
    }
    forall k: nat ensures DayNumber(Iterate(kind, rec.date, k)) <= endDay <==> k < |occ| {
      OccurrencesComplete(kind, rec.date, endDay, k);
    }
  }

  /**
    The dates of the events of a repeating record: k or 7k days after the
    base for daily and weekly records; for a monthly record based on a day
    every month has, the same day of the month k months later.
  */
  lemma RecurringEventDates(rec: StoredRecord, endDay: int, color: string, k: nat)
    requires Repeats(RecurrenceOf(rec.recurrence)) && Valid(rec.date)
    requires k < |RecordEvents(rec, endDay, color).value|
    ensures var e := RecordEvents(rec, endDay, color).value[k];
      && e.start.date == e.end.date
      && (rec.recurrence == "daily" ==> DayNumber(e.start.date) == DayNumber(rec.date) + k)
      && (rec.recurrence == "weekly" ==> DayNumber(e.start.date) == DayNumber(rec.date) + 7 * k)
      && (rec.recurrence == "monthly" && rec.date.day <= 28 ==>
            e.start.date.day == rec.date.day
            && MonthIndex(e.start.date.year, e.start.date.month) == MonthIndex(rec.date.year, rec.date.month) + k)
  {
    var kind := RecurrenceOf(rec.recurrence);
    RepeatingRecordEvents(rec, endDay, color);
    if kind.Monthly? {
      if rec.date.day <= 28 {
        IterateMonths(rec.date, k);
      }
    } else {
      IterateDays(kind, rec.date, k);
    }
  }

  /** Every event of a record carries the record's name and the colour it was expanded with. */
  lemma RecordEventsPainted(rec: StoredRecord, endDay: int, color: string)
    requires RecordEvents(rec, endDay, color).Ok?
    ensures forall e :: e in RecordEvents(rec, endDay, color).value ==> e.color == color && e.title == rec.name
  {
  }

  /** Exactly the records with an unknown recurrence whose base date is not after endDay hang the loop. */
  lemma EndlessRecordEvents(rec: StoredRecord, endDay: int, color: string)
    ensures RecordEvents(rec, endDay, color).Err? <==>
      RecurrenceOf(rec.recurrence).Unknown? && Valid(rec.date) && DayNumber(rec.date) <= endDay
    ensures RecordEvents(rec, endDay, color).Err? ==>
      forall k: nat :: DayNumber(Iterate(RecurrenceOf(rec.recurrence), rec.date, k)) <= endDay
  {
    if RecordEvents(rec, endDay, color).Err? {
      forall k: nat ensures DayNumber(Iterate(RecurrenceOf(rec.recurrence), rec.date, k)) <= endDay {
        NonRepeatingNeverMoves(RecurrenceOf(rec.recurrence), rec.date, k);
      }
    }
  }

  /** The while loop over one record's dates, as both load functions run it. */
  method ExpandRecordEvents(rec: StoredRecord, endDay: int, color: string) returns (r: Result<seq<Event>>)
    ensures r == RecordEvents(rec, endDay, color)
  {
    var kind := RecurrenceOf(rec.recurrence);
    if kind == NoRepeat {
      return Ok([OccurrenceEvent(rec, rec.date, color)]);
    }
    if !Valid(rec.date) || DayNumber(rec.date) > endDay {
      return Ok([]);
    }
    if !Repeats(kind) {
      // the loop body would never move currentDate
      return Err(EndlessRecurrence);
    }
    var events := RepeatingEvents(rec, kind, endDay, color);
    return Ok(events);
  }

  /** The while loop of a repeating record: one event per visited date. */
  method RepeatingEvents(rec: StoredRecord, kind: Recurrence, endDay: int, color: string)
    returns (events: seq<Event>)
    requires Valid(rec.date) && Repeats(kind)
    ensures events == EventsAt(rec, Occurrences(kind, rec.date, endDay), color)
  {
    events := [];
    var current := rec.date;
    ghost var visited: seq<Civil> := [];
    while DayNumber(current) <= endDay
      invariant Valid(current)
      invariant visited + Occurrences(kind, current, endDay) == Occurrences(kind, rec.date, endDay)
      invariant events == EventsAt(rec, visited, color)
      decreases endDay - DayNumber(current)
    {
      events := events + [OccurrenceEvent(rec, current, color)];
      VisitNext(kind, current, endDay, visited, Occurrences(kind, rec.date, endDay));
      assert EventsAt(rec, visited + [current], color) == EventsAt(rec, visited, color) + [OccurrenceEvent(rec, current, color)];
      visited := visited + [current];
      current := Step(kind, current);
    }
    assert visited == Occurrences(kind, rec.date, endDay);
  }

  /**
    The colour of a record's events: red for the unavailable times, the
    record's own colour for the part-time shifts.
  */
  function Paint(rec: StoredRecord, ownColor: bool): string {
    if ownColor then rec.color else "red"
  }

  /** The expansion of one record, painted for its list. */
  function EventsOf(endDay: int, ownColor: bool): StoredRecord -> Result<seq<Event>> {
    rec => RecordEvents(rec, endDay, Paint(rec, ownColor))
  }

  /** The events of a list of records, record after record. */
  function AllEvents(records: seq<StoredRecord>, endDay: int, ownColor: bool): Result<seq<Event>> {
    Gather(records, EventsOf(endDay, ownColor))
  }

  /**
    The events of a list exist exactly when no record hangs the loop, and
    then they are the events of the individual records and nothing else.
  */
  lemma AllEventsMembers(records: seq<StoredRecord>, endDay: int, ownColor: bool, e: Event)
    ensures AllEvents(records, endDay, ownColor).Ok? <==>
      forall i :: 0 <= i < |records| ==> RecordEvents(records[i], endDay, Paint(records[i], ownColor)).Ok?
    ensures AllEvents(records, endDay, ownColor).Ok? ==>
      (e in AllEvents(records, endDay, ownColor).value <==>
        exists i :: 0 <= i < |records| && e in RecordEvents(records[i], endDay, Paint(records[i], ownColor)).value)
  {
    var f := EventsOf(endDay, ownColor);
    assert forall i :: 0 <= i < |records| ==> f(records[i]) == RecordEvents(records[i], endDay, Paint(records[i], ownColor));
    GatherOk(records, f);
    if AllEvents(records, endDay, ownColor).Ok? {
      GatherMembers(records, f, e);
    }
  }

  /** Each part-time shift event carries the colour and the name of a record it came from. */
  lemma PartTimeShiftColors(records: seq<StoredRecord>, endDay: int, e: Event)
    requires AllEvents(records, endDay, true).Ok?
    requires e in AllEvents(records, endDay, true).value
    ensures exists i :: 0 <= i < |records| && e.color == records[i].color && e.title == records[i].name
  {
    AllEventsMembers(records, endDay, true, e);
    var i :| 0 <= i < |records| && e in RecordEvents(records[i], endDay, Paint(records[i], true)).value;
    RecordEventsPainted(records[i], endDay, Paint(records[i], true));
  }

  /** Every unavailable-time event is red. */
  lemma UnavailableEventsRed(records: seq<StoredRecord>, endDay: int, e: Event)
    requires AllEvents(records, endDay, false).Ok?
    requires e in AllEvents(records, endDay, false).value
    ensures e.color == "red"
  {
    AllEventsMembers(records, endDay, false, e);
    var i :| 0 <= i < |records| && e in RecordEvents(records[i], endDay, Paint(records[i], false)).value;
    RecordEventsPainted(records[i], endDay, Paint(records[i], false));
  }

  /** The forEach over the store's documents: the events of every record, in order. */
  method ExpandRecords(records: seq<StoredRecord>, endDay: int, ownColor: bool) returns (r: Result<seq<Event>>)
    ensures r == AllEvents(records, endDay, ownColor)
  {
    var events: seq<Event> := [];
    for n := 0 to |records|
      invariant AllEvents(records[..n], endDay, ownColor) == Ok(events)
    {
      assert records[..n + 1][..n] == records[..n];
      var more := ExpandRecordEvents(records[n], endDay, Paint(records[n], ownColor));
      if more.Err? {
        GatherErrorPersists(records, n + 1, EventsOf(endDay, ownColor));
        assert records[..|records|] == records;
        return Err(more.failure);
      }
      events := events + more.value;
    }
    assert records[..|records|] == records;
    return Ok(events);
  }

  /** loadUnavailableTimes: every record up to three months after today, in red. */
  method LoadUnavailableTimes(records: seq<StoredRecord>, today: Civil) returns (r: Result<seq<Event>>)
    ensures r == AllEvents(records, Horizon(today), false)
  {
    r := ExpandRecords(records, Horizon(today), false);
  }

  /** loadPartTimeShifts: every record up to three months after today, in its own colour. */
  method LoadPartTimeShifts(records: seq<StoredRecord>, today: Civil) returns (r: Result<seq<Event>>)
    ensures r == AllEvents(records, Horizon(today), true)
  {
    r := ExpandRecords(records, Horizon(today), true);
  }

  // ---------------------------------------------------------------------
  // uniquePartTimeShifts
  // ---------------------------------------------------------------------

  /** `s.start === shift.start && s.end === shift.end` */
  predicate SameSlot(a: Event, b: Event) {
    a.start == b.start && a.end == b.end
  }

  /** `self.findIndex(s => SameSlot(s, e))`: the first index with e's slot, or -1. */
  function FindIndex(self: seq<Event>, e: Event): (i: int)
    ensures -1 <= i < |self|
  {
    if self == [] then -1
    else if SameSlot(self[0], e) then 0
    else
      var k := FindIndex(self[1..], e);
      if k == -1 then -1 else k + 1
  }

  /** The index found has e's slot and no earlier index has it; -1 means no index has it. */
  lemma {:induction false} FindIndexSpec(self: seq<Event>, e: Event)
    ensures var i := FindIndex(self, e);
      && (i >= 0 ==> SameSlot(self[i], e) && forall j :: 0 <= j < i ==> !SameSlot(self[j], e))
      && (i == -1 ==> forall j :: 0 <= j < |self| ==> !SameSlot(self[j], e))
  {
    if self != [] && !SameSlot(self[0], e) {
      FindIndexSpec(self[1..], e);
      assert forall j :: 1 <= j < |self| ==> self[j] == self[1..][j - 1];
    }
  }

  /** The elements self[i], i < n, that are the first of their slot in self. */
  function FirstOccurrences(self: seq<Event>, n: nat): seq<Event>
    requires n <= |self|
  {
    if n == 0 then []
    else FirstOccurrences(self, n - 1) + (if FindIndex(self, self[n - 1]) == n - 1 then [self[n - 1]] else [])
  }

  /** `partTimeShifts.filter((shift, index, self) => index === self.findIndex(...))` */
  function UniqueShifts(shifts: seq<Event>): seq<Event> {
    FirstOccurrences(shifts, |shifts|)
  }

  /** The kept elements are exactly the first occurrences among self[..n]. */
  lemma {:induction false} FirstOccurrencesMembers(self: seq<Event>, n: nat)
    requires n <= |self|
    ensures forall e :: e in FirstOccurrences(self, n) ==>
      exists i :: 0 <= i < n && self[i] == e && FindIndex(self, e) == i
    ensures forall i :: 0 <= i < n && FindIndex(self, self[i]) == i ==> self[i] in FirstOccurrences(self, n)
  {
    if n > 0 {
      FirstOccurrencesMembers(self, n - 1);
      var front := FirstOccurrences(self, n - 1);
      var last := self[n - 1];
      var keep := FindIndex(self, last) == n - 1;
      assert FirstOccurrences(self, n) == front + (if keep then [last] else []);
      forall e | e in FirstOccurrences(self, n)
        ensures exists i :: 0 <= i < n && self[i] == e && FindIndex(self, e) == i
      {
        if e in front {
          var i :| 0 <= i < n - 1 && self[i] == e && FindIndex(self, e) == i;
        } else {
          assert self[n - 1] == e && FindIndex(self, e) == n - 1;
        }
      }
    }
  }

  /** The filter only deletes: its result is a subsequence of its input. */
  lemma {:induction false} FirstOccurrencesSubsequence(self: seq<Event>, n: nat)
    requires n <= |self|
    ensures IsSubsequence(FirstOccurrences(self, n), self[..n])
  {
    if n > 0 {
      FirstOccurrencesSubsequence(self, n - 1);
      var front := FirstOccurrences(self, n - 1);
      var last := self[n - 1];
      assert self[..n] == self[..n - 1] + [last];
      if FindIndex(self, last) == n - 1 {
        assert FirstOccurrences(self, n) == front + [last];
        SubsequenceSnoc(front, self[..n - 1], last);
      } else {
        assert FirstOccurrences(self, n) == front;
        SubsequenceExtend(front, self[..n - 1], last);
      }
    }
  }

  /** A first occurrence shares its slot with no element kept before it. */
  lemma KeptBeforeDiffer(self: seq<Event>, m: nat)
    requires m < |self| && FindIndex(self, self[m]) == m
    ensures forall x :: x in FirstOccurrences(self, m) ==> !SameSlot(x, self[m])
  {
    FirstOccurrencesMembers(self, m);
    FindIndexSpec(self, self[m]);
    forall x | x in FirstOccurrences(self, m) ensures !SameSlot(x, self[m]) {
      var k :| 0 <= k < m && self[k] == x && FindIndex(self, x) == k;
      assert !SameSlot(self[k], self[m]);
    }
  }

  /** No two kept elements share a slot. */
  lemma {:induction false} FirstOccurrencesDistinct(self: seq<Event>, n: nat)
    requires n <= |self|
    ensures forall i, j :: 0 <= i < j < |FirstOccurrences(self, n)| ==>
      !SameSlot(FirstOccurrences(self, n)[i], FirstOccurrences(self, n)[j])
  {
    if n > 0 {
      FirstOccurrencesDistinct(self, n - 1);
      var front := FirstOccurrences(self, n - 1);
      var last := self[n - 1];
      if FindIndex(self, last) == n - 1 {
        var r := front + [last];
        assert FirstOccurrences(self, n) == r;
        KeptBeforeDiffer(self, n - 1);
        forall i, j | 0 <= i < j < |r| ensures !SameSlot(r[i], r[j]) {
          assert r[i] == front[i] && front[i] in front;
          if j < |front| {
            assert r[j] == front[j];
          }
        }
      } else {
        assert FirstOccurrences(self, n) == front;
      }
    }
  }

  /** Every slot of the input has a kept element. */
  lemma UniqueShiftsCover(shifts: seq<Event>, e: Event)
    requires e in shifts
    ensures exists x :: x in UniqueShifts(shifts) && SameSlot(x, e)
  {
    FindIndexSpec(shifts, e);
    var k := FindIndex(shifts, e);
    var first := shifts[k];
    assert FindIndex(shifts, first) == k by {
      FindIndexSpec(shifts, first);
      var m := FindIndex(shifts, first);
      assert SameSlot(shifts[m], e);
    }
    FirstOccurrencesMembers(shifts, |shifts|);
  }

  /**
    uniquePartTimeShifts keeps, in input order, one event for every
    (start, end) pair of the input and never two for the same pair.
  */
  lemma UniqueShiftsSpec(shifts: seq<Event>)
    ensures IsSubsequence(UniqueShifts(shifts), shifts)
    ensures forall i, j :: 0 <= i < j < |UniqueShifts(shifts)| ==> !SameSlot(UniqueShifts(shifts)[i], UniqueShifts(shifts)[j])
    ensures forall e :: e in shifts ==> exists x :: x in UniqueShifts(shifts) && SameSlot(x, e)
  {
    FirstOccurrencesSubsequence(shifts, |shifts|);
    assert shifts[..|shifts|] == shifts;
    FirstOccurrencesDistinct(shifts, |shifts|);
    forall e | e in shifts ensures exists x :: x in UniqueShifts(shifts) && SameSlot(x, e) {
      UniqueShiftsCover(shifts, e);
    }
  }

  /** A list whose slots are all distinct passes the filter unchanged. */
  lemma {:induction false} DistinctUnchanged(self: seq<Event>, n: nat)
    requires n <= |self|
    requires forall i, j :: 0 <= i < j < |self| ==> !SameSlot(self[i], self[j])
    ensures FirstOccurrences(self, n) == self[..n]
  {
    if n > 0 {
      DistinctUnchanged(self, n - 1);
      FindIndexSpec(self, self[n - 1]);
      assert FindIndex(self, self[n - 1]) == n - 1;
      assert self[..n] == self[..n - 1] + [self[n - 1]];
    }
  }

  /** Filtering twice is filtering once. */
  lemma UniqueShiftsIdempotent(shifts: seq<Event>)
    ensures UniqueShifts(UniqueShifts(shifts)) == UniqueShifts(shifts)
  {
    var r := UniqueShifts(shifts);
    FirstOccurrencesDistinct(shifts, |shifts|);
    DistinctUnchanged(r, |r|);
    assert r[..|r|] == r;
  }

  // ---------------------------------------------------------------------
  // getEventDates and isHoliday
  // ---------------------------------------------------------------------

  /**
    The holiday table the public API returns: ISO date key and holiday
    name, in the order Object.keys lists them (insertion order, since a
    date key is not an array index). Object.keys lists each key once, so
    the keys of a table the API gives are distinct (DistinctKeys); the
    lemmas here hold for any table.
  */
  type HolidayTable = seq<(string, string)>

  predicate DistinctKeys(holidays: HolidayTable) {
    forall i, j :: 0 <= i < j < |holidays| ==> holidays[i].0 != holidays[j].0
  }

  /** With distinct keys, no two holiday events start on the same date key. */
  lemma DistinctHolidayEvents(holidays: HolidayTable)
    requires DistinctKeys(holidays)
    ensures var r := EventDates(holidays);
      forall i, j :: 0 <= i < j < |r| ==> r[i].start != r[j].start
  {
  }

  /** A holiday event: { title, start, className, holiday, color }. */
  datatype HolidayEvent = HolidayEvent(title: string, start: string, className: string, holiday: string, color: string)

  /** The events of the holidays, one per key, in key order. */
  function EventDates(holidays: HolidayTable): (r: seq<HolidayEvent>)
    ensures |r| == |holidays|
    ensures forall i :: 0 <= i < |holidays| ==>
      r[i].start == holidays[i].0 && r[i].holiday == holidays[i].0 && r[i].title == holidays[i].1
      && r[i].className == "holiday" && r[i].color == "red"
  {
    if holidays == [] then []
    else
      var (key, name) := holidays[|holidays| - 1];
      EventDates(holidays[..|holidays| - 1]) + [HolidayEvent(name, key, "holiday", key, "red")]
  }

  /** getEventDates: the for loop over the keys. */
  method GetEventDates(holidays: HolidayTable) returns (events: seq<HolidayEvent>)
    ensures events == EventDates(holidays)
  {
    events := [];
    for i := 0 to |holidays|
      invariant events == EventDates(holidays[..i])
    {
      assert holidays[..i + 1][..i] == holidays[..i];
      var holiday := HolidayEvent(holidays[i].1, holidays[i].0, "holiday", holidays[i].0, "red");
      events := events + [holiday];
    }
    assert holidays[..|holidays|] == holidays;
  }

  /**
    isHoliday: the table has the date's ISO key. The loadUnavailableTimes
    declared inside isHoliday after its return statement is never reached
    and has no counterpart here.
  */
  function IsHoliday(c: Civil, holidays: HolidayTable): bool
    requires Valid(c) && c.year < 10000
  {
    exists i :: 0 <= i < |holidays| && holidays[i].0 == IsoDate(c)
  }

  /**
    A date is a holiday exactly when a holiday event of the calendar starts
    on its key, and a table holding one key marks that date and no other.
  */
  lemma HolidayHasEvent(c: Civil, holidays: HolidayTable)
    requires Valid(c) && c.year < 10000
    ensures IsHoliday(c, holidays) <==> exists e :: e in EventDates(holidays) && e.start == IsoDate(c) && e.holiday == IsoDate(c)
  {
    var events := EventDates(holidays);
    if exists e :: e in events && e.start == IsoDate(c) && e.holiday == IsoDate(c) {
      var e :| e in events && e.start == IsoDate(c) && e.holiday == IsoDate(c);
      var i :| 0 <= i < |events| && events[i] == e;
      assert holidays[i].0 == IsoDate(c);
    }
    if IsHoliday(c, holidays) {
      var i :| 0 <= i < |holidays| && holidays[i].0 == IsoDate(c);
      assert events[i] in events;
    }
  }

  lemma OneKeyOneDate(c: Civil, d: Civil, name: string)
    requires Valid(c) && c.year < 10000 && Valid(d) && d.year < 10000
    ensures IsHoliday(c, [(IsoDate(d), name)]) <==> c == d
  {
    IsoDateInjective(c, d);
    var table := [(IsoDate(d), name)];
    if c == d {
      assert table[0].0 == IsoDate(c);
    }
  }

  // ---------------------------------------------------------------------
  // jobColorMap
  // ---------------------------------------------------------------------

  /** The table the forEach over the jobs builds: name to colour, later jobs overwriting earlier ones. */
  function ColorMap(jobs: seq<Job>): map<string, string> {
    if jobs == [] then map[]
    else ColorMap(jobs[..|jobs| - 1])[jobs[|jobs| - 1].name := jobs[|jobs| - 1].color]
  }

  /**
    The table holds exactly the job names, and each name maps to the colour
    of the last job with that name.
  */
  lemma {:induction false} ColorMapLastWins(jobs: seq<Job>)
    ensures forall k :: k in ColorMap(jobs) <==> exists j :: 0 <= j < |jobs| && jobs[j].name == k
    ensures forall i :: 0 <= i < |jobs| && (forall j :: i < j < |jobs| ==> jobs[j].name != jobs[i].name) ==>
      ColorMap(jobs)[jobs[i].name] == jobs[i].color
  {
    if jobs != [] {
      var init := jobs[..|jobs| - 1];
      ColorMapLastWins(init);
      assert forall j :: 0 <= j < |init| ==> init[j] == jobs[j];
    }
  }

  method BuildJobColorMap(jobs: seq<Job>) returns (colors: map<string, string>)
    ensures colors == ColorMap(jobs)
  {
    colors := map[];
    for n := 0 to |jobs|
      invariant colors == ColorMap(jobs[..n])
    {
      assert jobs[..n + 1][..n] == jobs[..n];
      colors := colors[jobs[n].name := jobs[n].color];
    }
    assert jobs[..|jobs|] == jobs;
  }

  // ---------------------------------------------------------------------
  // dayCellClassNames
  // ---------------------------------------------------------------------

  /** The class of a day cell: 'fc-sun' on Sunday, 'fc-sat' on Saturday, none otherwise. */
  function DayCellClass(d: int): Option<string> {
    if Weekday(d) == 0 then Some("fc-sun")
    else if Weekday(d) == 6 then Some("fc-sat")
    else None
  }

  /**
    The cells that get a class are exactly the weekend days the wage rules
    pay the holiday rate on, the class repeats every seven days, and each
    'fc-sat' cell is followed by an 'fc-sun' cell.
  */
  lemma DayCellClassWeekend(d: int)
    ensures DayCellClass(d).Some? <==> IsWeekend(d)
    ensures DayCellClass(d) == Some("fc-sun") <==> Weekday(d) == 0
    ensures DayCellClass(d) == Some("fc-sat") <==> Weekday(d) == 6
    ensures DayCellClass(d + 7) == DayCellClass(d)
    ensures DayCellClass(d) == Some("fc-sat") <==> DayCellClass(d + 1) == Some("fc-sun")
  {
    assert Weekday(d + 7) == Weekday(d);
    assert Weekday(d + 1) == (Weekday(d) + 1) % 7;
  }

  /** 2024-06-01 was a Saturday and 2024-06-02 a Sunday. */
  lemma JuneFirstWeekend()
    ensures DayCellClass(DayNumber(Civil(2024, 6, 1))) == Some("fc-sat")
    ensures DayCellClass(DayNumber(Civil(2024, 6, 1)) + 1) == Some("fc-sun")
  {
    assert DayNumber(Civil(2024, 6, 1)) == 739037;
  }
}
