/**
  Recurrence rules of stored records and the dates a repeating record
  visits: the stepping done by the expansion loops of loadRegisteredTimes
  (shiftScheduler.js) and of loadUnavailableTimes / loadPartTimeShifts
  (calendar.js).
*/
module Recurrence {
  import opened CivilTime

  /** The stored `recurrence` string: 'none', 'daily', 'weekly', 'monthly' or anything else. */
  datatype Recurrence = NoRepeat | Daily | Weekly | Monthly | Unknown(tag: string)

  function RecurrenceOf(tag: string): Recurrence {
    if tag == "none" then NoRepeat
    else if tag == "daily" then Daily
    else if tag == "weekly" then Weekly
    else if tag == "monthly" then Monthly
    else Unknown(tag)
  }

  function TagOf(r: Recurrence): string {
    match r
    case NoRepeat => "none"
    case Daily => "daily"
    case Weekly => "weekly"
    case Monthly => "monthly"
    case Unknown(tag) => tag
  }

  /** A well-formed value: an Unknown never carries one of the four known tags. */
  predicate WellFormed(r: Recurrence) {
    r.Unknown? ==> r.tag !in {"none", "daily", "weekly", "monthly"}
  }

  /** Reading a stored tag loses nothing, and reading back a written value gives it back. */
  lemma TagRoundTrip(tag: string, r: Recurrence)
    ensures TagOf(RecurrenceOf(tag)) == tag && WellFormed(RecurrenceOf(tag))
    ensures WellFormed(r) ==> RecurrenceOf(TagOf(r)) == r
  {
  }

  /** The three values for which the loop moves `currentDate`. */
  predicate Repeats(r: Recurrence) {
    r.Daily? || r.Weekly? || r.Monthly?
  }

  /**
    One pass of the `if (recurrence === 'daily') ... else if ...` chain:
    one day, seven days, one month (JS setMonth), or, for any other value,
    no move at all.
  */
  function Step(r: Recurrence, c: Civil): Civil {
    match r
    case Daily => NextDay(c)
    case Weekly => AddDays(c, 7)
    case Monthly => AddMonths(c, 1)
    case _ => c
  }

  lemma StepIsLater(r: Recurrence, c: Civil)
    requires Valid(c) && Repeats(r)
    ensures Valid(Step(r, c)) && DayNumber(Step(r, c)) > DayNumber(c)
  {
    match r
    case Daily => NextDayIsNext(c);
    case Weekly => AddDaysIsLater(c, 7);
    case Monthly => AddMonthsIsLater(c, 1);
  }

  /** The date after k passes of the loop body. */
  function Iterate(r: Recurrence, c: Civil, k: nat): Civil
    decreases k
  {
    if k == 0 then c else Iterate(r, Step(r, c), k - 1)
  }

  /** The dates the loop visits from c while `currentDate <= endDate`. */
  function Occurrences(r: Recurrence, c: Civil, end: int): seq<Civil>
    requires Valid(c) && Repeats(r)
    decreases end - DayNumber(c)
  {
    if DayNumber(c) > end then []
    else
      StepIsLater(r, c);
      [c] + Occurrences(r, Step(r, c), end)
  }

  /**
    One pass of the loop: when the dates visited so far followed by those
    still to come from c are all of them, adding c to the visited ones and
    stepping on keeps that so.
  */
  lemma VisitNext(r: Recurrence, c: Civil, end: int, visited: seq<Civil>, all: seq<Civil>)
    requires Valid(c) && Repeats(r) && DayNumber(c) <= end
    requires visited + Occurrences(r, c, end) == all
    ensures Valid(Step(r, c)) && DayNumber(Step(r, c)) > DayNumber(c)
    ensures (visited + [c]) + Occurrences(r, Step(r, c), end) == all
  {
    StepIsLater(r, c);
    assert Occurrences(r, c, end) == [c] + Occurrences(r, Step(r, c), end);
    assert (visited + [c]) + Occurrences(r, Step(r, c), end) == visited + ([c] + Occurrences(r, Step(r, c), end));
  }

  /** One more pass of the loop body steps the date once more. */
  lemma {:induction false} IterateNext(r: Recurrence, c: Civil, k: nat)
    ensures Iterate(r, c, k + 1) == Step(r, Iterate(r, c, k))
    decreases k
  {
    if k > 0 {
      IterateNext(r, Step(r, c), k - 1);
    }
  }

  /** From a real date, one more step gives a later real date. */
  lemma IterateStep(r: Recurrence, c: Civil, k: nat)
    requires Repeats(r) && Valid(Iterate(r, c, k))
    ensures Valid(Iterate(r, c, k + 1))
    ensures DayNumber(Iterate(r, c, k)) < DayNumber(Iterate(r, c, k + 1))
  {
    IterateNext(r, c, k);
    StepIsLater(r, Iterate(r, c, k));
  }

  lemma {:induction false} IterateIsLater(r: Recurrence, c: Civil, j: nat, k: nat)
    requires Valid(c) && Repeats(r) && j <= k
    ensures Valid(Iterate(r, c, k))
    ensures DayNumber(Iterate(r, c, j)) + (k - j) <= DayNumber(Iterate(r, c, k))
    decreases k
  {
    if k > 0 {
      if j < k {
        IterateIsLater(r, c, j, k - 1);
      } else {
        IterateIsLater(r, c, 0, k - 1);
      }
      IterateStep(r, c, k - 1);
    }
  }

  /**
    The loop visits exactly the iterates that are not after endDate, in
    order: the i-th visited date is the i-th iterate, it is not after
    endDate, and the first iterate not visited is after endDate.
  */
  lemma {:induction false} OccurrencesAreIterates(r: Recurrence, c: Civil, end: int)
    requires Valid(c) && Repeats(r)
    ensures forall i :: 0 <= i < |Occurrences(r, c, end)| ==>
      Occurrences(r, c, end)[i] == Iterate(r, c, i) && DayNumber(Iterate(r, c, i)) <= end
    ensures DayNumber(Iterate(r, c, |Occurrences(r, c, end)|)) > end
    decreases end - DayNumber(c)
  {
    if DayNumber(c) <= end {
      StepIsLater(r, c);
      var next := Step(r, c);
      OccurrencesAreIterates(r, next, end);
      var occ := Occurrences(r, c, end);
      assert occ == [c] + Occurrences(r, next, end);
      forall i | 0 <= i < |occ|
        ensures occ[i] == Iterate(r, c, i) && DayNumber(Iterate(r, c, i)) <= end
      {
        if i > 0 {
          assert occ[i] == Occurrences(r, next, end)[i - 1];
        }
      }
    }
  }

  /** Every iterate not after endDate is visited, and no other date. */
  lemma OccurrencesComplete(r: Recurrence, c: Civil, end: int, k: nat)
    requires Valid(c) && Repeats(r)
    ensures DayNumber(Iterate(r, c, k)) <= end <==> k < |Occurrences(r, c, end)|
  {
    OccurrencesAreIterates(r, c, end);
    var n := |Occurrences(r, c, end)|;
    if k >= n {
      IterateIsLater(r, c, n, k);
    }
  }

  /** Visited dates strictly ascend. */
  lemma OccurrencesAscend(r: Recurrence, c: Civil, end: int, i: nat, j: nat)
    requires Valid(c) && Repeats(r)
    requires i < j < |Occurrences(r, c, end)|
    ensures DayNumber(Occurrences(r, c, end)[i]) < DayNumber(Occurrences(r, c, end)[j])
  {
    OccurrencesAreIterates(r, c, end);
    IterateIsLater(r, c, i, j);
  }

  /** Daily and weekly steps: the k-th iterate is k or 7k days after the base. */
  lemma {:induction false} IterateDays(r: Recurrence, c: Civil, k: nat)
    requires Valid(c) && (r.Daily? || r.Weekly?)
    ensures DayNumber(Iterate(r, c, k)) == DayNumber(c) + (if r.Daily? then k else 7 * k)
    decreases k
  {
    if k > 0 {
      if r.Daily? { NextDayIsNext(c); } else { AddDaysIsLater(c, 7); }
      IterateDays(r, Step(r, c), k - 1);
    }
  }

  /**
    Monthly steps from a day of month every month has: the k-th iterate is
    the same day of the month k months later.
  */
  lemma {:induction false} IterateMonths(c: Civil, k: nat)
    requires Valid(c) && c.day <= 28
    ensures Valid(Iterate(Monthly, c, k))
    ensures Iterate(Monthly, c, k).day == c.day
    ensures MonthIndex(Iterate(Monthly, c, k).year, Iterate(Monthly, c, k).month)
         == MonthIndex(c.year, c.month) + k
    decreases k
  {
    if k > 0 {
      var next := Step(Monthly, c);
      MonthlyStep(c);
      IterateMonths(next, k - 1);
      assert Iterate(Monthly, c, k) == Iterate(Monthly, next, k - 1);
    }
  }

  lemma MonthlyStep(c: Civil)
    requires Valid(c) && c.day <= 28
    ensures Valid(Step(Monthly, c)) && Step(Monthly, c).day == c.day
    ensures MonthIndex(Step(Monthly, c).year, Step(Monthly, c).month) == MonthIndex(c.year, c.month) + 1
  {
    AddMonthKeepsDay(c);
    AddMonthsIsLater(c, 1);
  }

  /**
    For a value other than daily, weekly or monthly the loop body never
    moves the date: every iterate is the base date, so a loop entered once
    is never left.
  */
  lemma {:induction false} NonRepeatingNeverMoves(r: Recurrence, c: Civil, k: nat)
    requires !Repeats(r)
    ensures Iterate(r, c, k) == c
    decreases k
  {
    if k > 0 {
      NonRepeatingNeverMoves(r, Step(r, c), k - 1);
    }
  }
}
