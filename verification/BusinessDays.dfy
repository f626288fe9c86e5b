/** The acknowledgement clock (models.py `business_days_from`, `DsarRequest.save`). Days
    are numbered so that day 0 is a Monday; the time of day is carried along unchanged. */
module BusinessDays {

  function Weekday(day: int): int {
    day % 7
  }

  predicate IsWeekday(day: int) {
    Weekday(day) < 5
  }

  /** Days from here to the next weekday, today excluded. */
  function DaysToWeekday(day: int): nat {
    if Weekday(day) == 4 then 3 else if Weekday(day) == 5 then 2 else 1
  }

  /** The n-th weekday after a day. */
  function NthWeekday(day: int, n: nat): int
    decreases n
  {
    if n == 0 then day else NthWeekday(day + DaysToWeekday(day), n - 1)
  }

  method BusinessDaysFrom(start: int, days: int) returns (moment: int)
    ensures moment == NthWeekday(start, if days > 0 then days else 0)
  {
    moment := start;
    var remaining := days;
    while remaining > 0
      invariant days > 0 ==> remaining >= 0 && NthWeekday(moment, remaining) == NthWeekday(start, days)
      invariant days <= 0 ==> remaining == days && moment == start
      decreases remaining, DaysToWeekday(moment)
    {
      assert NthWeekday(moment, remaining) == NthWeekday(moment + DaysToWeekday(moment), remaining - 1);
      moment := moment + 1;
      if IsWeekday(moment) {
        remaining := remaining - 1;
      } else {
        assert NthWeekday(moment, remaining) == NthWeekday(moment + DaysToWeekday(moment), remaining - 1);
      }
    }
  }

  /** From a weekday, n business days are n days plus a weekend for every Friday passed. */
  lemma {:induction false} ClosedForm(day: int, n: nat)
    requires IsWeekday(day)
    ensures NthWeekday(day, n) == day + n + 2 * ((Weekday(day) + n) / 5)
    decreases n
  {
    if n > 0 {
      ClosedForm(day + DaysToWeekday(day), n - 1);
    }
  }

  /** A weekend start lands where the preceding Friday would. */
  lemma WeekendStart(day: int, n: nat)
    requires !IsWeekday(day) && n > 0
    ensures var friday := day - (Weekday(day) - 4);
            Weekday(friday) == 4 && NthWeekday(day, n) == NthWeekday(friday, n)
  {
    var friday := day - (Weekday(day) - 4);
    assert day + DaysToWeekday(day) == friday + DaysToWeekday(friday);
  }

  lemma {:induction false} Additive(day: int, m: nat, n: nat)
    ensures NthWeekday(day, m + n) == NthWeekday(NthWeekday(day, m), n)
    decreases m
  {
    if m > 0 {
      Additive(day + DaysToWeekday(day), m - 1, n);
    }
  }

  // ----- holidays -----

  /** Weekdays in (from, to] that are not holidays. */
  ghost function WorkingDays(from: int, to: int, holidays: iset<int>): nat
    decreases to - from
  {
    if to <= from then 0
    else WorkingDays(from, to - 1, holidays) + if IsWeekday(to) && to !in holidays then 1 else 0
  }

  lemma {:induction false} WorkingDaysSplit(a: int, b: int, c: int, holidays: iset<int>)
    requires a <= b <= c
    ensures WorkingDays(a, c, holidays) == WorkingDays(a, b, holidays) + WorkingDays(b, c, holidays)
    decreases c - b
  {
    if b < c {
      WorkingDaysSplit(a, b, c - 1, holidays);
    }
  }

  lemma {:induction false} FewerWithHolidays(a: int, b: int, holidays: iset<int>)
    ensures WorkingDays(a, b, holidays) <= WorkingDays(a, b, iset{})
    decreases b - a
  {
    if a < b {
      FewerWithHolidays(a, b - 1, holidays);
    }
  }

  /** Up to the next weekday there is none, and then one. */
  lemma NextWeekdayCounts(day: int)
    ensures var next := day + DaysToWeekday(day);
            && IsWeekday(next) && WorkingDays(day, next, iset{}) == 1
            && forall b :: day <= b < next ==> WorkingDays(day, b, iset{}) == 0
  {
    var next := day + DaysToWeekday(day);
    assert IsWeekday(next) && (next == day + 1 || next == day + 2 || next == day + 3);
    forall b | day <= b < next ensures WorkingDays(day, b, iset{}) == 0 {
      NoneBefore(day, b);
    }
  }

  lemma {:induction false} NoneBefore(day: int, b: int)
    requires day <= b < day + DaysToWeekday(day)
    ensures WorkingDays(day, b, iset{}) == 0
    decreases b - day
  {
    if day < b {
      NoneBefore(day, b - 1);
      assert !IsWeekday(b);
    }
  }

  /** The result is the first day by which n weekdays have passed. */
  lemma {:induction false} FirstDay(day: int, n: nat)
    ensures day <= NthWeekday(day, n) && WorkingDays(day, NthWeekday(day, n), iset{}) == n
    ensures n > 0 ==> IsWeekday(NthWeekday(day, n))
    ensures forall b :: day <= b < NthWeekday(day, n) ==> WorkingDays(day, b, iset{}) < n
    decreases n
  {
    if n > 0 {
      var next := day + DaysToWeekday(day);
      NextWeekdayCounts(day);
      FirstDay(next, n - 1);
      WorkingDaysSplit(day, next, NthWeekday(day, n), iset{});
      forall b | day <= b < NthWeekday(day, n) ensures WorkingDays(day, b, iset{}) < n {
        if next <= b {
          WorkingDaysSplit(day, next, b, iset{});
        }
      }
    }
  }

  /** Ignoring holidays never makes the deadline later: for every set of holidays, a day by
      which n working days have passed is not before it. */
  lemma NeverLater(start: int, n: nat, holidays: iset<int>, trueDeadline: int)
    requires start <= trueDeadline && n <= WorkingDays(start, trueDeadline, holidays)
    ensures NthWeekday(start, n) <= trueDeadline
  {
    FewerWithHolidays(start, trueDeadline, holidays);
    FirstDay(start, n);
  }

  // ----- the two statutory clocks -----

  const ACK_BUSINESS_DAYS := 3
  const RESOLVE_DAYS := 30

  /** The acknowledgement falls due three to five days after receipt, well inside the
      resolution window. */
  lemma AcknowledgementWindow(received: int)
    ensures received + 3 <= NthWeekday(received, ACK_BUSINESS_DAYS) <= received + 5
    ensures NthWeekday(received, ACK_BUSINESS_DAYS) < received + RESOLVE_DAYS
  {
    if IsWeekday(received) {
      ClosedForm(received, ACK_BUSINESS_DAYS);
    } else {
      WeekendStart(received, ACK_BUSINESS_DAYS);
      ClosedForm(received - (Weekday(received) - 4), ACK_BUSINESS_DAYS);
    }
  }
}
