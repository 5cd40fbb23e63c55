/** Working days between two dates, by which a claim on the board goes stale. A date is its ordinal:
    day 1 is a Monday. */
module WorkingDays {

  function Weekday(day: int): nat {
    (day + 6) % 7
  }

  predicate Works(day: int) {
    Weekday(day) < 5
  }

  function DaysAfter(start: int, end: int): set<int> {
    set day | start < day <= end && Works(day)
  }

  method WorkingDaysAfter(start: int, end: int) returns (count: nat)
    ensures count == |DaysAfter(start, end)|
  {
    if end <= start {
      assert DaysAfter(start, end) == {};
      return 0;
    }
    count := 0;
    var day := start + 1;
    assert DaysAfter(start, start) == {};
    while day <= end
      invariant start < day <= end + 1
      invariant count == |DaysAfter(start, day - 1)|
    {
      assert DaysAfter(start, day) == if Works(day) then DaysAfter(start, day - 1) + {day} else DaysAfter(start, day - 1);
      if Weekday(day) < 5 {
        count := count + 1;
      }
      day := day + 1;
    }
  }

  /** How many of the days up to this one, from day 1, are working days. */
  function UpTo(day: int): int {
    5 * (day / 7) + if day % 7 < 5 then day % 7 else 5
  }

  lemma Division(n: int, q: int, r: int)
    requires n == 7 * q + r && 0 <= r < 7
    ensures n / 7 == q && n % 7 == r
  {
  }

  lemma OneDayMore(day: int)
    ensures UpTo(day) - UpTo(day - 1) == if Works(day) then 1 else 0
  {
    var q, r := (day - 1) / 7, (day - 1) % 7;
    Division(day + 6, q + 1, r);
    if r == 6 {
      Division(day, q + 1, 0);
    } else {
      Division(day, q, r + 1);
    }
  }

  lemma OneDayMoreCounts(start: int, end: int)
    requires start < end
    ensures |DaysAfter(start, end)| == |DaysAfter(start, end - 1)| + if Works(end) then 1 else 0
  {
    hide Works;
    assert DaysAfter(start, end) == if Works(end) then DaysAfter(start, end - 1) + {end} else DaysAfter(start, end - 1);
  }

  /** The count without a loop. */
  lemma {:induction false} CountIsDifference(start: int, end: int)
    requires start <= end
    ensures |DaysAfter(start, end)| == UpTo(end) - UpTo(start)
    decreases end - start
  {
    hide UpTo, Works;
    if start == end {
      assert DaysAfter(start, end) == {};
    } else {
      CountIsDifference(start, end - 1);
      OneDayMoreCounts(start, end);
      OneDayMore(end);
    }
  }

  /** Counting in two stretches counts the same, and a week always has five working days. */
  lemma StretchesAddUp(start: int, middle: int, end: int)
    requires start <= middle <= end
    ensures |DaysAfter(start, end)| == |DaysAfter(start, middle)| + |DaysAfter(middle, end)|
    ensures |DaysAfter(start, start + 7)| == 5
  {
    hide DaysAfter;
    CountIsDifference(start, end);
    CountIsDifference(start, middle);
    CountIsDifference(middle, end);
    CountIsDifference(start, start + 7);
    Division(start + 7, start / 7 + 1, start % 7);
  }
}
