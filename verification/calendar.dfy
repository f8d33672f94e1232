/**
 * The calendar cursor of App.tsx. A date is a day number counted from
 * 1970-01-01, which was a Thursday, so Date.prototype.getDay (0 = Sunday,
 * 5 = Friday) is (day + 4) % 7 with Dafny's never-negative remainder.
 */
module Calendar {
  import opened JsText

  /** Day 0 (1970-01-01) was a Thursday. */
  const EpochWeekday: nat := 4
  /** The meetings fall on Fridays. */
  const Friday: nat := 5

  /** The weekday of a day number, as getDay numbers it. */
  function Weekday(day: int): (w: nat)
    ensures w < 7
  {
    (day + EpochWeekday) % 7
  }

  /** Moving `j` days on moves the weekday `j` places round the week. */
  lemma WeekdayShift(day: int, j: int)
    ensures Weekday(day + j) == (Weekday(day) + j) % 7
  {
    var q := (day + EpochWeekday) / 7;
    assert day + EpochWeekday == 7 * q + Weekday(day);
    assert day + j + EpochWeekday == 7 * q + (Weekday(day) + j);
  }

  /** Stepping by whole weeks (the ±7 buttons) keeps the weekday. */
  lemma WeekStepKeepsWeekday(day: int, weeks: int)
    ensures Weekday(day + 7 * weeks) == Weekday(day)
  {
    WeekdayShift(day, 7 * weeks);
    assert (Weekday(day) + 7 * weeks) % 7 == Weekday(day) by {
      var w := Weekday(day);
      assert w + 7 * weeks == 7 * weeks + w;
    }
  }

  /** The cursor after changeDate(days). */
  function ChangeDate(day: int, days: int): (r: int)
    ensures r - day == days
    ensures Weekday(r) == (Weekday(day) + days) % 7
    ensures days % 7 == 0 ==> Weekday(r) == Weekday(day)
  {
    WeekdayShift(day, days);
    WeekStepKeepsWeekday(day, days / 7);
    day + days
  }

  /**
   * The cursor set on start-up: today when today is a Friday, otherwise today
   * moved on by (5 - weekday + 7) % 7 days.
   */
  function InitialCursor(today: int): (r: int)
    ensures 0 <= r - today <= 6
    ensures Weekday(r) == Friday
    ensures r == today <==> Weekday(today) == Friday
  {
    var w := Weekday(today);
    WeekdayShift(today, (Friday - w + 7) % 7);
    if w != Friday then today + (Friday - w + 7) % 7 else today
  }

  /** Start-up lands on the nearest Friday from today on: no Friday lies in between. */
  lemma InitialCursorNearest(today: int, d: int)
    requires today <= d < InitialCursor(today)
    ensures Weekday(d) != Friday
  {
    WeekdayShift(today, d - today);
  }

  /** The cursor after jumpToNextFriday: the offset (7 - weekday + 5) % 7, or 7 when that is 0. */
  function NextFriday(day: int): (r: int)
    ensures 1 <= r - day <= 7
    ensures Weekday(r) == Friday
  {
    var k := (7 - Weekday(day) + Friday) % 7;
    var offset := if k == 0 then 7 else k;
    WeekdayShift(day, offset);
    day + offset
  }

  /** The jump lands on the first Friday strictly after the cursor. */
  lemma NextFridayNearest(day: int, d: int)
    requires day < d < NextFriday(day)
    ensures Weekday(d) != Friday
  {
    WeekdayShift(day, d - day);
  }

  /**
   * The two Friday searches differ only on a Friday: start-up stays put,
   * the jump moves a whole week on.
   */
  lemma InitialCursorVersusNextFriday(day: int)
    ensures Weekday(day) == Friday ==> InitialCursor(day) == day && NextFriday(day) == day + 7
    ensures Weekday(day) != Friday ==> InitialCursor(day) == NextFriday(day)
  {
  }

  /** The key under which a day's list is stored: one string per day. */
  function DateKey(day: int): (key: string)
    ensures key != []
  {
    IntToString(day)
  }

  /** Different days never share a key. */
  lemma DateKeyInjective(a: int, b: int)
    ensures DateKey(a) == DateKey(b) ==> a == b
  {
    IntToStringInjective(a, b);
  }

  /** The start-up scenario: on a Wednesday the cursor moves two days on. */
  lemma WednesdayScenario(today: int)
    requires Weekday(today) == 3
    ensures InitialCursor(today) == today + 2
  {
  }
}
