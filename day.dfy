/**
 * Puzzle days of the event (src/aoc/day.rs): when a puzzle unlocks, its URL,
 * and which puzzle is current, next and most recent at an instant `now`.
 */
module Day {
  import opened Wrappers
  import opened Text
  import opened DateTime

  /** A puzzle: day `day` (1..25 for real puzzles) of the event of `year`. */
  datatype AocDay = AocDay(year: int, day: int)

  predicate IsPuzzleDay(d: AocDay) {
    1 <= d.day <= 25
  }

  /**
   * `unlock_datetime()`: 00:00 on December `day` in EST. The source unwraps the
   * date, so a day outside 1..31 panics.
   */
  function UnlockInstant(d: AocDay): int
    requires 1 <= d.day <= 31
  {
    DaysFromCivil(Date(d.year, 12, d.day)) * SecondsPerDay - EstOffset
  }

  /** The unlock instant is a midnight in EST, and the EST date there is December `day`. */
  lemma UnlockIsEstMidnight(d: AocDay)
    requires 1 <= d.day <= 31
    ensures NowEst(UnlockInstant(d)) == Date(d.year, 12, d.day)
    ensures (UnlockInstant(d) + EstOffset) % SecondsPerDay == 0
  {
    DecemberRoundTrip(d.year, d.day);
    EstMidnight(DaysFromCivil(Date(d.year, 12, d.day)));
  }

  /** The EST midnight that starts day number `z` falls on day `z`. */
  lemma EstMidnight(z: int)
    ensures EstDayNumber(z * SecondsPerDay - EstOffset) == z
    ensures (z * SecondsPerDay - EstOffset + EstOffset) % SecondsPerDay == 0
  {
  }

  /** `url()` */
  function Url(d: AocDay): string
    requires d.day >= 0
  {
    "https://adventofcode.com/" + IntToString(d.year) + "/day/" + NatToString(d.day)
  }

  /** `current()`: the puzzle of today's EST date, if today is December 1..25. */
  function Current(now: int): (r: Option<AocDay>)
    ensures r.Some? ==> IsPuzzleDay(r.value) && r.value.year == NowEst(now).year
  {
    var today := NowEst(now);
    if today.month == 12 && today.day <= 25 then Some(AocDay(today.year, today.day)) else None
  }

  /** `next()`: the next puzzle to unlock. */
  function Next(now: int): (r: AocDay)
    ensures IsPuzzleDay(r)
  {
    var today := NowEst(now);
    if today.month != 12 then AocDay(today.year, 1)
    else if today.day < 25 then AocDay(today.year, today.day + 1)
    else AocDay(today.year + 1, 1)
  }

  /** `most_recent()`: the last puzzle that has unlocked. */
  function MostRecent(now: int): (r: AocDay)
    ensures IsPuzzleDay(r)
  {
    var today := NowEst(now);
    if today.month != 12 then AocDay(today.year - 1, 25)
    else AocDay(today.year, Min(today.day, 25))
  }

  /** The puzzle that follows `d` in the sequence of all puzzles. */
  function Successor(d: AocDay): AocDay {
    if d.day < 25 then AocDay(d.year, d.day + 1) else AocDay(d.year + 1, 1)
  }

  /** An instant lies within the EST day numbered `z` exactly when it is within 24 h of that day's midnight. */
  lemma WithinEstDay(now: int, z: int)
    ensures EstDayNumber(now) == z <==>
      z * SecondsPerDay - EstOffset <= now < z * SecondsPerDay - EstOffset + SecondsPerDay
  {
  }

  /**
   * `current()` is the puzzle that unlocked within the last 24 hours: it is
   * Some(d) exactly when d is a puzzle day and now is in [unlock(d), unlock(d) + 24 h).
   */
  lemma CurrentIsTodaysPuzzle(now: int, d: AocDay)
    ensures Current(now) == Some(d) <==>
      IsPuzzleDay(d) && UnlockInstant(d) <= now < UnlockInstant(d) + SecondsPerDay
  {
    var z := EstDayNumber(now);
    if IsPuzzleDay(d) {
      var u := DaysFromCivil(Date(d.year, 12, d.day));
      DecemberRoundTrip(d.year, d.day);
      WithinEstDay(now, u);
      if UnlockInstant(d) <= now < UnlockInstant(d) + SecondsPerDay {
        assert z == u;
      }
      if Current(now) == Some(d) {
        assert DaysFromCivil(NowEst(now)) == z;
      }
    }
  }

  /** While a puzzle is current, the most recent puzzle is that one. */
  lemma MostRecentIsCurrent(now: int)
    requires Current(now).Some?
    ensures MostRecent(now) == Current(now).value
  {
  }

  /** The next puzzle is the one after the most recent puzzle. */
  lemma NextIsSuccessor(now: int)
    ensures Next(now) == Successor(MostRecent(now))
  {
  }

  /** The most recent puzzle has unlocked by `now`. */
  lemma MostRecentHasUnlocked(now: int)
    ensures UnlockInstant(MostRecent(now)) <= now
  {
    var z := EstDayNumber(now);
    var today := NowEst(now);
    assert DaysFromCivil(today) == z;
    if today.month != 12 {
      OutsideDecember(z);
      DecemberNextBy(today.year - 1, 31);
      DecemberNextBy(today.year - 1, 25);
    } else {
      DecemberNextBy(today.year, today.day);
      DecemberNextBy(today.year, Min(today.day, 25));
    }
  }

  /** The next puzzle unlocks strictly after `now`. */
  lemma NextUnlocksLater(now: int)
    ensures now < UnlockInstant(Next(now))
  {
    var z := EstDayNumber(now);
    var today := NowEst(now);
    assert DaysFromCivil(today) == z;
    if today.month != 12 {
      OutsideDecember(z);
    } else if today.day < 25 {
      DecemberNext(today.year, today.day);
    } else {
      DecemberYear(today.year);
      DecemberNextBy(today.year, today.day);
    }
  }

  /** Puzzle `a` comes before puzzle `b` in the order the puzzles unlock. */
  predicate Before(a: AocDay, b: AocDay) {
    a.year < b.year || (a.year == b.year && a.day < b.day)
  }

  lemma {:induction false} DecemberIncreasing(y1: int, y2: int)
    requires y1 < y2
    ensures DaysFromCivil(Date(y1, 12, 1)) + 365 <= DaysFromCivil(Date(y2, 12, 1))
    decreases y2 - y1
  {
    DecemberYear(y1);
    if y1 + 1 < y2 {
      DecemberIncreasing(y1 + 1, y2);
    }
  }

  /** Puzzles unlock in order: an earlier puzzle unlocks strictly earlier. */
  lemma UnlockIncreasing(a: AocDay, b: AocDay)
    requires IsPuzzleDay(a) && IsPuzzleDay(b) && Before(a, b)
    ensures UnlockInstant(a) < UnlockInstant(b)
  {
    DecemberNextBy(a.year, a.day);
    DecemberNextBy(b.year, b.day);
    if a.year < b.year {
      DecemberIncreasing(a.year, b.year);
    }
  }

  /** A puzzle's successor unlocks no later than any puzzle after it. */
  lemma SuccessorUnlocksFirst(a: AocDay, b: AocDay)
    requires IsPuzzleDay(a) && IsPuzzleDay(b) && Before(a, b)
    ensures UnlockInstant(Successor(a)) <= UnlockInstant(b)
  {
    if Successor(a) != b {
      UnlockIncreasing(Successor(a), b);
    }
  }

  /**
   * The most recent puzzle is the only puzzle that has unlocked by `now` while
   * its successor has not.
   */
  lemma MostRecentUnique(now: int, a: AocDay)
    requires IsPuzzleDay(a) && UnlockInstant(a) <= now < UnlockInstant(Successor(a))
    ensures MostRecent(now) == a
  {
    var m := MostRecent(now);
    MostRecentHasUnlocked(now);
    NextUnlocksLater(now);
    NextIsSuccessor(now);
    if Before(a, m) {
      SuccessorUnlocksFirst(a, m);
      assert false;
    } else if Before(m, a) {
      SuccessorUnlocksFirst(m, a);
      assert false;
    }
  }

  /** The next puzzle is the only puzzle that unlocks after `now` while its predecessor has unlocked. */
  lemma NextUnique(now: int, a: AocDay)
    requires IsPuzzleDay(a) && UnlockInstant(a) <= now < UnlockInstant(Successor(a))
    ensures Next(now) == Successor(a)
  {
    MostRecentUnique(now, a);
    NextIsSuccessor(now);
  }

  /**
   * The puzzles of 2024 unlock at 2024-12-01T06:00:00+01:00 (1733029200) and
   * then every 24 hours, up to 2024-12-25T06:00:00+01:00 (1735102800).
   */
  lemma Unlocks2024(d: int)
    requires 1 <= d <= 25
    ensures UnlockInstant(AocDay(2024, d)) == 1733029200 + (d - 1) * SecondsPerDay
  {
    DecemberNextBy(2024, d);
  }

  /** The first puzzle of 2025 unlocks at 2025-12-01T06:00:00+01:00. */
  lemma Unlocks2025()
    ensures UnlockInstant(AocDay(2025, 1)) == 1764565200
  {
  }

  /** The last puzzle of 2023 unlocks at 2023-12-25T06:00:00+01:00. */
  lemma Unlocks2023()
    ensures UnlockInstant(AocDay(2023, 25)) == 1703480400
  {
  }

  /** More than a day after the most recent unlock, no puzzle is current. */
  lemma NoCurrentAfterADay(now: int)
    requires UnlockInstant(MostRecent(now)) + SecondsPerDay <= now
    ensures Current(now) == None
  {
    if Current(now).Some? {
      MostRecentIsCurrent(now);
      CurrentIsTodaysPuzzle(now, Current(now).value);
    }
  }

  /** Between the last puzzle of 2023 and the first of 2024. */
  lemma CalendarBefore2024(now: int)
    requires 1703480400 <= now < 1733029200
    ensures MostRecent(now) == AocDay(2023, 25) && Next(now) == AocDay(2024, 1)
  {
    var last := AocDay(2023, 25);
    Unlocks2023();
    Unlocks2024(1);
    assert Successor(last) == AocDay(2024, 1);
    MostRecentUnique(now, last);
    NextUnique(now, last);
  }

  /** During December 2024 the puzzle of the day is current. */
  lemma CalendarDecember2024(now: int, d: int)
    requires 1 <= d <= 25
    requires 1733029200 + (d - 1) * 86400 <= now < 1733029200 + d * 86400
    ensures MostRecent(now) == AocDay(2024, d) && Current(now) == Some(AocDay(2024, d))
    ensures Next(now) == if d < 25 then AocDay(2024, d + 1) else AocDay(2025, 1)
  {
    Unlocks2024(d);
    if d < 25 {
      Unlocks2024(d + 1);
    } else {
      Unlocks2025();
    }
    NextUnique(now, AocDay(2024, d));
    CurrentIsTodaysPuzzle(now, AocDay(2024, d));
  }

  /** After the last puzzle of 2024 and before the first of 2025. */
  lemma CalendarAfter2024(now: int)
    requires 1735102800 + 86400 <= now < 1764565200
    ensures MostRecent(now) == AocDay(2024, 25) && Next(now) == AocDay(2025, 1) && Current(now) == None
  {
    var last := AocDay(2024, 25);
    Unlocks2024(25);
    Unlocks2025();
    assert Successor(last) == AocDay(2025, 1);
    MostRecentUnique(now, last);
    NextUnique(now, last);
    assert UnlockInstant(MostRecent(now)) + SecondsPerDay <= now;
    NoCurrentAfterADay(now);
  }

  /**
   * The instants of the source's calendar tests in December 2024: just
   * after the first unlock, mid-December, and a minute before and after the
   * last unlock.
   */
  lemma CalendarExamples()
    ensures MostRecent(1733029213) == AocDay(2024, 1) && Current(1733029213) == Some(AocDay(2024, 1))
    ensures Next(1733029213) == AocDay(2024, 2)
    ensures MostRecent(1734268620) == AocDay(2024, 15) && Current(1734268620) == Some(AocDay(2024, 15))
    ensures Next(1734268620) == AocDay(2024, 16)
    ensures MostRecent(1735102747) == AocDay(2024, 24) && Current(1735102747) == Some(AocDay(2024, 24))
    ensures Next(1735102747) == AocDay(2024, 25)
    ensures MostRecent(1735102807) == AocDay(2024, 25) && Current(1735102807) == Some(AocDay(2024, 25))
    ensures Next(1735102807) == AocDay(2025, 1)
  {
    CalendarDecember2024(1733029213, 1);
    CalendarDecember2024(1734268620, 15);
    CalendarDecember2024(1735102747, 24);
    CalendarDecember2024(1735102807, 25);
  }

  /** The instants of the source's calendar tests after the last unlock of 2024: New Year's Eve and January 2025. */
  lemma CalendarExamplesAfter()
    ensures MostRecent(1735648662) == AocDay(2024, 25) && Current(1735648662) == None
    ensures Next(1735648662) == AocDay(2025, 1)
    ensures MostRecent(1736253462) == AocDay(2024, 25) && Current(1736253462) == None
    ensures Next(1736253462) == AocDay(2025, 1)
  {
    CalendarAfter2024(1735648662);
    CalendarAfter2024(1736253462);
  }

  /** The instants of the source's calendar tests before the first unlock of 2024: mid-2024, mid-November and one minute before it. */
  lemma CalendarExamplesBefore()
    ensures MostRecent(1721219862) == AocDay(2023, 25) && Current(1721219862) == None
    ensures Next(1721219862) == AocDay(2024, 1)
    ensures MostRecent(1731847062) == AocDay(2023, 25) && Current(1731847062) == None
    ensures Next(1731847062) == AocDay(2024, 1)
    ensures MostRecent(1733029147) == AocDay(2023, 25) && Current(1733029147) == None
    ensures Next(1733029147) == AocDay(2024, 1)
  {
    Unlocks2023();
    CalendarBefore2024(1721219862);
    NoCurrentAfterADay(1721219862);
    CalendarBefore2024(1731847062);
    NoCurrentAfterADay(1731847062);
    CalendarBefore2024(1733029147);
    NoCurrentAfterADay(1733029147);
  }

  /** The URLs of the source's URL test. */
  lemma UrlExamples()
    ensures Url(AocDay(2023, 1)) == "https://adventofcode.com/2023/day/1"
    ensures Url(AocDay(2018, 17)) == "https://adventofcode.com/2018/day/17"
  {
  }
}
