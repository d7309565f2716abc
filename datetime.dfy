/**
 * Instants, the fixed UTC-5 zone the puzzles unlock in, and the
 * sleep-until loop (src/utils/datetime.rs). An instant is a whole number of
 * seconds since 1970-01-01T00:00:00Z.
 */
module DateTime {

  const SecondsPerDay := 86400

  /** EST: a fixed offset five hours west of UTC, in seconds east of UTC. */
  const EstOffset := -5 * 3600

  /** A proleptic Gregorian calendar date. */
  datatype Date = Date(year: int, month: int, day: int)

  /** Number of days from 1970-01-01 to `d` (days-from-civil). */
  function DaysFromCivil(d: Date): int {
    var y := if d.month <= 2 then d.year - 1 else d.year;
    var era := y / 400;
    var yoe := y - era * 400;
    var mp := if d.month > 2 then d.month - 3 else d.month + 9;
    var doy := (153 * mp + 2) / 5 + d.day - 1;
    var doe := yoe * 365 + yoe / 4 - yoe / 100 + doy;
    era * 146097 + doe - 719468
  }

  /** Days from the start of a 400-year era (1 March) to the start of its year `yoe`. */
  function YearStart(yoe: int): int {
    365 * yoe + yoe / 4 - yoe / 100 + yoe / 400
  }

  /** Splits a day of a 400-year era into the year of the era and the day of that year. */
  function SplitEraDay(doe: int): (r: (int, int))
    requires 0 <= doe < 146097
    ensures 0 <= r.0 < 400 && 0 <= r.1 < 366
    ensures doe == YearStart(r.0) + r.1 < YearStart(r.0 + 1)
  {
    var c := if doe / 36524 == 4 then 3 else doe / 36524;
    var r1 := doe - 36524 * c;
    var q := r1 / 1461;
    var r2 := r1 - 1461 * q;
    var j := if r2 / 365 == 4 then 3 else r2 / 365;
    var yoe := 100 * c + 4 * q + j;
    assert 0 <= q < 25;
    assert yoe / 4 == 25 * c + q && yoe / 100 == c && yoe / 400 == 0;
    assert YearStart(yoe) == 36524 * c + 1461 * q + 365 * j;
    NextYearStart(c, q, j, r2);
    (yoe, r2 - 365 * j)
  }

  lemma NextYearStart(c: int, q: int, j: int, r2: int)
    requires 0 <= c < 4 && 0 <= q < 25 && 0 <= j < 4 && 0 <= r2 < 1461
    requires j == (if r2 / 365 == 4 then 3 else r2 / 365)
    requires q == 24 && j == 3 && c < 3 ==> r2 < 1460
    ensures 36524 * c + 1461 * q + r2 < YearStart(100 * c + 4 * q + j + 1)
  {
    var k := 100 * c + 4 * q + j + 1;
    if j < 3 {
      assert k / 4 == 25 * c + q && k / 100 == c && k / 400 == 0;
    } else if q < 24 {
      assert k / 4 == 25 * c + q + 1 && k / 100 == c && k / 400 == 0;
    } else {
      assert k == 100 * (c + 1);
      assert k / 4 == 25 * c + 25 && k / 100 == c + 1;
      assert k / 400 == (if c == 3 then 1 else 0);
    }
  }

  lemma MonthSplit(doy: int)
    requires 0 <= doy < 366
    ensures var mp := (5 * doy + 2) / 153;
      0 <= mp < 12 && (153 * mp + 2) / 5 <= doy && doy - (153 * mp + 2) / 5 < 31
  {
  }

  /** The date on day `doy` (0 = 1 March) of the March-based year `y`. */
  function MarchDate(y: int, doy: int): Date
    requires 0 <= doy < 366
  {
    var mp := (5 * doy + 2) / 153;
    var month := if mp < 10 then mp + 3 else mp - 9;
    Date(if month <= 2 then y + 1 else y, month, doy - (153 * mp + 2) / 5 + 1)
  }

  /**
   * The date of the day numbered `z` (civil-from-days). CivilRoundTrip proves
   * it the inverse of DaysFromCivil.
   */
  function CivilFromDays(z: int): (d: Date)
    ensures 1 <= d.month <= 12 && 1 <= d.day <= 31
  {
    CivilInEraOf(z, (z + 719468) / 146097)
  }

  /** CivilFromDays, once the 400-year era that holds day `z` is known. */
  function CivilInEraOf(z: int, era: int): (d: Date)
    requires 0 <= z + 719468 - era * 146097 < 146097
    ensures 1 <= d.month <= 12 && 1 <= d.day <= 31
  {
    var split := SplitEraDay(z + 719468 - era * 146097);
    MonthSplit(split.1);
    MarchDate(split.0 + era * 400, split.1)
  }

  /** Converting the date of a day number back gives the same day number. */
  lemma CivilRoundTrip(z: int)
    ensures DaysFromCivil(CivilFromDays(z)) == z
  {
    var era := (z + 719468) / 146097;
    var split := SplitEraDay(z + 719468 - era * 146097);
    CivilInEra(z, era);
    MarchDateDays(split.0 + era * 400, split.1, era, split.0);
  }

  /** The day number of day `doy` of year `yoe` of era `era`, counting from 1 March. */
  lemma MarchDateDays(y: int, doy: int, era: int, yoe: int)
    requires 0 <= yoe < 400 && y == yoe + era * 400 && 0 <= doy < 366
    ensures DaysFromCivil(MarchDate(y, doy)) == era * 146097 + YearStart(yoe) + doy - 719468
  {
    MonthSplit(doy);
    var mp := (5 * doy + 2) / 153;
    var day := doy - (153 * mp + 2) / 5 + 1;
    DaysFromMarch(y, mp, day, era, yoe);
    assert MarchDate(y, doy) == Date(if mp >= 10 then y + 1 else y, if mp < 10 then mp + 3 else mp - 9, day);
  }

  /** CivilFromDays, once the era of `z` is known. */
  lemma CivilInEra(z: int, era: int)
    requires 0 <= z + 719468 - era * 146097 < 146097
    ensures var split := SplitEraDay(z + 719468 - era * 146097);
      CivilFromDays(z) == MarchDate(split.0 + era * 400, split.1)
  {
    EraOf(z + 719468, era);
    assert CivilFromDays(z) == CivilInEraOf(z, era);
  }

  /** The era of a day count since 0000-03-01 is the one whose span holds it. */
  lemma EraOf(n: int, era: int)
    requires 0 <= n - era * 146097 < 146097
    ensures n / 146097 == era
  {
  }

  lemma DaysFromMarch(y: int, mp: int, d: int, era: int, yoe: int)
    requires 0 <= mp < 12 && 0 <= yoe < 400 && y == yoe + era * 400
    ensures DaysFromCivil(Date(if mp >= 10 then y + 1 else y, if mp < 10 then mp + 3 else mp - 9, d))
         == era * 146097 + YearStart(yoe) + (153 * mp + 2) / 5 + d - 1 - 719468
  {
    assert y / 400 == era && y - (y / 400) * 400 == yoe;
  }

  /** The number of the UTC-5 day that contains instant `t`. */
  function EstDayNumber(t: int): (z: int)
    ensures z * SecondsPerDay <= t + EstOffset < z * SecondsPerDay + SecondsPerDay
  {
    (t + EstOffset) / SecondsPerDay
  }

  /** `now_est()`: the calendar date of instant `now` seen at the EST offset. */
  function NowEst(now: int): (d: Date)
    ensures 1 <= d.month <= 12 && 1 <= d.day <= 31
    ensures DaysFromCivil(d) * SecondsPerDay <= now + EstOffset < DaysFromCivil(d) * SecondsPerDay + SecondsPerDay
  {
    CivilRoundTrip(EstDayNumber(now));
    CivilFromDays(EstDayNumber(now))
  }

  /** The day after the d-th of December is the (d+1)-th. */
  lemma DecemberNext(y: int, d: int)
    ensures DaysFromCivil(Date(y, 12, d + 1)) == DaysFromCivil(Date(y, 12, d)) + 1
  {
  }

  /** From December 1 to December 1 of the next year is a whole year: 365 or 366 days. */
  lemma DecemberYear(y: int)
    ensures 365 <= DaysFromCivil(Date(y + 1, 12, 1)) - DaysFromCivil(Date(y, 12, 1)) <= 366
  {
    var era := y / 400;
    var yoe := y - era * 400;
    DaysFromMarch(y, 9, 1, era, yoe);
    YearStartStep(yoe);
    if yoe < 399 {
      DaysFromMarch(y + 1, 9, 1, era, yoe + 1);
    } else {
      DaysFromMarch(y + 1, 9, 1, era + 1, 0);
    }
  }

  /**
   * A date in January to November lies after December 31 of the year before
   * and before December 1 of its own year.
   */
  lemma OutsideDecember(z: int)
    requires CivilFromDays(z).month < 12
    ensures DaysFromCivil(Date(CivilFromDays(z).year - 1, 12, 31)) < z
    ensures z < DaysFromCivil(Date(CivilFromDays(z).year, 12, 1))
  {
    var era, yoe, doy := CivilParts(z);
    OutsideDecemberInEra(z, era, yoe, doy, CivilFromDays(z));
  }

  /** The era, year of the era and day of that year that CivilFromDays finds for `z`. */
  lemma CivilParts(z: int) returns (era: int, yoe: int, doy: int)
    ensures 0 <= yoe < 400 && 0 <= doy < 366 && YearStart(yoe) + doy < YearStart(yoe + 1)
    ensures z == era * 146097 + YearStart(yoe) + doy - 719468
    ensures CivilFromDays(z) == MarchDate(yoe + era * 400, doy)
  {
    era := (z + 719468) / 146097;
    var split := SplitEraDay(z + 719468 - era * 146097);
    yoe, doy := split.0, split.1;
    CivilInEra(z, era);
  }

  lemma OutsideDecemberInEra(z: int, era: int, yoe: int, doy: int, d: Date)
    requires 0 <= yoe < 400 && 0 <= doy < 366 && YearStart(yoe) + doy < YearStart(yoe + 1)
    requires z == era * 146097 + YearStart(yoe) + doy - 719468
    requires d == MarchDate(yoe + era * 400, doy) && d.month < 12
    ensures DaysFromCivil(Date(d.year - 1, 12, 31)) < z < DaysFromCivil(Date(d.year, 12, 1))
  {
    MonthSplit(doy);
    var y := yoe + era * 400;
    var mp := (5 * doy + 2) / 153;
    if mp >= 10 {
      assert d.year == y + 1 && doy >= 306;
      JanuaryFebruaryInEra(era, yoe, doy);
    } else {
      assert d.year == y && mp < 9 && doy < (153 * (mp + 1) + 2) / 5;
      MarchToNovemberInEra(era, yoe, doy);
    }
  }

  /** January and February lie between the Decembers of the March-based years `y` and `y + 1`. */
  lemma JanuaryFebruaryInEra(era: int, yoe: int, doy: int)
    requires 0 <= yoe < 400 && 306 <= doy && YearStart(yoe) + doy < YearStart(yoe + 1)
    ensures var y := yoe + era * 400;
      var z := era * 146097 + YearStart(yoe) + doy - 719468;
      DaysFromCivil(Date(y, 12, 31)) < z < DaysFromCivil(Date(y + 1, 12, 1))
  {
    var y := yoe + era * 400;
    DaysFromMarch(y, 9, 31, era, yoe);
    if yoe < 399 {
      DaysFromMarch(y + 1, 9, 1, era, yoe + 1);
    } else {
      DaysFromMarch(y + 1, 9, 1, era + 1, 0);
    }
  }

  /** March to November of year `y` lie between the Decembers of `y - 1` and `y`. */
  lemma MarchToNovemberInEra(era: int, yoe: int, doy: int)
    requires 0 <= yoe < 400 && 0 <= doy < 275
    ensures var y := yoe + era * 400;
      var z := era * 146097 + YearStart(yoe) + doy - 719468;
      DaysFromCivil(Date(y - 1, 12, 31)) < z < DaysFromCivil(Date(y, 12, 1))
  {
    var y := yoe + era * 400;
    DaysFromMarch(y, 9, 1, era, yoe);
    if yoe > 0 {
      DaysFromMarch(y - 1, 9, 31, era, yoe - 1);
      YearStartStep(yoe - 1);
    } else {
      DaysFromMarch(y - 1, 9, 31, era - 1, 399);
    }
  }

  /** A March-based year has 365 or 366 days. */
  lemma YearStartStep(a: int)
    ensures YearStart(a) + 365 <= YearStart(a + 1) <= YearStart(a) + 366
  {
    var k := a + 1;
    assert k / 4 == a / 4 + (if k % 4 == 0 then 1 else 0);
    assert k / 100 == a / 100 + (if k % 100 == 0 then 1 else 0);
    assert k / 400 == a / 400 + (if k % 400 == 0 then 1 else 0);
    assert k % 100 == 0 ==> k % 4 == 0;
  }

  lemma {:induction false} YearStartIncreasing(a: int, b: int)
    requires a < b
    ensures YearStart(a) + 365 <= YearStart(b)
    decreases b - a
  {
    YearStartStep(a);
    if a + 1 < b {
      YearStartIncreasing(a + 1, b);
    }
  }

  /** The split of a day of an era is the only year whose span holds it. */
  lemma SplitUnique(doe: int, yoe: int)
    requires 0 <= yoe < 400 && YearStart(yoe) <= doe < YearStart(yoe + 1) && doe < 146097
    ensures SplitEraDay(doe) == (yoe, doe - YearStart(yoe))
  {
    var split := SplitEraDay(doe);
    if split.0 < yoe {
      YearStartIncreasing(split.0 + 1, yoe);
      assert false;
    } else if split.0 > yoe {
      YearStartIncreasing(yoe + 1, split.0);
      assert false;
    }
  }

  /** December `d` of `y` is day 274 + d of year `y` of its era, counting from 1 March. */
  lemma DecemberInEra(y: int, d: int)
    requires 1 <= d <= 31
    ensures var era := y / 400;
      var yoe := y - era * 400;
      var doe := DaysFromCivil(Date(y, 12, d)) + 719468 - era * 146097;
      && 0 <= yoe < 400
      && doe == YearStart(yoe) + 274 + d
      && YearStart(yoe) <= doe < YearStart(yoe + 1)
      && doe < 146097
  {
    var era := y / 400;
    var yoe := y - era * 400;
    DaysFromMarch(y, 9, d, era, yoe);
    if yoe < 399 {
      YearStartIncreasing(yoe, 399);
    }
    YearStartStep(yoe);
  }

  /** Day 274 + d of a March-based year, counting from 0, is December d. */
  lemma MarchDateDecember(y: int, d: int)
    requires 1 <= d <= 31
    ensures MarchDate(y, 274 + d) == Date(y, 12, d)
  {
    assert (5 * (274 + d) + 2) / 153 == 9;
  }

  /** Every day of December has the date CivilFromDays gives its number. */
  lemma DecemberRoundTrip(y: int, d: int)
    requires 1 <= d <= 31
    ensures CivilFromDays(DaysFromCivil(Date(y, 12, d))) == Date(y, 12, d)
  {
    var z := DaysFromCivil(Date(y, 12, d));
    var era := y / 400;
    var yoe := y - era * 400;
    var doe := z + 719468 - era * 146097;
    DecemberInEra(y, d);
    SplitUnique(doe, yoe);
    assert SplitEraDay(doe) == (yoe, 274 + d);
    CivilInEra(z, era);
    assert CivilFromDays(z) == MarchDate(yoe + era * 400, 274 + d);
    assert yoe + era * 400 == y;
    MarchDateDecember(y, d);
  }

  lemma DecemberNextBy(y: int, d: int)
    ensures DaysFromCivil(Date(y, 12, d)) == DaysFromCivil(Date(y, 12, 1)) + d - 1
  {
  }

  /** One sleep the clock was asked for: the reading when it began, and its length. */
  datatype Nap = Nap(at: int, duration: nat)

  /**
   * A clock the model reads and advances. `lags` says, sleep by sleep, how
   * much later than asked each coming sleep ends; once it runs out, sleeps
   * end on time. `log` records every sleep made.
   */
  class Clock {
    var now: int
    var lags: seq<nat>
    var log: seq<Nap>

    constructor (start: int, lags: seq<nat>)
      ensures now == start && this.lags == lags && log == []
    {
      now := start;
      this.lags := lags;
      log := [];
    }

    /** `tokio::time::sleep`: returns no earlier than `duration` seconds later. */
    method Sleep(duration: nat)
      modifies this
      ensures now == old(now) + duration + Lag(old(lags), 0)
      ensures lags == Drop(old(lags), 1)
      ensures log == old(log) + [Nap(old(now), duration)]
      ensures now >= old(now) + duration
    {
      log := log + [Nap(now, duration)];
      now := now + duration + Lag(lags, 0);
      lags := Drop(lags, 1);
    }
  }

  /** The extra delay of the `i`-th coming sleep. */
  function Lag(lags: seq<nat>, i: nat): nat {
    if i < |lags| then lags[i] else 0
  }

  /** The lags left after `n` sleeps. */
  function Drop(lags: seq<nat>, n: nat): (r: seq<nat>)
    ensures |r| == if n <= |lags| then |lags| - n else 0
    ensures forall i :: 0 <= i < |r| ==> r[i] == lags[n + i]
  {
    if n <= |lags| then lags[n..] else []
  }

  /** After `n` sleeps, the next sleep's lag is the `n`-th, and one more sleep drops it. */
  lemma DropStep(lags: seq<nat>, n: nat)
    ensures Lag(Drop(lags, n), 0) == Lag(lags, n)
    ensures Drop(Drop(lags, n), 1) == Drop(lags, n + 1)
  {
  }

  function Min(a: int, b: int): int {
    if a <= b then a else b
  }

  /**
   * `sleep_until(target)`: re-reads the clock and sleeps min(remaining, 60 s)
   * until the clock has reached `target`. Returns the sleeps it made, which
   * are what the clock logged: the first starts at the clock's reading on
   * entry, each later one where the one before it ended, and every one is
   * min(target - reading, 60) long.
   */
  method SleepUntil(clock: Clock, target: int) returns (naps: seq<Nap>)
    modifies clock
    ensures clock.log == old(clock.log) + naps
    ensures clock.lags == Drop(old(clock.lags), |naps|)
    ensures forall i :: 0 <= i < |naps| ==>
      naps[i].at < target && naps[i].duration == Min(target - naps[i].at, 60) && 0 < naps[i].duration <= 60
    ensures naps != [] ==> naps[0].at == old(clock.now)
    ensures forall i :: 0 <= i < |naps| - 1 ==>
      naps[i + 1].at == naps[i].at + naps[i].duration + Lag(old(clock.lags), i)
    ensures naps == [] ==> clock.now == old(clock.now)
    ensures naps != [] ==>
      var last := naps[|naps| - 1];
      clock.now == last.at + last.duration + Lag(old(clock.lags), |naps| - 1)
    ensures clock.now >= target
    ensures old(clock.now) >= target <==> naps == []
    ensures old(clock.now) < target ==> |naps| <= (target - old(clock.now) + 59) / 60
  {
    naps := [];
    ghost var start, lags0, log0 := clock.now, clock.lags, clock.log;
    while true
      invariant clock.log == log0 + naps
      invariant clock.lags == Drop(lags0, |naps|)
      invariant forall i :: 0 <= i < |naps| ==>
        naps[i].at < target && naps[i].duration == Min(target - naps[i].at, 60)
      invariant naps != [] ==> naps[0].at == start
      invariant forall i :: 0 <= i < |naps| - 1 ==>
        naps[i + 1].at == naps[i].at + naps[i].duration + Lag(lags0, i)
      invariant naps == [] ==> clock.now == start
      invariant naps != [] ==>
        clock.now == naps[|naps| - 1].at + naps[|naps| - 1].duration + Lag(lags0, |naps| - 1)
      invariant clock.now < target ==> clock.now >= start + 60 * |naps|
      invariant naps != [] ==> start + 60 * (|naps| - 1) < target
      decreases target - clock.now
    {
      var now := clock.now;
      if now >= target {
        break;
      }
      var sleep := Min(target - now, 60);
      DropStep(lags0, |naps|);
      clock.Sleep(sleep);
      ghost var before := naps;
      naps := naps + [Nap(now, sleep)];
      assert forall i :: 0 <= i < |before| ==> naps[i] == before[i];
      assert naps[|before|] == Nap(now, sleep);
    }
  }
}
