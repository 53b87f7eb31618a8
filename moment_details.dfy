/** The detail screen: the delta engine that turns one millisecond difference
    between now and the moment's date into elapsed days, approximate months
    and a clock string, recomputed on every tick, and the handoff of the
    record's image token to the edit screen. */
module MomentDetails {
  import opened Wrappers
  import opened Text
  import opened JsMath
  import opened Images
  import opened Records

  const MsPerSecond := 1000
  const MsPerDay := 86400000

  /** The `moment` route param the list hands over: the record with its image
      already resolved, and the original token under `imageSourceKey`. */
  datatype DetailsParams = DetailsParams(moment: Moment, image: ImageValue, imageSourceKey: Option<string>)

  /** The intermediate values of `calculateTime`. */
  datatype Elapsed = Elapsed(
    totalSeconds: int,
    totalMinutes: int,
    totalHours: int,
    totalDays: int,
    months: int,
    hours: int,
    minutes: int,
    seconds: int)

  /** The `timeDifference` state the screen shows. */
  datatype TimeDifference = TimeDifference(days: int, months: int, time: string)

  const InitialTimeDifference := TimeDifference(0, 0, "00:00:00")

  /** The arithmetic of `calculateTime` on `diff = now - date`: nested
      `Math.floor` divisions, `Math.floor(totalDays / 30.44)` taken as the
      exact rational 25/761, and JavaScript remainders. */
  function Split(diff: int): Elapsed {
    var totalSeconds := diff / MsPerSecond;
    var totalMinutes := totalSeconds / 60;
    var totalHours := totalMinutes / 60;
    var totalDays := totalHours / 24;
    var months := (25 * totalDays) / 761;
    Elapsed(totalSeconds, totalMinutes, totalHours, totalDays, months,
            Rem(totalHours, 24), Rem(totalMinutes, 60), Rem(totalSeconds, 60))
  }

  /** `formatTime`: values below ten get a `0` in front. For 0..99 the result
      is two digits denoting the value; a negative value keeps a stray `0`
      before its minus sign. */
  function FormatTime(v: int): (r: string)
    ensures 0 <= v < 100 ==> |r| == 2 && AllDigits(r) && DecimalValue(r) == v
    ensures v < 0 ==> |r| >= 3 && r[..2] == "0-"
  {
    if v < 10 then
      if v >= 0 then (LeadingZero(Decimal(v)); "0" + IntToString(v))
      else "0" + IntToString(v)
    else IntToString(v)
  }

  /** The `HH:MM:SS` string. */
  function Clock(e: Elapsed): string {
    FormatTime(e.hours) + ":" + FormatTime(e.minutes) + ":" + FormatTime(e.seconds)
  }

  /** `calculateTime`: all three outputs come from one `now - date`. */
  function CalculateTime(now: int, momentDate: int): TimeDifference {
    var e := Split(now - momentDate);
    TimeDifference(e.totalDays, e.months, Clock(e))
  }

  /** The chain of floors equals a single floor of the millisecond difference,
      for negative differences as well. */
  lemma {:induction false} NestedFloorsCollapse(diff: int)
    ensures Split(diff).totalSeconds == diff / 1000
    ensures Split(diff).totalMinutes == diff / 60000
    ensures Split(diff).totalHours == diff / 3600000
    ensures Split(diff).totalDays == diff / MsPerDay
  {
    NestedFloor(diff, 1000, 60);
    NestedFloor(diff, 60000, 60);
    NestedFloor(diff, 3600000, 24);
  }

  /** For a moment in the past, hours, minutes and seconds are clock fields in
      range, and together with the days they account for every elapsed second. */
  lemma ClockFieldsInRange(diff: int)
    requires diff >= 0
    ensures var e := Split(diff);
      && 0 <= e.hours < 24 && 0 <= e.minutes < 60 && 0 <= e.seconds < 60
      && e.totalSeconds == 86400 * e.totalDays + 3600 * e.hours + 60 * e.minutes + e.seconds
  {
  }

  /** `months` is the number of whole 30.44-day months in the elapsed days. */
  lemma MonthsBracketDays(diff: int)
    ensures var e := Split(diff);
      761 * e.months <= 25 * e.totalDays < 761 * (e.months + 1)
  {
  }

  /** For a moment in the past the clock string is `HH:MM:SS`: eight
      characters, colons at positions 2 and 5, and two-digit fields that read
      back as the hours, minutes and seconds. */
  lemma ClockShape(diff: int)
    requires diff >= 0
    ensures var e := Split(diff); var t := Clock(e);
      && |t| == 8 && t[2] == ':' && t[5] == ':'
      && AllDigits(t[0..2]) && DecimalValue(t[0..2]) == e.hours
      && AllDigits(t[3..5]) && DecimalValue(t[3..5]) == e.minutes
      && AllDigits(t[6..8]) && DecimalValue(t[6..8]) == e.seconds
  {
    ClockFieldsInRange(diff);
    var e := Split(diff);
    var t := Clock(e);
    assert t[0..2] == FormatTime(e.hours);
    assert t[3..5] == FormatTime(e.minutes);
    assert t[6..8] == FormatTime(e.seconds);
  }

  /** A whole number of days, in the past or the future, shows `00:00:00`. */
  lemma WholeDaysShowMidnight(diff: int)
    requires diff % MsPerDay == 0
    ensures Clock(Split(diff)) == "00:00:00"
  {
    var k := diff / MsPerDay;
    DivUnique(diff, 1000, 86400 * k, 0);
    DivUnique(86400 * k, 60, 1440 * k, 0);
    DivUnique(1440 * k, 60, 24 * k, 0);
    var e := Split(diff);
    assert e.totalHours == 24 * k && e.totalMinutes == 1440 * k && e.totalSeconds == 86400 * k;
    assert Rem(24 * k, 24) == 0 by { DivUnique(if k >= 0 then 24 * k else -24 * k, 24, if k >= 0 then k else -k, 0); }
    assert Rem(1440 * k, 60) == 0 by { DivUnique(if k >= 0 then 1440 * k else -1440 * k, 60, if k >= 0 then 24 * k else -24 * k, 0); }
    assert Rem(86400 * k, 60) == 0 by { DivUnique(if k >= 0 then 86400 * k else -86400 * k, 60, if k >= 0 then 1440 * k else -1440 * k, 0); }
  }

  /** A moment exactly ninety days ago shows 90 days, 2 months and `00:00:00`. */
  lemma NinetyDaysAgo(now: int)
    ensures CalculateTime(now, now - 90 * MsPerDay) == TimeDifference(90, 2, "00:00:00")
  {
    WholeDaysShowMidnight(90 * MsPerDay);
  }

  /** A moment one millisecond in the future shows -1 days and, because
      JavaScript's `%` keeps the sign and `formatTime` pads anything below ten,
      the clock string `0-1:0-1:0-1`. */
  lemma OneMillisecondAhead(now: int)
    ensures CalculateTime(now, now + 1) == TimeDifference(-1, -1, "0-1:0-1:0-1")
  {
    var e := Split(-1);
    assert e.totalSeconds == -1 && e.totalMinutes == -1 && e.totalHours == -1 && e.totalDays == -1;
    assert e.months == -1;
    assert e.hours == -1 && e.minutes == -1 && e.seconds == -1;
    assert Decimal(1) == "1";
    assert FormatTime(-1) == "0-1";
  }

  /** `moment.imageSourceKey ?? null` unless the image is still a string:
      the `momentData` the Edit button hands to the add screen. */
  function EditHandoff(p: DetailsParams): (m: Moment)
    ensures m == p.moment.(image := m.image)
    ensures p.image.Str? ==> m.image == Some(p.image.text)
    ensures !p.image.Str? ==> m.image == p.imageSourceKey
  {
    p.moment.(image := if p.image.Str? then Some(p.image.text) else p.imageSourceKey)
  }

  /** The detail screen's state: the moment it shows and the last computed
      `timeDifference`. */
  class DetailsScreen {
    const params: DetailsParams
    var timeDifference: TimeDifference

    constructor (params: DetailsParams)
      ensures this.params == params && timeDifference == InitialTimeDifference
    {
      this.params := params;
      timeDifference := InitialTimeDifference;
    }

    /** One run of `calculateTime` (on mount and on each one-second tick): the
        state is recomputed from `now` and the moment's date alone, so nothing
        carries over from earlier ticks. */
    method Tick(now: int)
      modifies this
      ensures timeDifference == CalculateTime(now, params.moment.date)
    {
      timeDifference := CalculateTime(now, params.moment.date);
    }

    /** The picture the screen draws: its own `renderImageSource` applied to
        the already resolved `moment.image`. */
    function ShownImage(): (r: ImageValue)
      ensures !params.image.Str? ==> r.Src?
    {
      Resolve(params.image)
    }
  }
}
