/** The countdown of `calculateTimeLeft`: which side of the ten-night window
    the current instant is on, and the remaining milliseconds split into
    days, hours, minutes and seconds by floor division. Instants are integer
    milliseconds since the epoch. */
module Countdown {

  const MsPerSecond: int := 1000
  const MsPerMinute: int := 60000
  const MsPerHour: int := 3600000
  const MsPerDay: int := 86400000

  /** The window literals `2025-03-19T23:59:59` and `2025-03-29T23:59:59`
      are local times; these are their values for a UTC offset of zero. */
  const WindowStartUtc: int := 1742428799000
  const WindowEndUtc: int := 1743292799000

  datatype Phase = BeforeWindow | WithinWindow

  datatype Duration = Duration(days: int, hours: int, minutes: int, seconds: int)

  /** `Ended` is the branch that shows the final report and computes no
      duration. */
  datatype TimeLeft = Ended | Remaining(phase: Phase, duration: Duration)

  /** A duration whose fields are in their clock ranges. */
  predicate Normal(d: Duration) {
    d.days >= 0 && 0 <= d.hours < 24 && 0 <= d.minutes < 60 && 0 <= d.seconds < 60
  }

  /** The whole milliseconds a duration stands for. */
  function ToMs(d: Duration): int {
    d.days * MsPerDay + d.hours * MsPerHour + d.minutes * MsPerMinute + d.seconds * MsPerSecond
  }

  /** The four floor divisions, each on the remainder modulo the next
      larger unit, as the source writes them. */
  function Split(diff: nat): (d: Duration)
    ensures Normal(d)
  {
    Duration(
      diff / MsPerDay,
      (diff % MsPerDay) / MsPerHour,
      (diff % MsPerHour) / MsPerMinute,
      (diff % MsPerMinute) / MsPerSecond)
  }

  /** The split loses only the sub-second part of the difference. */
  lemma SplitBrackets(diff: nat)
    ensures ToMs(Split(diff)) <= diff < ToMs(Split(diff)) + MsPerSecond
    ensures diff - ToMs(Split(diff)) == diff % MsPerSecond
  {
    var d := Split(diff);
    var dayRest := diff % MsPerDay;
    DivModUnique(dayRest, MsPerHour, d.hours, dayRest % MsPerHour);
    DivModUnique(diff, MsPerHour, d.days * 24 + d.hours, dayRest % MsPerHour);
    var hourRest := diff % MsPerHour;
    DivModUnique(hourRest, MsPerMinute, d.minutes, hourRest % MsPerMinute);
    DivModUnique(diff, MsPerMinute, (d.days * 24 + d.hours) * 60 + d.minutes, hourRest % MsPerMinute);
    var minuteRest := diff % MsPerMinute;
    DivModUnique(minuteRest, MsPerSecond, d.seconds, minuteRest % MsPerSecond);
    DivModUnique(diff, MsPerSecond, ((d.days * 24 + d.hours) * 60 + d.minutes) * 60 + d.seconds, minuteRest % MsPerSecond);
  }

  /** Floor division and remainder are determined by any decomposition
      `n == q * b + r` with `0 <= r < b`. */
  lemma DivModUnique(n: int, b: int, q: int, r: int)
    requires b > 0 && 0 <= r < b && n == q * b + r
    ensures n / b == q && n % b == r
  {
    var q', r' := n / b, n % b;
    assert (q - q') * b == r' - r;
    if q > q' {
      MulAtLeast(q - q', b);
    } else if q < q' {
      MulAtLeast(q' - q, b);
    }
  }

  lemma MulAtLeast(k: int, b: int)
    requires k >= 1 && b > 0
    ensures k * b >= b
  {
  }

  /** Splitting is the inverse of `ToMs` on normal durations, whatever the
      sub-second part. */
  lemma SplitToMs(d: Duration, ms: int)
    requires Normal(d)
    requires 0 <= ms < MsPerSecond
    ensures Split(ToMs(d) + ms) == d
  {
    var diff := ToMs(d) + ms;
    var dayRest := d.hours * MsPerHour + d.minutes * MsPerMinute + d.seconds * MsPerSecond + ms;
    DivModUnique(diff, MsPerDay, d.days, dayRest);
    var hourRest := d.minutes * MsPerMinute + d.seconds * MsPerSecond + ms;
    DivModUnique(diff, MsPerHour, d.days * 24 + d.hours, hourRest);
    DivModUnique(hourRest, MsPerMinute, d.minutes, d.seconds * MsPerSecond + ms);
    DivModUnique(diff, MsPerMinute, (d.days * 24 + d.hours) * 60 + d.minutes, d.seconds * MsPerSecond + ms);
    DivModUnique(d.seconds * MsPerSecond + ms, MsPerSecond, d.seconds, ms);
  }

  /** The difference the source measures in each non-final phase. */
  function Diff(now: int, windowStart: int, windowEnd: int): int {
    if now < windowStart then windowStart - now else windowEnd - now
  }

  /** `calculateTimeLeft` on the instant `now` and the two window bounds. */
  function CalculateTimeLeft(now: int, windowStart: int, windowEnd: int): (r: TimeLeft)
    ensures r.Ended? <==> now > windowEnd
    ensures r.Remaining? ==> (r.phase == BeforeWindow <==> now < windowStart)
    ensures r.Remaining? ==> Normal(r.duration)
  {
    if now > windowEnd then Ended
    else if now < windowStart then Remaining(BeforeWindow, Split(windowStart - now))
    else Remaining(WithinWindow, Split(windowEnd - now))
  }

  /** In both non-final phases the difference is non-negative and the
      reported duration is that difference rounded down to the second. */
  lemma TimeLeftMeasuresDiff(now: int, windowStart: int, windowEnd: int)
    requires now <= windowEnd
    ensures Diff(now, windowStart, windowEnd) >= 0
    ensures var d := CalculateTimeLeft(now, windowStart, windowEnd).duration;
            ToMs(d) <= Diff(now, windowStart, windowEnd) < ToMs(d) + MsPerSecond
  {
    SplitBrackets(Diff(now, windowStart, windowEnd));
  }

  /** At the end instant itself the window is still open, with nothing left. */
  lemma EndInstantIsZero(windowStart: int, windowEnd: int)
    requires windowStart <= windowEnd
    ensures CalculateTimeLeft(windowEnd, windowStart, windowEnd) == Remaining(WithinWindow, Duration(0, 0, 0, 0))
  {
  }

  /** One second after the end the countdown reports the window as over. */
  lemma SecondAfterEndIsEnded(windowStart: int, windowEnd: int)
    ensures CalculateTimeLeft(windowEnd + MsPerSecond, windowStart, windowEnd) == Ended
  {
  }

  /** At a fixed UTC offset the two literals are ten days apart. */
  lemma WindowIsTenDays()
    ensures WindowEndUtc - WindowStartUtc == 10 * MsPerDay
    ensures Split(WindowEndUtc - WindowStartUtc) == Duration(10, 0, 0, 0)
  {
  }
}
