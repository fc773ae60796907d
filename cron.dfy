/**
 * Wall-clock instants and the cron evaluator the scheduler consumes.
 *
 * An instant is a whole number of seconds since DateTime.MinValue, so the
 * instant 0 is default(DateTime), the value an unset next occurrence holds.
 * The cron library (parse, then "next occurrence after t") is an external
 * collaborator: it is passed in as an Evaluator value, and Sound states the
 * only things the scheduler relies on.
 */
module Cron {
  type Instant = nat

  /** default(DateTime) == DateTime.MinValue: the "no next occurrence yet" marker. */
  const Unset: Instant := 0
  const SecondsPerMinute: nat := 60
  const SecondsPerDay: nat := 86400

  /** The minute an instant falls in; two instants render equally as "dd/MM/yyyy HH:mm" iff their minutes agree. */
  function Minute(t: Instant): nat { t / SecondsPerMinute }

  /** DateTime.Second. */
  function Second(t: Instant): nat { t % SecondsPerMinute }

  /** Parse succeeds or throws; GetNextOccurrence(t) of a parsed expression. */
  datatype Evaluator = Evaluator(parses: string -> bool, next: (string, Instant) -> Instant)

  /** The assumed contract of the cron library: the next occurrence is strictly later and on a minute boundary. */
  ghost predicate Sound(ev: Evaluator)
  {
    forall cron, t :: ev.next(cron, t) > t && ev.next(cron, t) % SecondsPerMinute == 0
  }

  /** A minute-aligned instant strictly after `t` falls in a later minute than any instant up to `t`. */
  lemma AlignedLaterIsLaterMinute(n: Instant, t: Instant, tick: Instant)
    requires n % SecondsPerMinute == 0 && n > t && t >= tick
    ensures Minute(n) > Minute(tick)
    ensures n != Unset
  {
    var q := n / SecondsPerMinute;
    var m := tick / SecondsPerMinute;
    assert n == 60 * q;
    assert 60 * m <= tick < n;
  }

  /** What the scheduler relies on: an occurrence computed at or after a tick never lies in that tick's minute. */
  lemma NextIsInLaterMinute(ev: Evaluator, cron: string, now: Instant, tick: Instant)
    requires Sound(ev) && now >= tick
    ensures Minute(ev.next(cron, now)) > Minute(tick)
    ensures ev.next(cron, now) != Unset
  {
    AlignedLaterIsLaterMinute(ev.next(cron, now), now, tick);
  }

  // A hand-written evaluator for the expressions that appear in the deployment
  // examples: every minute, every 5 and every 15 minutes, daily at midnight.
  // Each fires on the multiples of its period counted from DateTime.MinValue,
  // which is a midnight, so the boundaries agree with the calendar ones.

  /** Period in minutes of a recognised expression, 0 for one that does not parse. */
  function ExamplePeriodMinutes(cron: string): nat
  {
    if cron == "* * * * *" then 1
    else if cron == "*/5 * * * *" then 5
    else if cron == "*/15 * * * *" then 15
    else if cron == "0 0 * * *" then 1440
    else 0
  }

  /** The first boundary of a `minutes`-minute period strictly after `t`. */
  function NextBoundary(t: Instant, minutes: nat): (r: Instant)
    requires minutes > 0
    ensures r > t && r % SecondsPerMinute == 0
  {
    var period := SecondsPerMinute * minutes;
    var q := t / period;
    assert t == q * period + t % period;
    assert (q + 1) * period == SecondsPerMinute * ((q + 1) * minutes);
    (q + 1) * period
  }

  function ExampleNext(cron: string, t: Instant): Instant
  {
    var minutes := ExamplePeriodMinutes(cron);
    NextBoundary(t, if minutes == 0 then 1 else minutes)
  }

  function Examples(): Evaluator
  {
    Evaluator(cron => ExamplePeriodMinutes(cron) != 0, ExampleNext)
  }

  lemma ExamplesSound()
    ensures Sound(Examples())
  {
  }

  /** "0 0 * * *" evaluated at a midnight yields the next midnight. */
  lemma DailyAtMidnight(day: nat, later: nat)
    requires later < SecondsPerDay
    ensures Examples().parses("0 0 * * *")
    ensures Examples().next("0 0 * * *", day * SecondsPerDay + later) == (day + 1) * SecondsPerDay
  {
    var t := day * SecondsPerDay + later;
    assert t / SecondsPerDay == day;
  }
}
