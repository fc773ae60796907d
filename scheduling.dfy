/**
 * The scheduler's logic on entry values: reconciliation of a loaded load with
 * the working list (SyncAgendamentos), the per-entry due-check
 * (ProcessAgendamentosAsync), the dispatch outcome (ExecuteAgendamentoAsync),
 * and the life of one entry across ticks and reloads.
 */
module Scheduling {
  import opened Wrappers
  import opened Cron
  import opened Schedules

  // ----- Reconciliation -----------------------------------------------------

  /** FirstOrDefault(x => x.Id == id), as a position. */
  function FindById(entries: seq<Entry>, id: int): (r: Option<nat>)
    ensures r.Some? ==> r.value < |entries| && entries[r.value].id == id
    ensures r.Some? ==> forall k :: 0 <= k < r.value ==> entries[k].id != id
    ensures r.None? <==> forall k :: 0 <= k < |entries| ==> entries[k].id != id
  {
    if entries == [] then None
    else if entries[0].id == id then Some(0)
    else match FindById(entries[1..], id)
      case None => None
      case Some(k) => Some(k + 1)
  }

  /** One loaded entry merged into the working list: an existing entry keeps its next occurrence. */
  function Merge(current: seq<Entry>, novo: Entry): Entry
  {
    match FindById(current, novo.id)
    case Some(k) => novo.(next := current[k].next)
    case None => novo
  }

  /**
   * SyncAgendamentos on values: one entry per loaded entry, in loaded order,
   * with the persisted columns of the loaded entry; an Id already in the
   * working list keeps that entry's next occurrence, a new Id keeps the loaded
   * one (Unset for a materialised row). Ids absent from the loaded list are gone.
   */
  function Reconcile(current: seq<Entry>, loaded: seq<Entry>): (r: seq<Entry>)
    ensures |r| == |loaded|
    ensures forall i :: 0 <= i < |r| ==>
      && r[i].id == loaded[i].id && r[i].cron == loaded[i].cron
      && r[i].route == loaded[i].route && r[i].isActive == loaded[i].isActive
    ensures forall i, j ::
      (0 <= i < |r| && 0 <= j < |current| && current[j].id == loaded[i].id
       && (forall k :: 0 <= k < j ==> current[k].id != loaded[i].id))
      ==> r[i].next == current[j].next
    ensures forall i :: 0 <= i < |r| && (forall j :: 0 <= j < |current| ==> current[j].id != loaded[i].id) ==> r[i] == loaded[i]
    ensures forall e :: e in current && (forall x :: x in loaded ==> x.id != e.id) ==> forall x :: x in r ==> x.id != e.id
  {
    seq(|loaded|, i requires 0 <= i < |loaded| => Merge(current, loaded[i]))
  }

  /** Reconciling the same snapshot a second time changes nothing. */
  lemma ReconcileIdempotent(current: seq<Entry>, loaded: seq<Entry>)
    requires DistinctIds(loaded)
    ensures Reconcile(Reconcile(current, loaded), loaded) == Reconcile(current, loaded)
  {
    var r := Reconcile(current, loaded);
    var rr := Reconcile(r, loaded);
    assert DistinctIds(r);
    forall i | 0 <= i < |loaded| ensures rr[i] == r[i] {
      FindByIdOfDistinct(r, i);
      assert rr[i] == Merge(r, loaded[i]) == loaded[i].(next := r[i].next);
    }
  }

  /** In a list of distinct Ids, looking an entry's Id up finds that entry. */
  lemma FindByIdOfDistinct(es: seq<Entry>, i: nat)
    requires DistinctIds(es) && i < |es|
    ensures FindById(es, es[i].id) == Some(i)
  {
  }

  /** Entries that are all active, minute-aligned and of distinct Ids stay so when reconciled with such a load. */
  predicate WellFormed(es: seq<Entry>)
  {
    && DistinctIds(es)
    && (forall i :: 0 <= i < |es| ==> es[i].isActive && es[i].next % SecondsPerMinute == 0)
  }

  lemma ReconcileWellFormed(current: seq<Entry>, loaded: seq<Entry>)
    requires WellFormed(current) && WellFormed(loaded)
    ensures WellFormed(Reconcile(current, loaded))
  {
    var r := Reconcile(current, loaded);
    forall i | 0 <= i < |r| ensures r[i].next % SecondsPerMinute == 0 {
      match FindById(current, loaded[i].id)
      case Some(j) =>
      case None =>
    }
  }

  // ----- Dispatch -------------------------------------------------------------

  /** What the GET to an entry's route ended in. */
  datatype HttpOutcome = Responded(status: int) | HttpRequestFailed | TimedOut | Faulted

  datatype LogLevel = Debug | Warning | Error

  /** One fired entry: the GET issued and how its outcome was logged. */
  datatype Dispatch = Dispatch(id: int, route: Option<string>, level: LogLevel)

  predicate IsSuccessStatusCode(status: int) { 200 <= status <= 299 }

  /**
   * ExecuteAgendamentoAsync: every outcome is absorbed into a log level, so the
   * result is a value and never an exception. A null route cannot be requested
   * and ends in the general handler.
   */
  function ExecuteAgendamento(route: Option<string>, response: HttpOutcome): (level: LogLevel)
    ensures level == Debug <==> route.Some? && response.Responded? && IsSuccessStatusCode(response.status)
    ensures level == Warning <==> route.Some? && response.Responded? && !IsSuccessStatusCode(response.status)
  {
    if route.None? then Error
    else match response
      case Responded(status) => if IsSuccessStatusCode(status) then Debug else Warning
      case HttpRequestFailed => Error
      case TimedOut => Error
      case Faulted => Error
  }

  // ----- Due-check --------------------------------------------------------------

  /** The clock readings taken while one entry is processed, and the answer to its GET. */
  datatype EntryEnv = EntryEnv(seedNow: Instant, fireNow: Instant, response: HttpOutcome)

  datatype StepResult = StepResult(entry: Entry, fired: Option<Dispatch>)

  /** string.IsNullOrEmpty(Cron) is false. */
  predicate HasCron(e: Entry) { e.cron.Some? && e.cron.value != "" }

  /** The entry can be evaluated: it has an expression and the expression parses. */
  predicate Schedulable(e: Entry, ev: Evaluator) { HasCron(e) && ev.parses(e.cron.value) }

  /**
   * One entry in one pass: an inert entry (no expression, or one that does
   * not parse) is left alone; otherwise an unset next occurrence is seeded,
   * and the entry fires iff the tick is in the minute of its next
   * occurrence, which is then recomputed.
   */
  function Step(e: Entry, tick: Instant, env: EntryEnv, ev: Evaluator): (r: StepResult)
    ensures r.entry.(next := e.next) == e
    ensures !Schedulable(e, ev) ==> r == StepResult(e, None)
    ensures Schedulable(e, ev) && e.next != Unset ==> (r.fired.Some? <==> Minute(tick) == Minute(e.next))
    ensures r.fired.Some? ==> r.fired.value == Dispatch(e.id, e.route, ExecuteAgendamento(e.route, env.response))
    ensures r.fired.Some? ==> r.entry.next == ev.next(e.cron.value, env.fireNow)
    ensures Schedulable(e, ev) && e.next != Unset && r.fired.None? ==> r.entry.next == e.next
    ensures Schedulable(e, ev) && e.next == Unset && r.fired.None? ==> r.entry.next == ev.next(e.cron.value, env.seedNow)
  {
    if !Schedulable(e, ev) then StepResult(e, None)
    else
      var cron := e.cron.value;
      var seeded := if e.next == Unset then e.(next := ev.next(cron, env.seedNow)) else e;
      if Minute(tick) == Minute(seeded.next) then
        StepResult(seeded.(next := ev.next(cron, env.fireNow)), Some(Dispatch(e.id, e.route, ExecuteAgendamento(e.route, env.response))))
      else
        StepResult(seeded, None)
  }

  /** The clock readings of a pass are taken at or after the tick instant. */
  predicate ClockFollows(tick: Instant, env: EntryEnv)
  {
    env.seedNow >= tick && env.fireNow >= tick
  }

  /** The tick that seeds an entry never fires it, and leaves it set. */
  lemma NeverFiresOnSeedingTick(e: Entry, tick: Instant, env: EntryEnv, ev: Evaluator)
    requires Sound(ev) && ClockFollows(tick, env)
    ensures e.next == Unset ==> Step(e, tick, env, ev).fired.None?
    ensures e.next == Unset && Schedulable(e, ev) ==>
      Step(e, tick, env, ev).entry.next == ev.next(e.cron.value, env.seedNow) != Unset
  {
    if e.next == Unset && Schedulable(e, ev) {
      NextIsInLaterMinute(ev, e.cron.value, env.seedNow, tick);
    }
  }

  /** After firing, the next occurrence lies in a later minute than the tick: no second firing in that minute. */
  lemma FiringMovesPastTheMinute(e: Entry, tick: Instant, env: EntryEnv, ev: Evaluator)
    requires Sound(ev) && ClockFollows(tick, env)
    requires Step(e, tick, env, ev).fired.Some?
    ensures Minute(Step(e, tick, env, ev).entry.next) > Minute(tick)
    ensures Step(Step(e, tick, env, ev).entry, tick, env, ev).fired.None?
  {
    NextIsInLaterMinute(ev, e.cron.value, env.fireNow, tick);
  }

  /** A pass keeps every next occurrence on a minute boundary. */
  lemma StepKeepsAligned(e: Entry, tick: Instant, env: EntryEnv, ev: Evaluator)
    requires Sound(ev) && e.next % SecondsPerMinute == 0
    ensures Step(e, tick, env, ev).entry.next % SecondsPerMinute == 0
  {
    if Schedulable(e, ev) {
      var cron := e.cron.value;
      assert ev.next(cron, env.seedNow) % SecondsPerMinute == 0;
      assert ev.next(cron, env.fireNow) % SecondsPerMinute == 0;
    }
  }

  /** The pass over the whole working list: each entry is processed on its own. */
  function ProcessAll(entries: seq<Entry>, tick: Instant, env: nat -> EntryEnv, ev: Evaluator): (rs: seq<StepResult>)
    ensures |rs| == |entries|
    ensures forall i :: 0 <= i < |entries| ==> rs[i] == Step(entries[i], tick, env(i), ev)
  {
    seq(|entries|, i requires 0 <= i < |entries| => Step(entries[i], tick, env(i), ev))
  }

  function Processed(rs: seq<StepResult>): (es: seq<Entry>)
    ensures |es| == |rs|
    ensures forall i :: 0 <= i < |rs| ==> es[i] == rs[i].entry
  {
    seq(|rs|, i requires 0 <= i < |rs| => rs[i].entry)
  }

  /** The GETs issued by a pass, in list order. */
  function Dispatches(rs: seq<StepResult>): seq<Dispatch>
  {
    if rs == [] then []
    else
      var last := rs[|rs| - 1];
      Dispatches(rs[..|rs| - 1]) + (if last.fired.Some? then [last.fired.value] else [])
  }

  // ----- One entry across ticks and reloads ---------------------------------------

  /** What happens to one entry of the working list: a pass at a tick, or a reload that still returns its Id. */
  datatype EntryEvent =
    | Ticked(at: Instant, env: EntryEnv)
    | Reloaded(cron: Option<string>, route: Option<string>)

  datatype Trace = Trace(entry: Entry, firedMinutes: seq<nat>)

  function Apply(e: Entry, event: EntryEvent, ev: Evaluator): StepResult
  {
    match event
    case Ticked(at, env) => Step(e, at, env, ev)
    case Reloaded(cron, route) => StepResult(Merge([e], Materialised(Row(e.id, cron, route, true))), None)
  }

  /** The entry after a sequence of events, and the minutes in which it fired. */
  function Replay(e: Entry, events: seq<EntryEvent>, ev: Evaluator): Trace
    decreases |events|
  {
    if events == [] then Trace(e, [])
    else
      var s := Apply(e, events[0], ev);
      var rest := Replay(s.entry, events[1..], ev);
      Trace(rest.entry, (if s.fired.Some? then [Minute(events[0].at)] else []) + rest.firedMinutes)
  }

  /**
   * A reload event is what the worker's reconciliation does to an entry: the
   * entry the list holds for a loaded Id that was already there is Apply of a
   * Reloaded event to the old entry. Replay therefore follows an entry across
   * the worker's ticks and reloads.
   */
  lemma ReconcileIsReloaded(current: seq<Entry>, loaded: seq<Entry>, i: nat, j: nat, ev: Evaluator)
    requires DistinctIds(current) && i < |loaded| && j < |current|
    requires current[j].id == loaded[i].id && loaded[i].isActive
    ensures Reconcile(current, loaded)[i] == Apply(current[j], Reloaded(loaded[i].cron, loaded[i].route), ev).entry
  {
    FindByIdOfDistinct(current, j);
    assert FindById([current[j]], current[j].id) == Some(0);
  }

  predicate ClocksFollowTicks(events: seq<EntryEvent>)
  {
    forall i :: 0 <= i < |events| && events[i].Ticked? ==> ClockFollows(events[i].at, events[i].env)
  }

  predicate StrictlyIncreasing(s: seq<nat>)
  {
    forall i, j :: 0 <= i < j < |s| ==> s[i] < s[j]
  }

  /**
   * An entry fires at most once in any minute, whatever the ticks, reloads and
   * expression changes: the minutes it fires in strictly increase, and none is
   * before the minute of its next occurrence.
   */
  lemma {:induction false} AtMostOncePerMinute(e: Entry, events: seq<EntryEvent>, ev: Evaluator)
    requires Sound(ev) && ClocksFollowTicks(events)
    decreases |events|
    ensures StrictlyIncreasing(Replay(e, events, ev).firedMinutes)
    ensures e.next != Unset ==> forall m :: m in Replay(e, events, ev).firedMinutes ==> m >= Minute(e.next)
  {
    if events != [] {
      var s := Apply(e, events[0], ev);
      var tail := events[1..];
      TailClocksFollow(events);
      AtMostOncePerMinute(s.entry, tail, ev);
      var rest := Replay(s.entry, tail, ev);
      ApplyMovesForward(e, events[0], ev);
      if s.fired.Some? {
        PrependIncreasing(Minute(events[0].at), rest.firedMinutes);
      }
    }
  }

  lemma TailClocksFollow(events: seq<EntryEvent>)
    requires events != [] && ClocksFollowTicks(events)
    ensures ClocksFollowTicks(events[1..])
  {
    var tail := events[1..];
    forall i | 0 <= i < |tail| && tail[i].Ticked? ensures ClockFollows(tail[i].at, tail[i].env) {
      assert tail[i] == events[i + 1];
    }
  }

  /** One event: a firing happens in the minute of a set next occurrence and moves it to a later minute; otherwise a set next occurrence stays. */
  lemma ApplyMovesForward(e: Entry, event: EntryEvent, ev: Evaluator)
    requires Sound(ev) && (event.Ticked? ==> ClockFollows(event.at, event.env))
    ensures var s := Apply(e, event, ev);
      s.fired.Some? ==>
        && event.Ticked? && e.next != Unset && Minute(event.at) == Minute(e.next)
        && s.entry.next != Unset && Minute(s.entry.next) > Minute(event.at)
    ensures var s := Apply(e, event, ev);
      s.fired.None? && e.next != Unset ==> s.entry.next == e.next
  {
    match event
    case Ticked(at, env) =>
      NeverFiresOnSeedingTick(e, at, env, ev);
      if Step(e, at, env, ev).fired.Some? {
        FiringMovesPastTheMinute(e, at, env, ev);
        NextIsInLaterMinute(ev, e.cron.value, env.fireNow, at);
      }
    case Reloaded(cron, route) =>
      assert FindById([e], e.id) == Some(0);
  }

  lemma PrependIncreasing(m: nat, rest: seq<nat>)
    requires StrictlyIncreasing(rest) && forall x :: x in rest ==> x > m
    ensures StrictlyIncreasing([m] + rest)
  {
    var ms := [m] + rest;
    forall i, j | 0 <= i < j < |ms| ensures ms[i] < ms[j] {
      assert ms[j] == rest[j - 1] && ms[j] in rest;
      if i > 0 {
        assert ms[i] == rest[i - 1];
      }
    }
  }

  /**
   * An entry whose next occurrence is set stalls for good when no tick falls
   * in that minute: it never fires again and is never re-seeded, across
   * reloads and changes of its expression alike.
   */
  lemma {:induction false} StallsWhenMinuteMissed(e: Entry, events: seq<EntryEvent>, ev: Evaluator)
    requires e.next != Unset
    requires forall i :: 0 <= i < |events| && events[i].Ticked? ==> Minute(events[i].at) != Minute(e.next)
    decreases |events|
    ensures Replay(e, events, ev).firedMinutes == []
    ensures Replay(e, events, ev).entry.next == e.next
  {
    if events != [] {
      var s := Apply(e, events[0], ev);
      if events[0].Reloaded? {
        assert FindById([e], e.id) == Some(0);
      }
      assert s.fired.None? && s.entry.next == e.next;
      var tail := events[1..];
      forall i | 0 <= i < |tail| && tail[i].Ticked? ensures Minute(tail[i].at) != Minute(s.entry.next) {
        assert tail[i] == events[i + 1];
      }
      StallsWhenMinuteMissed(s.entry, tail, ev);
    }
  }

  // ----- Worked examples with the hand-written evaluator ---------------------------

  /**
   * The every-minute job first seen at 00:00:30 is seeded for 00:01. If the
   * next pass happens only at 00:02 or later (a reload that spent its
   * back-off, say), the job never fires again and keeps 00:01 as its next
   * occurrence.
   */
  lemma EveryMinuteJobStallsAfterMissedMinute(later: seq<EntryEvent>)
    requires forall i :: 0 <= i < |later| && later[i].Ticked? ==> later[i].at >= 2 * SecondsPerMinute
    ensures var e := Entry(1, Some("* * * * *"), Some("http://dados/api/status"), true, Unset);
            var t := Replay(e, [Ticked(30, EntryEnv(30, 30, Responded(200)))] + later, Examples());
            t.firedMinutes == [] && t.entry.next == SecondsPerMinute
  {
    var e := Entry(1, Some("* * * * *"), Some("http://dados/api/status"), true, Unset);
    var first := Ticked(30, EntryEnv(30, 30, Responded(200)));
    var events := [first] + later;
    assert events[0] == first && events[1..] == later;
    assert Examples().next("* * * * *", 30) == SecondsPerMinute;
    var s := Apply(e, first, Examples());
    assert s.entry == e.(next := SecondsPerMinute) && s.fired.None?;
    StallsWhenMinuteMissed(s.entry, later, Examples());
  }

  /**
   * The daily job "0 0 * * *" seen shortly after one midnight is seeded for
   * the next midnight, fires once in that minute, and is then due a day later.
   */
  lemma DailyJobFiresAtNextMidnight(day: nat, a: EntryEnv, b: EntryEnv)
    requires day * SecondsPerDay + 10 <= a.seedNow < (day + 1) * SecondsPerDay
    requires (day + 1) * SecondsPerDay + 5 <= b.fireNow < (day + 2) * SecondsPerDay
    ensures var e := Entry(7, Some("0 0 * * *"), Some("http://dados/api/daily"), true, Unset);
            var events := [Ticked(day * SecondsPerDay + 10, a), Ticked((day + 1) * SecondsPerDay + 5, b)];
            Replay(e, events, Examples())
              == Trace(e.(next := (day + 2) * SecondsPerDay), [Minute((day + 1) * SecondsPerDay)])
  {
    var e := Entry(7, Some("0 0 * * *"), Some("http://dados/api/daily"), true, Unset);
    var t1 := day * SecondsPerDay + 10;
    var t2 := (day + 1) * SecondsPerDay + 5;
    var events := [Ticked(t1, a), Ticked(t2, b)];
    DailyAtMidnight(day, a.seedNow - day * SecondsPerDay);
    DailyAtMidnight(day + 1, b.fireNow - (day + 1) * SecondsPerDay);
    assert Minute(t1) == day * 1440 && Minute((day + 1) * SecondsPerDay) == (day + 1) * 1440 == Minute(t2);
    var s1 := Apply(e, events[0], Examples());
    assert s1 == StepResult(e.(next := (day + 1) * SecondsPerDay), None);
    var s2 := Apply(s1.entry, events[1], Examples());
    assert s2.entry == e.(next := (day + 2) * SecondsPerDay) && s2.fired.Some?;
    assert events[1..][1..] == [];
    assert Replay(s2.entry, [], Examples()) == Trace(s2.entry, []);
    assert Replay(s1.entry, events[1..], Examples()) == Trace(s2.entry, [Minute(t2)]);
  }
}
