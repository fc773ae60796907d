/**
 * The scheduler's background loop (Worker): the refresh rule, the reload and
 * reconciliation of the working list, and the pass that fires due entries.
 *
 * Every reading of DateTime.Now, every answer of the store and of the HTTP
 * endpoints is a field of the tick's environment; the waits are not performed.
 */
module Workers {
  import opened Wrappers
  import opened Cron
  import opened Schedules
  import opened Loader
  import opened Scheduling

  /** _dbCheckInterval, one minute, in seconds. */
  const DbCheckIntervalSeconds: int := 60

  /**
   * What one iteration of the loop observes: the tick instant
   * (dataHoraAtual), the clock read by the refresh check, what each load
   * attempt gets from the store, the clock read after a successful load, and
   * the readings and responses while the i-th entry is processed.
   */
  datatype TickEnv = TickEnv(
    tick: Instant,
    checkNow: Instant,
    store: nat -> StoreRead,
    loadedNow: Instant,
    entryEnv: nat -> EntryEnv)

  /** Id is the table's primary key: a table the store returns never repeats one. */
  ghost predicate StoreKeyed(store: nat -> StoreRead)
  {
    forall a :: store(a).Loaded? ==> DistinctRowIds(store(a).table)
  }

  /** The condition under which an iteration reloads the schedules. */
  predicate ShouldRefresh(firstRun: bool, lastDbCheck: Instant, now: Instant, tick: Instant)
  {
    firstRun || now - lastDbCheck > DbCheckIntervalSeconds || Second(tick) == 0
  }

  /** The loop's reload bookkeeping: _firstRun and _lastDbCheck. */
  datatype ReloadState = ReloadState(firstRun: bool, lastDbCheck: Instant)

  /** An iteration reloads when the condition holds and the load returns a list. */
  predicate Reloads(s: ReloadState, env: TickEnv)
  {
    ShouldRefresh(s.firstRun, s.lastDbCheck, env.checkNow, env.tick) && LoadResult(env.store).Some?
  }

  /**
   * The bookkeeping after a run of iterations: each reload clears the
   * first-run flag and stamps the clock read after the load; an iteration that
   * does not reload leaves both as they were.
   */
  function AfterRun(s: ReloadState, envs: seq<TickEnv>): (r: ReloadState)
    decreases |envs|
    ensures r.firstRun ==> s.firstRun
  {
    if envs == [] then s
    else
      var before := AfterRun(s, envs[..|envs| - 1]);
      if Reloads(before, envs[|envs| - 1]) then ReloadState(false, envs[|envs| - 1].loadedNow) else before
  }

  /** The bookkeeping after the first i iterations, from that after i - 1. */
  lemma AfterRunStep(s: ReloadState, envs: seq<TickEnv>, i: nat)
    requires 0 < i <= |envs|
    ensures AfterRun(s, envs[..i]) ==
      if Reloads(AfterRun(s, envs[..i - 1]), envs[i - 1]) then ReloadState(false, envs[i - 1].loadedNow)
      else AfterRun(s, envs[..i - 1])
  {
    assert envs[..i][..i - 1] == envs[..i - 1];
  }

  /** From a reload at iteration k until the next reload, the bookkeeping holds iteration k's stamp. */
  lemma {:induction false} StampKept(s: ReloadState, envs: seq<TickEnv>, k: nat, i: nat)
    requires k < i <= |envs|
    requires Reloads(AfterRun(s, envs[..k]), envs[k])
    requires forall j :: k < j < i ==> !Reloads(AfterRun(s, envs[..j]), envs[j])
    decreases i
    ensures AfterRun(s, envs[..i]) == ReloadState(false, envs[k].loadedNow)
  {
    AfterRunStep(s, envs, i);
    if i > k + 1 {
      StampKept(s, envs, k, i - 1);
      assert !Reloads(AfterRun(s, envs[..i - 1]), envs[i - 1]);
    }
  }

  /**
   * The reload throttle: after a successful reload at iteration k, and none
   * since, iteration i attempts a reload iff its tick is at second 0 or its
   * clock reading is more than a minute after iteration k's stamp.
   */
  lemma ReloadCadence(s: ReloadState, envs: seq<TickEnv>, k: nat, i: nat)
    requires k < i < |envs|
    requires Reloads(AfterRun(s, envs[..k]), envs[k])
    requires forall j :: k < j < i ==> !Reloads(AfterRun(s, envs[..j]), envs[j])
    ensures var r := AfterRun(s, envs[..i]);
      ShouldRefresh(r.firstRun, r.lastDbCheck, envs[i].checkNow, envs[i].tick)
      <==> Second(envs[i].tick) == 0 || envs[i].checkNow - envs[k].loadedNow > DbCheckIntervalSeconds
  {
    StampKept(s, envs, k, i);
  }

  /** Until a load returns a list, the first-run flag stays set, so every iteration attempts a reload. */
  lemma {:induction false} RetriesUntilLoaded(s: ReloadState, envs: seq<TickEnv>, i: nat)
    requires s.firstRun && i <= |envs|
    requires forall j :: 0 <= j < i ==> LoadResult(envs[j].store).None?
    decreases i
    ensures AfterRun(s, envs[..i]) == s
    ensures i < |envs| ==> ShouldRefresh(s.firstRun, s.lastDbCheck, envs[i].checkNow, envs[i].tick)
  {
    if i > 0 {
      AfterRunStep(s, envs, i);
      RetriesUntilLoaded(s, envs, i - 1);
    }
  }

  /** What a successful reload hands to the reconciliation. */
  function LoadedEntries(store: nat -> StoreRead): (es: seq<Entry>)
    requires LoadResult(store).Some?
    ensures StoreKeyed(store) ==> WellFormed(es)
  {
    var k := StopAttempt(store, 1);
    assert store(k).Loaded?;
    MaterialisedAll(LoadResult(store).value)
  }

  class Worker {
    /** _firstRun */
    var firstRun: bool
    /** _lastDbCheck */
    var lastDbCheck: Instant
    /** The working list held across iterations. */
    var agendamentos: seq<Agendamento>
    /** The cron library. */
    const evaluator: Evaluator

    /**
     * The working list has entries of distinct Ids (hence distinct objects),
     * all active, each with a next occurrence that is Unset or on a minute
     * boundary.
     */
    ghost predicate Valid()
      reads this, agendamentos
    {
      Sound(evaluator) && WellFormed(Views(agendamentos))
    }

    constructor(ev: Evaluator)
      requires Sound(ev)
      ensures Valid()
      ensures firstRun && lastDbCheck == Unset && agendamentos == [] && evaluator == ev
    {
      firstRun := true;
      lastDbCheck := Unset;
      agendamentos := [];
      evaluator := ev;
    }

    /** FirstOrDefault(x => x.Id == id), as the position of the object found. */
    static method FindExisting(current: seq<Agendamento>, id: int) returns (k: Option<nat>)
      ensures k == FindById(Views(current), id)
    {
      var i := 0;
      while i < |current|
        invariant 0 <= i <= |current|
        invariant forall j :: 0 <= j < i ==> current[j].Id != id
      {
        if current[i].Id == id {
          FirstMatchFound(Views(current), i, id);
          return Some(i);
        }
        i := i + 1;
      }
      return None;
    }

    /** The objects materialised for the loaded rows: new objects, ProximaOcorrencia unset. */
    static method Materialize(rows: seq<Row>) returns (objs: seq<Agendamento>)
      ensures Views(objs) == MaterialisedAll(rows)
      ensures forall a :: a in objs ==> fresh(a)
    {
      objs := [];
      var i := 0;
      while i < |rows|
        invariant 0 <= i <= |rows|
        invariant Views(objs) == MaterialisedAll(rows[..i])
        invariant forall a :: a in objs ==> fresh(a)
      {
        var a := new Agendamento.FromRow(rows[i]);
        objs := objs + [a];
        i := i + 1;
      }
      assert rows[..i] == rows;
    }

    /** The persisted columns of a reused object take the loaded values; Id and next occurrence stay. */
    static method Overwrite(existente: Agendamento, novo: Agendamento)
      requires existente != novo
      modifies existente
      ensures existente.View() == old(existente.View()).(cron := novo.Cron, route := novo.Route, isActive := novo.IsActive)
    {
      existente.Cron := novo.Cron;
      existente.Route := novo.Route;
      existente.IsActive := novo.IsActive;
    }

    /**
     * SyncAgendamentos: the new list has one object per loaded object, in
     * load order; an existing object with the same Id is reused with its
     * persisted columns overwritten (and so keeps its next occurrence),
     * otherwise the loaded object itself is taken. Objects of the old list
     * whose Id was not loaded are dropped.
     */
    static method SyncAgendamentos(current: seq<Agendamento>, novos: seq<Agendamento>) returns (sync: seq<Agendamento>)
      requires forall j, i :: 0 <= j < |current| && 0 <= i < |novos| ==> current[j] != novos[i]
      requires DistinctIds(Views(novos))
      modifies set a | a in current
      ensures Views(sync) == Reconcile(old(Views(current)), Views(novos))
      ensures forall i :: 0 <= i < |sync| ==> sync[i] == ObjectFor(current, old(Views(current)), novos, Views(novos), i)
    {
      ghost var before := Views(current);
      ghost var loaded := Views(novos);
      sync := [];
      var i := 0;
      while i < |novos|
        invariant 0 <= i <= |novos|
        invariant SyncedPrefix(current, novos, sync, i, before, loaded)
      {
        sync := SyncOne(current, novos, sync, i, before, loaded);
        i := i + 1;
      }
      assert Views(sync) == Reconcile(before, loaded);
    }

    /** The state of SyncAgendamentos after the first i loaded objects. */
    static ghost predicate SyncedPrefix(current: seq<Agendamento>, novos: seq<Agendamento>, sync: seq<Agendamento>, i: nat, before: seq<Entry>, loaded: seq<Entry>)
      reads current, sync
    {
      && |sync| == i <= |novos| == |loaded|
      && |before| == |current|
      && (forall j :: 0 <= j < |current| ==> current[j].Id == before[j].id && current[j].ProximaOcorrencia == before[j].next)
      && (forall j :: 0 <= j < i ==> sync[j] == ObjectFor(current, before, novos, loaded, j))
      && (forall j :: 0 <= j < i ==> sync[j].View() == Merge(before, loaded[j]))
    }

    /** One iteration of SyncAgendamentos: the i-th loaded object is placed. */
    static method SyncOne(current: seq<Agendamento>, novos: seq<Agendamento>, sync: seq<Agendamento>, i: nat, ghost before: seq<Entry>, ghost loaded: seq<Entry>)
      returns (sync': seq<Agendamento>)
      requires forall j, k :: 0 <= j < |current| && 0 <= k < |novos| ==> current[j] != novos[k]
      requires i < |novos| && loaded == Views(novos) && DistinctIds(loaded)
      requires SyncedPrefix(current, novos, sync, i, before, loaded)
      modifies set a | a in current
      ensures SyncedPrefix(current, novos, sync', i + 1, before, loaded)
    {
      var k := FindExisting(current, novos[i].Id);
      if k.Some? {
        sync' := Reuse(current, novos, sync, i, k.value, before, loaded);
      } else {
        sync' := Append(current, novos, sync, i, before, loaded);
      }
    }

    /** The i-th loaded Id is not in the old list: the loaded object itself is placed. */
    static method Append(current: seq<Agendamento>, novos: seq<Agendamento>, sync: seq<Agendamento>, i: nat, ghost before: seq<Entry>, ghost loaded: seq<Entry>)
      returns (sync': seq<Agendamento>)
      requires i < |novos| && loaded == Views(novos)
      requires SyncedPrefix(current, novos, sync, i, before, loaded)
      requires FindById(before, loaded[i].id) == None
      ensures SyncedPrefix(current, novos, sync', i + 1, before, loaded)
    {
      sync' := sync + [novos[i]];
    }

    /** The i-th loaded Id is found at position k of the old list: that object is updated and placed. */
    static method Reuse(current: seq<Agendamento>, novos: seq<Agendamento>, sync: seq<Agendamento>, i: nat, k: nat, ghost before: seq<Entry>, ghost loaded: seq<Entry>)
      returns (sync': seq<Agendamento>)
      requires forall j, k :: 0 <= j < |current| && 0 <= k < |novos| ==> current[j] != novos[k]
      requires i < |novos| && loaded == Views(novos) && DistinctIds(loaded)
      requires SyncedPrefix(current, novos, sync, i, before, loaded)
      requires FindById(before, loaded[i].id) == Some(k)
      modifies set a | a in current
      ensures SyncedPrefix(current, novos, sync', i + 1, before, loaded)
    {
      var existente := current[k];
      NotYetTaken(sync, existente, loaded, i);
      Overwrite(existente, novos[i]);
      sync' := sync + [existente];
    }

    /**
     * The body of the pass for one entry: an entry whose expression is null,
     * empty or does not parse is left alone (the parse failure is caught and
     * logged); otherwise an unset next occurrence is seeded, and the entry is
     * fired and its next occurrence recomputed when the tick is in its minute.
     */
    method ProcessAgendamento(agendamento: Agendamento, tick: Instant, env: EntryEnv) returns (fired: Option<Dispatch>)
      modifies agendamento
      ensures StepResult(agendamento.View(), fired) == Step(old(agendamento.View()), tick, env, evaluator)
    {
      fired := None;
      if agendamento.Cron.None? || agendamento.Cron.value == "" || !evaluator.parses(agendamento.Cron.value) {
        return;
      }
      var cron := agendamento.Cron.value;
      if agendamento.ProximaOcorrencia == Unset {
        agendamento.AdicionarProximaOcorrencia(evaluator.next(cron, env.seedNow));
      }
      if Minute(tick) == Minute(agendamento.ProximaOcorrencia) {
        var level := ExecuteAgendamento(agendamento.Route, env.response);
        fired := Some(Dispatch(agendamento.Id, agendamento.Route, level));
        agendamento.AdicionarProximaOcorrencia(evaluator.next(cron, env.fireNow));
      }
    }

    /**
     * ProcessAgendamentosAsync: every entry of the list is processed in
     * turn, a failure of one is logged and the pass goes on with the next.
     */
    method ProcessAgendamentosAsync(entries: seq<Agendamento>, tick: Instant, env: nat -> EntryEnv) returns (dispatched: seq<Dispatch>)
      requires forall i, j :: 0 <= i < j < |entries| ==> entries[i] != entries[j]
      modifies set a | a in entries
      ensures Views(entries) == Processed(ProcessAll(old(Views(entries)), tick, env, evaluator))
      ensures dispatched == Dispatches(ProcessAll(old(Views(entries)), tick, env, evaluator))
    {
      ghost var before := Views(entries);
      ghost var results := ProcessAll(before, tick, env, evaluator);
      dispatched := [];
      var i := 0;
      while i < |entries|
        invariant 0 <= i <= |entries|
        invariant PassedPrefix(entries, i, before, results)
        invariant dispatched == Dispatches(results[..i])
      {
        var fired := ProcessNext(entries, i, tick, env, before, results);
        if fired.Some? {
          dispatched := dispatched + [fired.value];
        }
        assert results[..i + 1] == results[..i] + [results[i]];
        i := i + 1;
      }
      assert results[..i] == results;
      assert Views(entries) == Processed(results);
    }

    /** The pass after its first i entries: those hold their processed values, the others their old ones. */
    static ghost predicate PassedPrefix(entries: seq<Agendamento>, i: nat, before: seq<Entry>, results: seq<StepResult>)
      reads set a | a in entries
    {
      && i <= |entries| == |before| == |results|
      && (forall j :: 0 <= j < i ==> entries[j].View() == results[j].entry)
      && (forall j :: i <= j < |entries| ==> entries[j].View() == before[j])
    }

    /** One iteration of the pass: the i-th entry is processed and nothing else changes. */
    method ProcessNext(entries: seq<Agendamento>, i: nat, tick: Instant, env: nat -> EntryEnv, ghost before: seq<Entry>, ghost results: seq<StepResult>)
      returns (fired: Option<Dispatch>)
      requires forall i, j :: 0 <= i < j < |entries| ==> entries[i] != entries[j]
      requires i < |entries| && PassedPrefix(entries, i, before, results)
      requires results == ProcessAll(before, tick, env, evaluator)
      modifies entries[i]
      ensures PassedPrefix(entries, i + 1, before, results)
      ensures fired == results[i].fired
    {
      assert results[i] == Step(before[i], tick, env(i), evaluator);
      fired := ProcessAgendamento(entries[i], tick, env(i));
    }

    /**
     * The reload step of an iteration: when the refresh rule says so the
     * schedules are loaded with retry; a successful load is reconciled into
     * the working list and stamps the check time, a failed one leaves list
     * and flags as they were.
     */
    method Refresh(env: TickEnv) returns (attempted: bool, reloaded: bool)
      requires Valid() && StoreKeyed(env.store)
      modifies this, set a | a in agendamentos
      ensures Valid()
      ensures attempted == ShouldRefresh(old(firstRun), old(lastDbCheck), env.checkNow, env.tick)
      ensures reloaded <==> attempted && LoadResult(env.store).Some?
      ensures reloaded ==> !firstRun && lastDbCheck == env.loadedNow
      ensures !reloaded ==> firstRun == old(firstRun) && lastDbCheck == old(lastDbCheck)
      ensures Views(agendamentos) ==
        if reloaded then Reconcile(old(Views(agendamentos)), LoadedEntries(env.store)) else old(Views(agendamentos))
      ensures forall a :: a in agendamentos ==> a in old(agendamentos) || fresh(a)
    {
      reloaded := false;
      attempted := ShouldRefresh(firstRun, lastDbCheck, env.checkNow, env.tick);
      if attempted {
        var rows, _, _ := LoadAgendamentosWithRetry(env.store);
        if rows.Some? {
          assert MaterialisedAll(rows.value) == LoadedEntries(env.store);
          Reload(rows.value, env.loadedNow);
          reloaded := true;
        }
      }
    }

    /** A successful load: the rows are reconciled into the working list and the check time is stamped. */
    method Reload(rows: seq<Row>, now: Instant)
      requires Valid() && WellFormed(MaterialisedAll(rows))
      modifies this, set a | a in agendamentos
      ensures Valid()
      ensures !firstRun && lastDbCheck == now
      ensures Views(agendamentos) == Reconcile(old(Views(agendamentos)), MaterialisedAll(rows))
      ensures forall a :: a in agendamentos ==> a in old(agendamentos) || fresh(a)
    {
      ReconcileWellFormed(Views(agendamentos), MaterialisedAll(rows));
      agendamentos := SyncLoaded(agendamentos, rows);
      lastDbCheck := now;
      firstRun := false;
    }

    /** Materialisation of the loaded rows followed by SyncAgendamentos. */
    static method SyncLoaded(current: seq<Agendamento>, rows: seq<Row>) returns (sync: seq<Agendamento>)
      requires DistinctIds(MaterialisedAll(rows))
      modifies set a | a in current
      ensures Views(sync) == Reconcile(old(Views(current)), MaterialisedAll(rows))
      ensures forall a :: a in sync ==> a in current || fresh(a)
    {
      var novos := Materialize(rows);
      forall j, i | 0 <= j < |current| && 0 <= i < |novos| ensures current[j] != novos[i] {
        assert novos[i] in novos;
      }
      sync := SyncAgendamentos(current, novos);
      forall a | a in sync ensures a in current || fresh(a) {
        var i :| 0 <= i < |sync| && sync[i] == a;
        assert a in current || a == novos[i];
        assert novos[i] in novos;
      }
    }

    /**
     * One iteration of ExecuteAsync: the reload step, then the pass over the
     * working list at the tick instant.
     */
    method Tick(env: TickEnv) returns (attempted: bool, reloaded: bool, dispatched: seq<Dispatch>)
      requires Valid() && StoreKeyed(env.store)
      modifies this, set a | a in agendamentos
      ensures Valid()
      ensures attempted == ShouldRefresh(old(firstRun), old(lastDbCheck), env.checkNow, env.tick)
      ensures reloaded <==> attempted && LoadResult(env.store).Some?
      ensures reloaded ==> !firstRun && lastDbCheck == env.loadedNow
      ensures !reloaded ==> firstRun == old(firstRun) && lastDbCheck == old(lastDbCheck)
      ensures var working := if reloaded then Reconcile(old(Views(agendamentos)), LoadedEntries(env.store)) else old(Views(agendamentos));
        && Views(agendamentos) == Processed(ProcessAll(working, env.tick, env.entryEnv, evaluator))
        && dispatched == Dispatches(ProcessAll(working, env.tick, env.entryEnv, evaluator))
      ensures forall a :: a in agendamentos ==> a in old(agendamentos) || fresh(a)
    {
      attempted, reloaded := Refresh(env);
      ghost var working := Views(agendamentos);
      DistinctIdsDistinctObjects(agendamentos);
      dispatched := ProcessAgendamentosAsync(agendamentos, env.tick, env.entryEnv);
      ProcessAllKeepsWellFormed(working, env.tick, env.entryEnv, evaluator);
    }

    /**
     * ExecuteAsync, for a finite run of iterations: the working list stays
     * well formed throughout, each iteration reports what it dispatched, and
     * the reload bookkeeping ends as AfterRun gives it.
     */
    method ExecuteAsync(ticks: seq<TickEnv>) returns (log: seq<seq<Dispatch>>)
      requires Valid()
      requires forall t :: t in ticks ==> StoreKeyed(t.store)
      modifies this, set a | a in agendamentos
      ensures Valid() && |log| == |ticks|
      ensures ReloadState(firstRun, lastDbCheck) == AfterRun(ReloadState(old(firstRun), old(lastDbCheck)), ticks)
    {
      log := [];
      var i := 0;
      while i < |ticks|
        invariant 0 <= i <= |ticks| && |log| == i
        invariant Valid()
        invariant forall a :: a in agendamentos ==> a in old(agendamentos) || fresh(a)
        invariant ReloadState(firstRun, lastDbCheck) == AfterRun(ReloadState(old(firstRun), old(lastDbCheck)), ticks[..i])
      {
        assert ticks[i] in ticks;
        assert ticks[..i + 1][..i] == ticks[..i];
        var _, _, dispatched := Tick(ticks[i]);
        log := log + [dispatched];
        i := i + 1;
      }
      assert ticks[..i] == ticks;
    }
  }

  /** The position FindExisting returns is the one FindById specifies. */
  lemma {:induction false} FirstMatchFound(es: seq<Entry>, i: nat, id: int)
    requires i < |es| && es[i].id == id
    requires forall j :: 0 <= j < i ==> es[j].id != id
    ensures FindById(es, id) == Some(i)
  {
    if i > 0 {
      FirstMatchFound(es[1..], i - 1, id);
    }
  }

  /** The object SyncAgendamentos places at position i: the first old object with the loaded Id, else the loaded object. */
  function ObjectFor(current: seq<Agendamento>, before: seq<Entry>, novos: seq<Agendamento>, loaded: seq<Entry>, i: nat): (a: Agendamento)
    requires |before| == |current| && i < |novos| == |loaded|
    ensures a in current || a == novos[i]
  {
    match FindById(before, loaded[i].id)
    case Some(k) => current[k]
    case None => novos[i]
  }

  /** An object already placed in the new list has the Id of an earlier loaded entry, so the i-th loaded Id finds a different one. */
  lemma NotYetTaken(sync: seq<Agendamento>, existente: Agendamento, loaded: seq<Entry>, i: nat)
    requires i < |loaded| && |sync| == i && DistinctIds(loaded)
    requires forall j :: 0 <= j < i ==> sync[j].Id == loaded[j].id
    requires existente.Id == loaded[i].id
    ensures existente !in sync
  {
  }

  /** A pass keeps the working list well formed. */
  lemma ProcessAllKeepsWellFormed(es: seq<Entry>, tick: Instant, env: nat -> EntryEnv, ev: Evaluator)
    requires Sound(ev) && WellFormed(es)
    ensures WellFormed(Processed(ProcessAll(es, tick, env, ev)))
  {
    var r := Processed(ProcessAll(es, tick, env, ev));
    forall i | 0 <= i < |es| ensures r[i].next % SecondsPerMinute == 0 {
      StepKeepsAligned(es[i], tick, env(i), ev);
    }
  }
}
