/**
 * Keyed tables as finite maps, and the three collection steps the ingestion
 * service repeats for every table: prune the rows whose symbol is outside the
 * target list, gather one outcome per target symbol, and upsert a batch of
 * rows through the change tracker.
 */
module Tables {
  import opened Wrappers

  /** Every row sits under its own key. */
  ghost predicate Keyed<K, V>(table: map<K, V>, keyOf: V -> K)
  {
    forall k :: k in table ==> keyOf(table[k]) == k
  }

  // ----- Prune -------------------------------------------------------------------

  /** RemoveRange of the rows whose symbol is not in the target list. */
  function Prune<K(!new), V>(table: map<K, V>, symbolOf: V -> string, targets: seq<string>): (r: map<K, V>)
    ensures forall k :: k in r <==> k in table && symbolOf(table[k]) in targets
    ensures forall k :: k in r ==> r[k] == table[k]
  {
    map k | k in table && symbolOf(table[k]) in targets :: table[k]
  }

  /** The rows a prune removes are exactly those outside the targets; a second prune removes nothing. */
  lemma PruneRemovesExactlyOutside<K(!new), V>(table: map<K, V>, symbolOf: V -> string, targets: seq<string>)
    ensures table.Keys - Prune(table, symbolOf, targets).Keys == set k | k in table && symbolOf(table[k]) !in targets
    ensures Prune(Prune(table, symbolOf, targets), symbolOf, targets) == Prune(table, symbolOf, targets)
  {
  }

  // ----- Upsert ------------------------------------------------------------------

  /** The keys a batch of rows carries. */
  function KeysOf<K, V>(batch: seq<V>, keyOf: V -> K): set<K>
  {
    set i | 0 <= i < |batch| :: keyOf(batch[i])
  }

  lemma KeysOfSnoc<K, V>(batch: seq<V>, keyOf: V -> K)
    requires batch != []
    ensures KeysOf(batch, keyOf) == KeysOf(batch[..|batch| - 1], keyOf) + {keyOf(batch[|batch| - 1])}
  {
    var init := batch[..|batch| - 1];
    forall k | k in KeysOf(batch, keyOf) ensures k in KeysOf(init, keyOf) + {keyOf(batch[|batch| - 1])} {
      var i :| 0 <= i < |batch| && keyOf(batch[i]) == k;
      if i < |init| {
        assert init[i] == batch[i];
      }
    }
    forall k | k in KeysOf(init, keyOf) ensures k in KeysOf(batch, keyOf) {
      var i :| 0 <= i < |init| && keyOf(init[i]) == k;
      assert batch[i] == init[i];
    }
  }

  /**
   * One iteration of the upsert loop. The row's key is looked up in the stored
   * table `db`: a stored key has its tracked row updated by
   * `update(existing, row)`; an unstored key is added, and adding a key the
   * tracker already holds makes it throw (None).
   */
  function UpsertRow<K, V>(db: map<K, V>, tracked: map<K, V>, row: V, keyOf: V -> K, update: (V, V) -> V): (r: Option<map<K, V>>)
    requires db.Keys <= tracked.Keys
    ensures r.Some? ==> r.value.Keys == tracked.Keys + {keyOf(row)}
    ensures r.Some? ==> r.value[keyOf(row)] == if keyOf(row) in db then update(tracked[keyOf(row)], row) else row
    ensures r.Some? ==> forall k :: k in tracked && k != keyOf(row) ==> r.value[k] == tracked[k]
    ensures r.None? <==> keyOf(row) !in db && keyOf(row) in tracked
  {
    var k := keyOf(row);
    if k in db then Some(tracked[k := update(tracked[k], row)])
    else if k in tracked then None
    else Some(tracked[k := row])
  }

  /**
   * The upsert loop followed by SaveChanges: the rows are applied in batch
   * order to a tracked copy of the stored table, and a key conflict anywhere
   * means nothing of the batch is saved (None).
   */
  function Upsert<K, V>(db: map<K, V>, batch: seq<V>, keyOf: V -> K, update: (V, V) -> V): (r: Option<map<K, V>>)
    decreases |batch|
    ensures r.Some? ==> db.Keys <= r.value.Keys
    ensures r.Some? ==> forall i :: 0 <= i < |batch| ==> keyOf(batch[i]) in r.value
  {
    if batch == [] then Some(db)
    else
      var init := batch[..|batch| - 1];
      match Upsert(db, init, keyOf, update)
      case None => None
      case Some(tracked) =>
        assert forall i :: 0 <= i < |init| ==> batch[i] == init[i];
        UpsertRow(db, tracked, batch[|batch| - 1], keyOf, update)
  }

  /** A saved upsert holds the stored keys and the batch's keys, and leaves every other stored row as it was. */
  lemma {:induction false} UpsertKeys<K, V>(db: map<K, V>, batch: seq<V>, keyOf: V -> K, update: (V, V) -> V)
    requires Upsert(db, batch, keyOf, update).Some?
    decreases |batch|
    ensures Upsert(db, batch, keyOf, update).value.Keys == db.Keys + KeysOf(batch, keyOf)
    ensures forall k :: k in db && k !in KeysOf(batch, keyOf) ==> Upsert(db, batch, keyOf, update).value[k] == db[k]
  {
    if batch != [] {
      KeysOfSnoc(batch, keyOf);
      UpsertKeys(db, batch[..|batch| - 1], keyOf, update);
    }
  }

  /** Two rows of the batch add the same key, which the stored table does not hold. */
  predicate Conflict<K, V>(db: map<K, V>, batch: seq<V>, keyOf: V -> K)
  {
    exists i, j :: 0 <= i < j < |batch| && keyOf(batch[i]) == keyOf(batch[j]) && keyOf(batch[j]) !in db
  }

  lemma ConflictSnoc<K, V>(db: map<K, V>, batch: seq<V>, keyOf: V -> K)
    requires batch != []
    ensures var init, k := batch[..|batch| - 1], keyOf(batch[|batch| - 1]);
      Conflict(db, batch, keyOf) <==> Conflict(db, init, keyOf) || (k !in db && k in KeysOf(init, keyOf))
  {
    var init, n := batch[..|batch| - 1], |batch| - 1;
    var k := keyOf(batch[n]);
    if Conflict(db, batch, keyOf) {
      var i, j :| 0 <= i < j < |batch| && keyOf(batch[i]) == keyOf(batch[j]) && keyOf(batch[j]) !in db;
      if j < n {
        assert init[i] == batch[i] && init[j] == batch[j];
      } else {
        assert init[i] == batch[i];
      }
    }
    if Conflict(db, init, keyOf) {
      var i, j :| 0 <= i < j < |init| && keyOf(init[i]) == keyOf(init[j]) && keyOf(init[j]) !in db;
      assert batch[i] == init[i] && batch[j] == init[j];
    }
    if k !in db && k in KeysOf(init, keyOf) {
      var i :| 0 <= i < |init| && keyOf(init[i]) == k;
      assert batch[i] == init[i];
    }
  }

  /** The upsert fails exactly when the batch adds one new key twice. */
  lemma {:induction false} UpsertFailsIffConflict<K, V>(db: map<K, V>, batch: seq<V>, keyOf: V -> K, update: (V, V) -> V)
    decreases |batch|
    ensures Upsert(db, batch, keyOf, update).None? <==> Conflict(db, batch, keyOf)
  {
    if batch != [] {
      var init := batch[..|batch| - 1];
      UpsertFailsIffConflict(db, init, keyOf, update);
      if Upsert(db, init, keyOf, update).Some? {
        UpsertKeys(db, init, keyOf, update);
      }
      ConflictSnoc(db, batch, keyOf);
    }
  }

  /** No two rows of the batch share a key. */
  predicate DistinctKeys<K(==), V>(batch: seq<V>, keyOf: V -> K)
  {
    forall i, j :: 0 <= i < j < |batch| ==> keyOf(batch[i]) != keyOf(batch[j])
  }

  lemma DistinctKeysSnoc<K, V>(batch: seq<V>, keyOf: V -> K)
    requires batch != [] && DistinctKeys(batch, keyOf)
    ensures DistinctKeys(batch[..|batch| - 1], keyOf)
    ensures keyOf(batch[|batch| - 1]) !in KeysOf(batch[..|batch| - 1], keyOf)
  {
    var init := batch[..|batch| - 1];
    forall i, j | 0 <= i < j < |init| ensures keyOf(init[i]) != keyOf(init[j]) {
      assert init[i] == batch[i] && init[j] == batch[j];
    }
    forall i | 0 <= i < |init| ensures keyOf(init[i]) != keyOf(batch[|batch| - 1]) {
      assert init[i] == batch[i];
    }
  }

  /** A batch with distinct keys always saves: each stored key gets its update, each new key its row. */
  lemma {:induction false} UpsertDistinct<K, V>(db: map<K, V>, batch: seq<V>, keyOf: V -> K, update: (V, V) -> V)
    requires DistinctKeys(batch, keyOf)
    decreases |batch|
    ensures Upsert(db, batch, keyOf, update).Some?
    ensures forall i :: 0 <= i < |batch| ==>
      Upsert(db, batch, keyOf, update).value[keyOf(batch[i])]
        == if keyOf(batch[i]) in db then update(db[keyOf(batch[i])], batch[i]) else batch[i]
  {
    UpsertFailsIffConflict(db, batch, keyOf, update);
    if batch != [] {
      var n := |batch| - 1;
      var init := batch[..n];
      DistinctKeysSnoc(batch, keyOf);
      UpsertDistinct(db, init, keyOf, update);
      UpsertKeys(db, init, keyOf, update);
      forall i | 0 <= i < n
        ensures Upsert(db, batch, keyOf, update).value[keyOf(batch[i])]
          == if keyOf(batch[i]) in db then update(db[keyOf(batch[i])], batch[i]) else batch[i]
      {
        assert init[i] == batch[i];
      }
    }
  }

  /** `update` replaces every field of a row by the incoming row's: the key fields already agree. */
  ghost predicate Overwrites<K, V(!new)>(keyOf: V -> K, update: (V, V) -> V)
  {
    forall existing, row {:trigger update(existing, row)} :: keyOf(existing) == keyOf(row) ==> update(existing, row) == row
  }

  /** Row i is the last of the batch with its key. */
  predicate LastWithKey<K(==), V>(batch: seq<V>, keyOf: V -> K, i: int)
  {
    0 <= i < |batch| && forall j :: i < j < |batch| ==> keyOf(batch[j]) != keyOf(batch[i])
  }

  lemma LastWithKeySnoc<K, V>(batch: seq<V>, keyOf: V -> K, i: int)
    requires LastWithKey(batch, keyOf, i) && i < |batch| - 1
    ensures LastWithKey(batch[..|batch| - 1], keyOf, i)
    ensures batch[..|batch| - 1][i] == batch[i]
    ensures keyOf(batch[i]) != keyOf(batch[|batch| - 1])
  {
  }

  /** With an overwriting update, a saved row step stores the row itself under its key. */
  lemma OverwritingRow<K, V(!new)>(db: map<K, V>, tracked: map<K, V>, row: V, keyOf: V -> K, update: (V, V) -> V)
    requires Overwrites(keyOf, update) && Keyed(tracked, keyOf) && db.Keys <= tracked.Keys
    requires UpsertRow(db, tracked, row, keyOf, update).Some?
    ensures UpsertRow(db, tracked, row, keyOf, update).value == tracked[keyOf(row) := row]
  {
  }

  /** When the update overwrites and the upsert saves, every key of the batch holds the batch's last row for it. */
  lemma {:induction false} UpsertLaterWins<K, V(!new)>(db: map<K, V>, batch: seq<V>, keyOf: V -> K, update: (V, V) -> V)
    requires Overwrites(keyOf, update) && Keyed(db, keyOf)
    requires Upsert(db, batch, keyOf, update).Some?
    decreases |batch|
    ensures Keyed(Upsert(db, batch, keyOf, update).value, keyOf)
    ensures forall i :: LastWithKey(batch, keyOf, i) ==> Upsert(db, batch, keyOf, update).value[keyOf(batch[i])] == batch[i]
  {
    if batch != [] {
      var n := |batch| - 1;
      var init := batch[..n];
      UpsertLaterWins(db, init, keyOf, update);
      var t := Upsert(db, init, keyOf, update).value;
      OverwritingRow(db, t, batch[n], keyOf, update);
      var r := Upsert(db, batch, keyOf, update).value;
      assert r == t[keyOf(batch[n]) := batch[n]];
      forall i | LastWithKey(batch, keyOf, i) && i < n ensures r[keyOf(batch[i])] == batch[i] {
        LastWithKeySnoc(batch, keyOf, i);
      }
    }
  }

  /**
   * The upsert loop as the service runs it, row by row against a tracked copy
   * of the stored table; the first key conflict abandons the batch.
   */
  method UpsertBatch<K, V>(db: map<K, V>, batch: seq<V>, keyOf: V -> K, update: (V, V) -> V) returns (r: Option<map<K, V>>)
    ensures r == Upsert(db, batch, keyOf, update)
  {
    var tracked := db;
    var i := 0;
    while i < |batch|
      invariant 0 <= i <= |batch|
      invariant Upsert(db, batch[..i], keyOf, update) == Some(tracked)
    {
      var row := batch[i];
      var k := keyOf(row);
      assert batch[..i + 1][..i] == batch[..i];
      if k in db {
        tracked := tracked[k := update(tracked[k], row)];
      } else if k in tracked {
        UpsertFailsIffConflict(db, batch[..i + 1], keyOf, update);
        UpsertFailsIffConflict(db, batch, keyOf, update);
        var a, b :| 0 <= a < b < i + 1 && keyOf(batch[..i + 1][a]) == keyOf(batch[..i + 1][b]) && keyOf(batch[..i + 1][b]) !in db;
        assert batch[a] == batch[..i + 1][a] && batch[b] == batch[..i + 1][b];
        return None;
      } else {
        tracked := tracked[k := row];
      }
      i := i + 1;
    }
    assert batch[..i] == batch;
    r := Some(tracked);
  }

  // ----- Gather ------------------------------------------------------------------

  /** The outcomes of the targets that succeeded, in target order. */
  function Gathered<R>(targets: seq<string>, outcome: string -> Option<R>): (r: seq<R>)
    decreases |targets|
    ensures |r| + Failures(targets, outcome) == |targets|
  {
    if targets == [] then []
    else
      var init := Gathered(targets[..|targets| - 1], outcome);
      match outcome(targets[|targets| - 1])
      case Some(x) => init + [x]
      case None => init
  }

  /** The number of targets whose outcome failed. */
  function Failures<R>(targets: seq<string>, outcome: string -> Option<R>): nat
    decreases |targets|
  {
    if targets == [] then 0
    else Failures(targets[..|targets| - 1], outcome) + if outcome(targets[|targets| - 1]).None? then 1 else 0
  }

  /** One failure does not stop the loop: every success of every target is gathered, and nothing else. */
  lemma {:induction false} GatheredExactly<R>(targets: seq<string>, outcome: string -> Option<R>)
    decreases |targets|
    ensures forall x :: x in Gathered(targets, outcome) <==> exists i :: 0 <= i < |targets| && outcome(targets[i]) == Some(x)
  {
    if targets != [] {
      var n := |targets| - 1;
      var init := targets[..n];
      GatheredExactly(init, outcome);
      forall x ensures x in Gathered(targets, outcome) <==> exists i :: 0 <= i < |targets| && outcome(targets[i]) == Some(x) {
        if x in Gathered(init, outcome) {
          var i :| 0 <= i < |init| && outcome(init[i]) == Some(x);
          assert targets[i] == init[i];
        }
        if exists i :: 0 <= i < |targets| && outcome(targets[i]) == Some(x) {
          var i :| 0 <= i < |targets| && outcome(targets[i]) == Some(x);
          if i < n {
            assert init[i] == targets[i];
          }
        }
      }
    }
  }

  /** The concatenation of a list of batches, in order. */
  function Flatten<T(!new)>(batches: seq<seq<T>>): (r: seq<T>)
    decreases |batches|
    ensures forall x :: x in r <==> exists b :: b in batches && x in b
  {
    if batches == [] then []
    else
      var init := batches[..|batches| - 1];
      var last := batches[|batches| - 1];
      var r := Flatten(init) + last;
      assert forall b :: b in batches <==> b in init || b == last by {
        assert batches == init + [last];
      }
      r
  }

  /**
   * Flatten keeps the batches' order: a batch appended after the others (one
   * more symbol's trades, added one by one) comes after all their elements.
   */
  lemma FlattenSnoc<T(!new)>(batches: seq<seq<T>>, last: seq<T>)
    ensures Flatten(batches + [last]) == Flatten(batches) + last
  {
    assert (batches + [last])[..|batches|] == batches;
  }
}
