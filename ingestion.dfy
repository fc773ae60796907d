/**
 * The market-data ingestion service: the Symbols, Tickers, OrderBooks and
 * Trades tables under their configured keys, and the prune, gather and upsert
 * steps of the symbol, ticker and trade collections.
 *
 * The exchange client is represented by its outcome for each symbol (a
 * response or a thrown exception), with the clock reading taken while the
 * response was mapped. Database failures are modelled only inside the symbol
 * collection's transaction.
 */
module Ingestion {
  import opened Wrappers
  import opened Strings
  import opened Symbols
  import opened Tables
  import Cron

  // ----- Rows and keys -----------------------------------------------------------

  /** SymbolEntity, keyed by Symbol. */
  datatype SymbolRow = SymbolRow(
    symbol: string, baseCurrency: string, quoteCurrency: string, status: string,
    basePrecision: int, quotePrecision: int, amountPrecision: int,
    minOrderAmount: real, minOrderValue: real, collectedAt: Cron.Instant)

  /** TickerEntity, keyed by Symbol. */
  datatype TickerRow = TickerRow(
    symbol: string, last: real, high: real, low: real, vol: real, buy: real, sell: real,
    date: int, collectedAt: Cron.Instant)

  /** The composite key (Symbol, Tid) of TradeEntity. */
  datatype TradeKey = TradeKey(symbol: string, tid: int)

  /** TradeEntity, keyed by (Symbol, Tid). */
  datatype TradeRow = TradeRow(
    tid: int, symbol: string, date: int, price: real, tradeType: string, amount: real,
    collectedAt: Cron.Instant)

  /** OrderBookEntity, keyed by its Id. */
  datatype OrderBookRow = OrderBookRow(id: int, symbol: string, bids: string, asks: string, collectedAt: Cron.Instant)

  function SymbolOf(r: SymbolRow): string { r.symbol }
  function TickerSymbol(r: TickerRow): string { r.symbol }
  function TradeSymbol(r: TradeRow): string { r.symbol }
  function TradeKeyOf(r: TradeRow): TradeKey { TradeKey(r.symbol, r.tid) }
  function OrderBookId(r: OrderBookRow): int { r.id }
  function OrderBookSymbol(r: OrderBookRow): string { r.symbol }

  /** `x ?? 0`. */
  function OrZero(x: Option<int>): int
  {
    match x
    case Some(v) => v
    case None => 0
  }

  // ----- Symbols -----------------------------------------------------------------

  /** The entity built for a target symbol. */
  function SymbolRowFor(symbol: string, at: Cron.Instant): SymbolRow
  {
    SymbolRow(symbol, RemoveAll(symbol, QuoteSuffix), QuoteCurrency, "ACTIVE", 8, 2, 8, 0.00000001, 1.00, at)
  }

  /** The entities of the target list, one per symbol, in list order. */
  function SymbolEntities(targets: seq<string>, at: Cron.Instant): (r: seq<SymbolRow>)
    ensures |r| == |targets|
    ensures forall i :: 0 <= i < |r| ==> r[i] == SymbolRowFor(targets[i], at)
  {
    seq(|targets|, i requires 0 <= i < |targets| => SymbolRowFor(targets[i], at))
  }

  /** The update of a stored symbol: every field from the entity, except CollectedAt, which is read anew. */
  function UpdateSymbol(now: Cron.Instant): (SymbolRow, SymbolRow) -> SymbolRow
  {
    (existing: SymbolRow, e: SymbolRow) => existing.(
      baseCurrency := e.baseCurrency, quoteCurrency := e.quoteCurrency, status := e.status,
      basePrecision := e.basePrecision, quotePrecision := e.quotePrecision,
      amountPrecision := e.amountPrecision, minOrderAmount := e.minOrderAmount,
      minOrderValue := e.minOrderValue, collectedAt := now)
  }

  /**
   * The Symbols table a committed collection leaves: one row per target
   * symbol, stamped with the update-time reading if the symbol was stored and
   * with the creation-time reading if it is new.
   */
  function SymbolTable(stored: map<string, SymbolRow>, targets: seq<string>, createdAt: Cron.Instant, updatedAt: Cron.Instant): map<string, SymbolRow>
  {
    map s | s in targets :: SymbolRowFor(s, if s in stored then updatedAt else createdAt)
  }

  /** Updating a stored symbol with its entity yields the entity, stamped with the update-time reading. */
  lemma UpdateSymbolRefreshes(existing: SymbolRow, e: SymbolRow, now: Cron.Instant)
    requires existing.symbol == e.symbol
    ensures UpdateSymbol(now)(existing, e) == e.(collectedAt := now)
  {
  }

  /** The table of distinct BRL pairs has one row per pair, each built from its symbol. */
  lemma SymbolTableShape(stored: map<string, SymbolRow>, targets: seq<string>, createdAt: Cron.Instant, updatedAt: Cron.Instant)
    requires NoDup(targets) && forall s :: s in targets ==> IsBrlPair(s)
    ensures var t := SymbolTable(stored, targets, createdAt, updatedAt);
      && t.Keys == set s | s in targets
      && |t.Keys| == |targets|
      && forall s :: s in t ==>
        && t[s].symbol == s
        && IsBrlPair(s) && t[s].baseCurrency == BaseAsset(s)
        && t[s].quoteCurrency == "BRL" && t[s].status == "ACTIVE"
        && t[s].basePrecision == 8 && t[s].quotePrecision == 2 && t[s].amountPrecision == 8
        && t[s].collectedAt == if s in stored then updatedAt else createdAt
  {
    DistinctCardinality(targets);
    forall s | s in targets ensures RemoveAll(s, QuoteSuffix) == BaseAsset(s) {
      BrlPairStripsToBase(s);
    }
  }

  /** After a committed collection the key set is exactly the 50 target symbols, each row built from its symbol. */
  lemma SymbolTableRows(stored: map<string, SymbolRow>, createdAt: Cron.Instant, updatedAt: Cron.Instant)
    ensures var t := SymbolTable(stored, GetTopTier50CryptocurrencyList(), createdAt, updatedAt);
      && t.Keys == set s | s in GetTopTier50CryptocurrencyList()
      && |t.Keys| == 50
      && forall s :: s in t ==>
        && t[s].symbol == s
        && IsBrlPair(s) && t[s].baseCurrency == BaseAsset(s)
        && t[s].quoteCurrency == "BRL" && t[s].status == "ACTIVE"
        && t[s].basePrecision == 8 && t[s].quotePrecision == 2 && t[s].amountPrecision == 8
        && t[s].collectedAt == if s in stored then updatedAt else createdAt
  {
    TopTier50Shape();
    SymbolTableShape(stored, GetTopTier50CryptocurrencyList(), createdAt, updatedAt);
  }

  /** A list without repetitions has as many distinct elements as entries. */
  lemma {:induction false} DistinctCardinality(s: seq<string>)
    requires NoDup(s)
    ensures |set x | x in s| == |s|
  {
    if s != [] {
      var init := s[..|s| - 1];
      assert NoDup(init) by {
        forall i, j | 0 <= i < j < |init| ensures init[i] != init[j] {
          assert init[i] == s[i] && init[j] == s[j];
        }
      }
      DistinctCardinality(init);
      assert s == init + [s[|s| - 1]];
      assert s[|s| - 1] !in init;
      assert (set x | x in s) == (set x | x in init) + {s[|s| - 1]};
    }
  }

  /** Collecting twice leaves the same rows, all stamped by the second run's update. */
  lemma CollectSymbolsTwice(stored: map<string, SymbolRow>, targets: seq<string>, c1: Cron.Instant, u1: Cron.Instant, c2: Cron.Instant, u2: Cron.Instant)
    ensures SymbolTable(SymbolTable(stored, targets, c1, u1), targets, c2, u2)
         == map s | s in targets :: SymbolRowFor(s, u2)
  {
  }

  /** The entities of distinct targets carry distinct keys: exactly the targets. */
  lemma SymbolEntitiesKeys(targets: seq<string>, at: Cron.Instant)
    requires NoDup(targets)
    ensures DistinctKeys(SymbolEntities(targets, at), SymbolOf)
    ensures KeysOf(SymbolEntities(targets, at), SymbolOf) == set s | s in targets
  {
    var batch := SymbolEntities(targets, at);
    forall i, j | 0 <= i < j < |batch| ensures SymbolOf(batch[i]) != SymbolOf(batch[j]) {
      assert batch[i].symbol == targets[i] && batch[j].symbol == targets[j];
    }
    forall s | s in targets ensures s in KeysOf(batch, SymbolOf) {
      var i :| 0 <= i < |targets| && targets[i] == s;
      assert SymbolOf(batch[i]) == s;
    }
  }

  /** Every row the transaction leaves in the Symbols table is the row SymbolTable holds under that symbol. */
  lemma SymbolUpsertRows(stored: map<string, SymbolRow>, targets: seq<string>, createdAt: Cron.Instant, updatedAt: Cron.Instant)
    requires Keyed(stored, SymbolOf) && NoDup(targets)
    ensures var r := Upsert(Prune(stored, SymbolOf, targets), SymbolEntities(targets, createdAt), SymbolOf, UpdateSymbol(updatedAt));
      var table := SymbolTable(stored, targets, createdAt, updatedAt);
      && r.Some?
      && (forall s :: s in r.value <==> s in table)
      && (forall s :: s in r.value ==> r.value[s] == table[s])
  {
    var pruned := Prune(stored, SymbolOf, targets);
    var batch := SymbolEntities(targets, createdAt);
    var update := UpdateSymbol(updatedAt);
    SymbolEntitiesKeys(targets, createdAt);
    UpsertDistinct(pruned, batch, SymbolOf, update);
    UpsertKeys(pruned, batch, SymbolOf, update);
    var t := Upsert(pruned, batch, SymbolOf, update).value;
    var table := SymbolTable(stored, targets, createdAt, updatedAt);
    forall s | s in t ensures s in table && t[s] == table[s] {
      if s in pruned {
        assert SymbolOf(stored[s]) == s;
      }
      var i :| 0 <= i < |targets| && targets[i] == s;
      assert SymbolOf(batch[i]) == s;
    }
  }

  /** The prune and upsert inside the transaction produce exactly SymbolTable. */
  lemma CollectSymbolsSaves(stored: map<string, SymbolRow>, targets: seq<string>, createdAt: Cron.Instant, updatedAt: Cron.Instant)
    requires Keyed(stored, SymbolOf) && NoDup(targets)
    ensures Upsert(Prune(stored, SymbolOf, targets), SymbolEntities(targets, createdAt), SymbolOf, UpdateSymbol(updatedAt))
         == Some(SymbolTable(stored, targets, createdAt, updatedAt))
    ensures Keyed(SymbolTable(stored, targets, createdAt, updatedAt), SymbolOf)
  {
    SymbolUpsertRows(stored, targets, createdAt, updatedAt);
    var t := Upsert(Prune(stored, SymbolOf, targets), SymbolEntities(targets, createdAt), SymbolOf, UpdateSymbol(updatedAt)).value;
    assert t == SymbolTable(stored, targets, createdAt, updatedAt);
  }

  /** CollectSymbolsSaves for the 50 target symbols. */
  lemma CollectTopSymbolsSaves(stored: map<string, SymbolRow>, createdAt: Cron.Instant, updatedAt: Cron.Instant)
    requires Keyed(stored, SymbolOf)
    ensures var top := GetTopTier50CryptocurrencyList();
      && Upsert(Prune(stored, SymbolOf, top), SymbolEntities(top, createdAt), SymbolOf, UpdateSymbol(updatedAt))
           == Some(SymbolTable(stored, top, createdAt, updatedAt))
      && Keyed(SymbolTable(stored, top, createdAt, updatedAt), SymbolOf)
  {
    TopTier50Shape();
    CollectSymbolsSaves(stored, GetTopTier50CryptocurrencyList(), createdAt, updatedAt);
  }

  // ----- Tickers -----------------------------------------------------------------

  /** The outcome of one client call for one symbol: a thrown exception, or a (possibly null) response. */
  datatype Fetch<T> = Threw | Returned(response: Option<seq<T>>, at: Cron.Instant)

  /** A ticker as the client returns it, its decimals already parsed. */
  datatype TickerData = TickerData(last: real, high: real, low: real, vol: real, buy: real, sell: real, date: Option<int>)

  /** The entity of a returned ticker: its prices, Date ?? 0, the symbol asked for and the collection time. */
  function TickerRowFor(symbol: string, t: TickerData, at: Cron.Instant): (r: TickerRow)
    ensures r.symbol == symbol && r.collectedAt == at
    ensures r.last == t.last && r.high == t.high && r.low == t.low && r.vol == t.vol && r.buy == t.buy && r.sell == t.sell
    ensures t.date.Some? ==> r.date == t.date.value
    ensures t.date.None? ==> r.date == 0
  {
    TickerRow(symbol, t.last, t.high, t.low, t.vol, t.buy, t.sell, OrZero(t.date), at)
  }

  /** A symbol's ticker: the first of a non-empty response; a null or empty response or a throw is an error. */
  function TickerOutcome(symbol: string, fetch: Fetch<TickerData>): (r: Option<TickerRow>)
    ensures r.Some? <==> fetch.Returned? && fetch.response.Some? && fetch.response.value != []
    ensures r.Some? ==> r.value.symbol == symbol && r.value.collectedAt == fetch.at
    ensures r.Some? ==> r.value == TickerRowFor(symbol, fetch.response.value[0], fetch.at)
  {
    match fetch
    case Returned(Some(tickers), at) =>
      if |tickers| > 0 then Some(TickerRowFor(symbol, tickers[0], at)) else None
    case _ => None
  }

  function TickerOutcomes(fetch: string -> Fetch<TickerData>): string -> Option<TickerRow>
  {
    s => TickerOutcome(s, fetch(s))
  }

  /** The ticker loop: one client call per target, each counted once as a success or an error. */
  method GatherTickers(targets: seq<string>, fetch: string -> Fetch<TickerData>)
    returns (collected: seq<TickerRow>, success: nat, errors: nat)
    ensures collected == Gathered(targets, TickerOutcomes(fetch))
    ensures success == |collected| && errors == Failures(targets, TickerOutcomes(fetch))
    ensures success + errors == |targets|
  {
    collected, success, errors := [], 0, 0;
    var i := 0;
    while i < |targets|
      invariant 0 <= i <= |targets|
      invariant collected == Gathered(targets[..i], TickerOutcomes(fetch))
      invariant success == |collected| && errors == Failures(targets[..i], TickerOutcomes(fetch))
    {
      var symbol := targets[i];
      assert targets[..i + 1][..i] == targets[..i];
      var response := fetch(symbol);
      if response.Returned? && response.response.Some? && |response.response.value| > 0 {
        var ticker := response.response.value[0];
        collected := collected + [TickerRowFor(symbol, ticker, response.at)];
        success := success + 1;
      } else {
        errors := errors + 1;
      }
      i := i + 1;
    }
    assert targets[..i] == targets;
  }

  /** The update of a stored ticker: every non-key field from the collected row. */
  function UpdateTicker(existing: TickerRow, e: TickerRow): TickerRow
  {
    existing.(last := e.last, high := e.high, low := e.low, vol := e.vol, buy := e.buy, sell := e.sell,
              date := e.date, collectedAt := e.collectedAt)
  }

  /** The update overwrites every field but the key, so it yields the collected row. */
  lemma UpdateTickerOverwrites()
    ensures Overwrites(TickerSymbol, UpdateTicker)
  {
  }

  /**
   * The Tickers table after a collection: rows outside the targets are gone,
   * a target symbol with a fresh ticker holds that ticker, and any other
   * stored target row is kept as it was.
   */
  function TickerTable(stored: map<string, TickerRow>, targets: seq<string>, fetch: string -> Fetch<TickerData>): map<string, TickerRow>
  {
    map s | s in targets && (s in stored || TickerOutcome(s, fetch(s)).Some?) ::
      match TickerOutcome(s, fetch(s))
      case Some(row) => row
      case None => stored[s]
  }

  /** A collection in which no target answers leaves exactly the pruned table. */
  lemma TickerTableWhenAllFail(stored: map<string, TickerRow>, targets: seq<string>, fetch: string -> Fetch<TickerData>)
    requires Keyed(stored, TickerSymbol)
    requires forall s :: s in targets ==> TickerOutcome(s, fetch(s)).None?
    ensures TickerTable(stored, targets, fetch) == Prune(stored, TickerSymbol, targets)
  {
    var t := TickerTable(stored, targets, fetch);
    var p := Prune(stored, TickerSymbol, targets);
    forall s | s in p ensures s in t {
      assert TickerSymbol(stored[s]) == s;
    }
    forall s | s in t ensures s in p && t[s] == p[s] {
      assert TickerSymbol(stored[s]) == s;
    }
  }

  /** Collecting again with the same responses changes nothing. */
  lemma TickerTableIdempotent(stored: map<string, TickerRow>, targets: seq<string>, fetch: string -> Fetch<TickerData>)
    ensures TickerTable(TickerTable(stored, targets, fetch), targets, fetch) == TickerTable(stored, targets, fetch)
  {
  }

  /** Gathered tickers: one per answering target, under distinct symbols, each the ticker of its symbol. */
  lemma {:induction false} GatheredTickers(targets: seq<string>, fetch: string -> Fetch<TickerData>)
    requires NoDup(targets)
    decreases |targets|
    ensures var batch := Gathered(targets, TickerOutcomes(fetch));
      && DistinctKeys(batch, TickerSymbol)
      && (forall i :: 0 <= i < |batch| ==> batch[i].symbol in targets && TickerOutcome(batch[i].symbol, fetch(batch[i].symbol)) == Some(batch[i]))
      && (forall s :: s in targets && TickerOutcome(s, fetch(s)).Some? ==> s in KeysOf(batch, TickerSymbol))
  {
    if targets != [] {
      var init := targets[..|targets| - 1];
      var last := targets[|targets| - 1];
      assert NoDup(init) by {
        forall i, j | 0 <= i < j < |init| ensures init[i] != init[j] {
          assert init[i] == targets[i] && init[j] == targets[j];
        }
      }
      assert last !in init;
      assert targets == init + [last];
      GatheredTickers(init, fetch);
      var before := Gathered(init, TickerOutcomes(fetch));
      var batch := Gathered(targets, TickerOutcomes(fetch));
      assert KeysOf(before, TickerSymbol) <= KeysOf(batch, TickerSymbol) by {
        forall k | k in KeysOf(before, TickerSymbol) ensures k in KeysOf(batch, TickerSymbol) {
          var i :| 0 <= i < |before| && TickerSymbol(before[i]) == k;
          assert batch[i] == before[i];
        }
      }
      if TickerOutcome(last, fetch(last)).Some? {
        assert batch == before + [TickerOutcome(last, fetch(last)).value];
        assert TickerSymbol(batch[|before|]) == last;
      }
    }
  }

  /** Every row the upsert leaves in the Tickers table is the row TickerTable holds under that symbol. */
  lemma TickerUpsertRows(stored: map<string, TickerRow>, targets: seq<string>, fetch: string -> Fetch<TickerData>)
    requires Keyed(stored, TickerSymbol) && NoDup(targets)
    ensures var r := Upsert(Prune(stored, TickerSymbol, targets), Gathered(targets, TickerOutcomes(fetch)), TickerSymbol, UpdateTicker);
      var table := TickerTable(stored, targets, fetch);
      && r.Some?
      && (forall s :: s in r.value <==> s in table)
      && (forall s :: s in r.value ==> r.value[s] == table[s])
  {
    var pruned := Prune(stored, TickerSymbol, targets);
    var batch := Gathered(targets, TickerOutcomes(fetch));
    GatheredTickers(targets, fetch);
    UpdateTickerOverwrites();
    UpsertDistinct(pruned, batch, TickerSymbol, UpdateTicker);
    UpsertKeys(pruned, batch, TickerSymbol, UpdateTicker);
    var t := Upsert(pruned, batch, TickerSymbol, UpdateTicker).value;
    var table := TickerTable(stored, targets, fetch);
    forall s | s in t ensures s in table && t[s] == table[s] {
      if s in KeysOf(batch, TickerSymbol) {
        var i :| 0 <= i < |batch| && TickerSymbol(batch[i]) == s;
        if s in pruned {
          assert TickerSymbol(pruned[s]) == s;
        }
      } else {
        assert TickerSymbol(stored[s]) == s;
      }
    }
  }

  /** The prune, the ticker loop and the upsert produce exactly TickerTable. */
  lemma CollectTickersSaves(stored: map<string, TickerRow>, targets: seq<string>, fetch: string -> Fetch<TickerData>)
    requires Keyed(stored, TickerSymbol) && NoDup(targets)
    ensures Upsert(Prune(stored, TickerSymbol, targets), Gathered(targets, TickerOutcomes(fetch)), TickerSymbol, UpdateTicker)
         == Some(TickerTable(stored, targets, fetch))
    ensures Keyed(TickerTable(stored, targets, fetch), TickerSymbol)
  {
    TickerUpsertRows(stored, targets, fetch);
    var t := Upsert(Prune(stored, TickerSymbol, targets), Gathered(targets, TickerOutcomes(fetch)), TickerSymbol, UpdateTicker).value;
    var table := TickerTable(stored, targets, fetch);
    assert t == table;
    forall s | s in table ensures TickerSymbol(table[s]) == s {
      if TickerOutcome(s, fetch(s)).None? {
        assert TickerSymbol(stored[s]) == s;
      }
    }
  }

  /** CollectTickersSaves for the 50 target symbols. */
  lemma CollectTopTickersSaves(stored: map<string, TickerRow>, fetch: string -> Fetch<TickerData>)
    requires Keyed(stored, TickerSymbol)
    ensures var top := GetTopTier50CryptocurrencyList();
      && |top| == 50
      && Upsert(Prune(stored, TickerSymbol, top), Gathered(top, TickerOutcomes(fetch)), TickerSymbol, UpdateTicker)
           == Some(TickerTable(stored, top, fetch))
      && Keyed(TickerTable(stored, top, fetch), TickerSymbol)
  {
    TopTier50Shape();
    CollectTickersSaves(stored, GetTopTier50CryptocurrencyList(), fetch);
  }

  // ----- Trades ------------------------------------------------------------------

  /** A trade as the client returns it, its decimals already parsed. */
  datatype TradeData = TradeData(tid: Option<int>, date: Option<int>, price: real, tradeType: string, amount: real)

  /** The entity of a returned trade: Tid ?? 0, Date ?? 0, its price, type and amount, the symbol asked for and the collection time. */
  function TradeRowFor(symbol: string, t: TradeData, at: Cron.Instant): (r: TradeRow)
    ensures TradeKeyOf(r) == TradeKey(symbol, OrZero(t.tid))
    ensures t.tid.Some? ==> r.tid == t.tid.value
    ensures t.tid.None? ==> r.tid == 0
    ensures t.date.Some? ==> r.date == t.date.value
    ensures t.date.None? ==> r.date == 0
    ensures r.price == t.price && r.tradeType == t.tradeType && r.amount == t.amount && r.collectedAt == at
  {
    TradeRow(OrZero(t.tid), symbol, OrZero(t.date), t.price, t.tradeType, t.amount, at)
  }

  /** One entity per returned trade, in response order. */
  function TradeRows(symbol: string, trades: seq<TradeData>, at: Cron.Instant): (r: seq<TradeRow>)
    ensures |r| == |trades|
    ensures forall i :: 0 <= i < |r| ==> r[i] == TradeRowFor(symbol, trades[i], at)
  {
    seq(|trades|, i requires 0 <= i < |trades| => TradeRowFor(symbol, trades[i], at))
  }

  /** A symbol's trades: every trade of any response, a null or empty one included, is a success; only a throw is an error. */
  function TradeOutcome(symbol: string, fetch: Fetch<TradeData>): (r: Option<seq<TradeRow>>)
    ensures r.None? <==> fetch.Threw?
    ensures r.Some? ==> forall row :: row in r.value ==> row.symbol == symbol && row.collectedAt == fetch.at
    ensures fetch.Returned? && fetch.response.Some? ==> r == Some(TradeRows(symbol, fetch.response.value, fetch.at))
    ensures fetch.Returned? && fetch.response.None? ==> r == Some([])
  {
    match fetch
    case Threw => None
    case Returned(response, at) =>
      match response
      case Some(trades) => Some(TradeRows(symbol, trades, at))
      case None => Some([])
  }

  function TradeOutcomes(fetch: string -> Fetch<TradeData>): string -> Option<seq<TradeRow>>
  {
    s => TradeOutcome(s, fetch(s))
  }

  /** The trades loop: each target counted once, the trades of every answering symbol gathered in order. */
  method GatherTrades(targets: seq<string>, fetch: string -> Fetch<TradeData>)
    returns (allEntities: seq<TradeRow>, success: nat, errors: nat)
    ensures allEntities == Flatten(Gathered(targets, TradeOutcomes(fetch)))
    ensures success == |Gathered(targets, TradeOutcomes(fetch))| && errors == Failures(targets, TradeOutcomes(fetch))
    ensures success + errors == |targets|
  {
    allEntities, success, errors := [], 0, 0;
    var i := 0;
    while i < |targets|
      invariant 0 <= i <= |targets|
      invariant allEntities == Flatten(Gathered(targets[..i], TradeOutcomes(fetch)))
      invariant success == |Gathered(targets[..i], TradeOutcomes(fetch))|
      invariant errors == Failures(targets[..i], TradeOutcomes(fetch))
    {
      var symbol := targets[i];
      assert targets[..i + 1][..i] == targets[..i];
      var response := fetch(symbol);
      if response.Threw? {
        errors := errors + 1;
      } else if response.response.Some? && |response.response.value| > 0 {
        var trades := response.response.value;
        ghost var before := allEntities;
        ghost var rows := TradeRows(symbol, trades, response.at);
        var j := 0;
        while j < |trades|
          invariant 0 <= j <= |trades|
          invariant allEntities == before + rows[..j]
        {
          assert rows[..j + 1] == rows[..j] + [rows[j]];
          allEntities := allEntities + [TradeRowFor(symbol, trades[j], response.at)];
          j := j + 1;
        }
        assert rows[..j] == rows;
        FlattenSnoc(Gathered(targets[..i], TradeOutcomes(fetch)), rows);
        success := success + 1;
      } else {
        // An empty response is still a success.
        FlattenSnoc(Gathered(targets[..i], TradeOutcomes(fetch)), []);
        success := success + 1;
      }
      i := i + 1;
    }
    assert targets[..i] == targets;
  }

  /** The update of a stored trade: Date, Price, Type, Amount and CollectedAt from the collected row. */
  function UpdateTrade(existing: TradeRow, e: TradeRow): TradeRow
  {
    existing.(date := e.date, price := e.price, tradeType := e.tradeType, amount := e.amount, collectedAt := e.collectedAt)
  }

  /** The fields the trade update leaves are exactly the key fields, so an update of a matching row yields the collected row. */
  lemma UpdateTradeOverwrites()
    ensures Overwrites(TradeKeyOf, UpdateTrade)
  {
    forall existing: TradeRow, row: TradeRow | TradeKeyOf(existing) == TradeKeyOf(row)
      ensures UpdateTrade(existing, row) == row
    {
      assert existing.symbol == row.symbol && existing.tid == row.tid;
    }
  }

  /**
   * What a trades collection saves. It fails exactly when two collected trades
   * share a (Symbol, Tid) that the pruned table does not hold. Otherwise every
   * key of the batch holds the batch's last trade with that key, and every
   * other remaining row is the stored one.
   */
  lemma CollectTradesSaves(stored: map<TradeKey, TradeRow>, fetch: string -> Fetch<TradeData>)
    requires Keyed(stored, TradeKeyOf)
    ensures var top := GetTopTier50CryptocurrencyList();
      var pruned := Prune(stored, TradeSymbol, top);
      var batch := Flatten(Gathered(top, TradeOutcomes(fetch)));
      var result := Upsert(pruned, batch, TradeKeyOf, UpdateTrade);
      && (result.None? <==> Conflict(pruned, batch, TradeKeyOf))
      && (result.Some? ==>
        && Keyed(result.value, TradeKeyOf)
        && result.value.Keys == pruned.Keys + KeysOf(batch, TradeKeyOf)
        && (forall i :: LastWithKey(batch, TradeKeyOf, i) ==> result.value[TradeKeyOf(batch[i])] == batch[i])
        && (forall k :: k in pruned && k !in KeysOf(batch, TradeKeyOf) ==> result.value[k] == stored[k]))
  {
    var top := GetTopTier50CryptocurrencyList();
    var pruned := Prune(stored, TradeSymbol, top);
    var batch := Flatten(Gathered(top, TradeOutcomes(fetch)));
    UpsertFailsIffConflict(pruned, batch, TradeKeyOf, UpdateTrade);
    if Upsert(pruned, batch, TradeKeyOf, UpdateTrade).Some? {
      UpdateTradeOverwrites();
      UpsertLaterWins(pruned, batch, TradeKeyOf, UpdateTrade);
      UpsertKeys(pruned, batch, TradeKeyOf, UpdateTrade);
    }
  }

  /** Two trades of one symbol without a Tid both map to Tid 0; if that key is not stored, nothing of the batch is saved. */
  lemma MissingTidsCollide(symbol: string, a: TradeData, b: TradeData, at: Cron.Instant, stored: map<TradeKey, TradeRow>)
    requires a.tid.None? && b.tid.None? && TradeKey(symbol, 0) !in stored
    ensures Upsert(stored, TradeRows(symbol, [a, b], at), TradeKeyOf, UpdateTrade).None?
  {
    var batch := TradeRows(symbol, [a, b], at);
    assert TradeKeyOf(batch[0]) == TradeKeyOf(batch[1]) == TradeKey(symbol, 0);
    UpsertFailsIffConflict(stored, batch, TradeKeyOf, UpdateTrade);
  }

  // ----- The service -------------------------------------------------------------

  /** The tables of the database context the service works on, as they are stored. */
  class DataIngestionService {
    var symbols: map<string, SymbolRow>
    var tickers: map<string, TickerRow>
    var orderBooks: map<int, OrderBookRow>
    var trades: map<TradeKey, TradeRow>

    /** Every table holds each row under its configured key. */
    ghost predicate Valid()
      reads this
    {
      && Keyed(symbols, SymbolOf)
      && Keyed(tickers, TickerSymbol)
      && Keyed(orderBooks, OrderBookId)
      && Keyed(trades, TradeKeyOf)
    }

    constructor(symbols: map<string, SymbolRow>, tickers: map<string, TickerRow>,
                orderBooks: map<int, OrderBookRow>, trades: map<TradeKey, TradeRow>)
      requires Keyed(symbols, SymbolOf) && Keyed(tickers, TickerSymbol)
      requires Keyed(orderBooks, OrderBookId) && Keyed(trades, TradeKeyOf)
      ensures Valid()
      ensures this.symbols == symbols && this.tickers == tickers
      ensures this.orderBooks == orderBooks && this.trades == trades
    {
      this.symbols, this.tickers := symbols, tickers;
      this.orderBooks, this.trades := orderBooks, trades;
    }

    /**
     * CollectSymbolsAsync. Inside one transaction: prune the symbols outside
     * the list and upsert one entity per target symbol, then commit. If any
     * step of the transaction throws (`failure`), it is rolled back and the
     * exception propagates: the table is left as it was.
     */
    method CollectSymbols(createdAt: Cron.Instant, updatedAt: Cron.Instant, failure: bool) returns (committed: bool)
      requires Valid()
      modifies this
      ensures Valid()
      ensures committed == !failure
      ensures symbols == if committed then SymbolTable(old(symbols), GetTopTier50CryptocurrencyList(), createdAt, updatedAt) else old(symbols)
      ensures tickers == old(tickers) && orderBooks == old(orderBooks) && trades == old(trades)
    {
      var targets := GetTopTier50CryptocurrencyList();
      var entities := SymbolEntities(targets, createdAt);
      if failure {
        return false;
      }
      var pruned := Prune(symbols, SymbolOf, targets);
      var saved := UpsertBatch(pruned, entities, SymbolOf, UpdateSymbol(updatedAt));
      CollectTopSymbolsSaves(symbols, createdAt, updatedAt);
      symbols := saved.value;
      committed := true;
    }

    /**
     * CollectTickersAsync: prune and save, call the client once per target,
     * then upsert the collected tickers by Symbol and save.
     */
    method CollectTickers(fetch: string -> Fetch<TickerData>) returns (success: nat, errors: nat)
      requires Valid()
      modifies this
      ensures Valid()
      ensures tickers == TickerTable(old(tickers), GetTopTier50CryptocurrencyList(), fetch)
      ensures success == |Gathered(GetTopTier50CryptocurrencyList(), TickerOutcomes(fetch))|
      ensures errors == Failures(GetTopTier50CryptocurrencyList(), TickerOutcomes(fetch))
      ensures success + errors == 50
      ensures symbols == old(symbols) && orderBooks == old(orderBooks) && trades == old(trades)
    {
      var targets := GetTopTier50CryptocurrencyList();
      CollectTopTickersSaves(tickers, fetch);
      tickers := Prune(tickers, TickerSymbol, targets);
      var collected;
      collected, success, errors := GatherTickers(targets, fetch);
      if |collected| > 0 {
        var saved := UpsertBatch(tickers, collected, TickerSymbol, UpdateTicker);
        tickers := saved.value;
      }
    }

    /** The prune at the start of CollectOrderBookAsync. */
    method PruneOrderBooks()
      requires Valid()
      modifies this
      ensures Valid()
      ensures orderBooks == Prune(old(orderBooks), OrderBookSymbol, GetTopTier50CryptocurrencyList())
      ensures symbols == old(symbols) && tickers == old(tickers) && trades == old(trades)
    {
      orderBooks := Prune(orderBooks, OrderBookSymbol, GetTopTier50CryptocurrencyList());
    }

    /**
     * CollectTradesAsync: prune and save, call the client once per target,
     * then upsert every collected trade by (Symbol, Tid) and save. When the
     * change tracker refuses a second new row with one key, the exception
     * propagates (`saved` is false) and the table stays as pruned.
     */
    method CollectTrades(fetch: string -> Fetch<TradeData>) returns (saved: bool, success: nat, errors: nat)
      requires Valid()
      modifies this
      ensures Valid()
      ensures var top := GetTopTier50CryptocurrencyList();
        var pruned := Prune(old(trades), TradeSymbol, top);
        var result := Upsert(pruned, Flatten(Gathered(top, TradeOutcomes(fetch))), TradeKeyOf, UpdateTrade);
        && saved == result.Some?
        && trades == if saved then result.value else pruned
      ensures success == |Gathered(GetTopTier50CryptocurrencyList(), TradeOutcomes(fetch))|
      ensures errors == Failures(GetTopTier50CryptocurrencyList(), TradeOutcomes(fetch))
      ensures success + errors == 50
      ensures symbols == old(symbols) && tickers == old(tickers) && orderBooks == old(orderBooks)
    {
      var targets := GetTopTier50CryptocurrencyList();
      TopTier50Shape();
      CollectTradesSaves(trades, fetch);
      trades := Prune(trades, TradeSymbol, targets);
      var allEntities;
      allEntities, success, errors := GatherTrades(targets, fetch);
      saved := true;
      if |allEntities| > 0 {
        var result := UpsertBatch(trades, allEntities, TradeKeyOf, UpdateTrade);
        if result.None? {
          return false, success, errors;
        }
        trades := result.value;
      }
    }
  }
}
