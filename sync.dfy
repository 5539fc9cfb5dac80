/**
 The synchroniser: table provisioning, the per-market fetch-and-merge step,
 the run over all markets, and the store they update in place.

 Exceptions that `lambda_handler` does not catch end the whole run; the
 markets processed before keep what was written for them. `Mode` selects
 between two places where the code as written departs from what it evidently
 means to do: `AsWritten` follows the code, `Intended` the correction.
 */
module Sync {
  import opened Wrappers
  import opened Candles
  import opened MergeWriter
  import opened Naming
  import opened Watermarks
  import opened Markets

  type Tables = map<string, Table>

  /** The historical-rate reader: market, window start, window end; `None`
      when the client call raises. */
  type Fetcher = (string, int, int) -> Option<seq<Row>>

  /** The row count the reporting sink recorded for a table. */
  type Counts = string -> int

  datatype Mode =
    | AsWritten  // existence probe by LIKE; a failed fetch raises NameError
    | Intended   // existence probe by name; a failed fetch is an empty batch

  // ---------------------------------------------------------------------
  // Table provisioning (`check_mysql_tables`)
  // ---------------------------------------------------------------------

  /** Whether the existence probe finds a table for `name`. As written it is
      `SHOW TABLES LIKE "<name>"`, in which every `_` of the name matches
      any character. */
  predicate TableFound(tables: Tables, name: string, mode: Mode)
    ensures name in tables ==> TableFound(tables, name, mode)
    ensures mode == Intended ==> (TableFound(tables, name, mode) <==> name in tables)
  {
    LikeReflexive(name);
    match mode
    case AsWritten => exists n | n in tables :: Like(name, n)
    case Intended => name in tables
  }

  /** One iteration of `check_mysql_tables`: create an empty table unless the
      probe finds one; a CREATE that fails (a name in `failing`) is logged
      and leaves the store as it was. */
  function ProvisionOne(tables: Tables, market: string, failing: set<string>, mode: Mode): (r: Tables)
    ensures || r == tables
            || (&& TableName(market) !in tables && TableName(market) !in failing
                && r == tables[TableName(market) := map[]])
    ensures TableName(market) !in failing && (mode == Intended || TableName(market) in tables) ==> TableName(market) in r
  {
    var name := TableName(market);
    if TableFound(tables, name, mode) || name in failing then tables
    else tables[name := map[]]
  }

  function Provisioned(tables: Tables, markets: seq<string>, failing: set<string>, mode: Mode): (r: Tables)
    ensures tables.Keys <= r.Keys
    ensures forall n :: n in r && n !in tables ==> r[n] == map[]
    decreases |markets|
  {
    if markets == [] then tables
    else ProvisionOne(Provisioned(tables, markets[..|markets| - 1], failing, mode), markets[|markets| - 1], failing, mode)
  }

  /** Another table's name matches `name` read as a LIKE pattern. */
  ghost predicate Shadowed(tables: Tables, name: string)
  {
    exists n :: n in tables && n != name && Like(name, n)
  }

  lemma ProvisionOneKeepsExisting(tables: Tables, market: string, failing: set<string>, mode: Mode)
    ensures forall n :: n in tables ==>
              n in ProvisionOne(tables, market, failing, mode) && ProvisionOne(tables, market, failing, mode)[n] == tables[n]
  {
    var name := TableName(market);
    if name in tables && mode == AsWritten {
      LikeReflexive(name);
      assert TableFound(tables, name, mode);
    }
  }

  /** Existing tables, and every row in them, are left as they were. */
  lemma {:induction false} ProvisionKeepsExisting(tables: Tables, markets: seq<string>, failing: set<string>, mode: Mode)
    ensures forall n :: n in tables ==>
              n in Provisioned(tables, markets, failing, mode) && Provisioned(tables, markets, failing, mode)[n] == tables[n]
    decreases |markets|
  {
    if markets != [] {
      var front := markets[..|markets| - 1];
      ProvisionKeepsExisting(tables, front, failing, mode);
      ProvisionOneKeepsExisting(Provisioned(tables, front, failing, mode), markets[|markets| - 1], failing, mode);
    }
  }

  /** A table that was not there before is empty, is named after one of the
      markets, and is not one whose creation failed. */
  lemma {:induction false} ProvisionCreatesOnlyMarketTables(tables: Tables, markets: seq<string>, failing: set<string>, mode: Mode)
    ensures forall n :: n in Provisioned(tables, markets, failing, mode) && n !in tables ==>
              && Provisioned(tables, markets, failing, mode)[n] == map[]
              && n !in failing
              && exists j :: 0 <= j < |markets| && TableName(markets[j]) == n
    decreases |markets|
  {
    if markets != [] {
      var front := markets[..|markets| - 1];
      ProvisionCreatesOnlyMarketTables(tables, front, failing, mode);
      forall n | n in Provisioned(tables, markets, failing, mode) && n !in tables
        ensures exists j :: 0 <= j < |markets| && TableName(markets[j]) == n
      {
        if n in Provisioned(tables, front, failing, mode) {
          var j :| 0 <= j < |front| && TableName(front[j]) == n;
          assert markets[j] == front[j];
        } else {
          assert TableName(markets[|markets| - 1]) == n;
        }
      }
    }
  }

  /** Afterwards every market has its table unless its creation failed or,
      as written, another table's name matched the LIKE pattern. */
  lemma {:induction false} ProvisionCovers(tables: Tables, markets: seq<string>, failing: set<string>, mode: Mode)
    ensures var p := Provisioned(tables, markets, failing, mode);
            forall j :: 0 <= j < |markets| ==>
              || TableName(markets[j]) in p
              || TableName(markets[j]) in failing
              || (mode == AsWritten && Shadowed(p, TableName(markets[j])))
    decreases |markets|
  {
    if markets != [] {
      var n := |markets| - 1;
      var front := markets[..n];
      var q := Provisioned(tables, front, failing, mode);
      var p := Provisioned(tables, markets, failing, mode);
      ProvisionCovers(tables, front, failing, mode);
      ProvisionKeepsExisting(q, [markets[n]], failing, mode);
      assert Provisioned(q, [markets[n]], failing, mode) == p by {
        assert [markets[n]][..0] == [];
      }
      forall j | 0 <= j < |markets|
        ensures || TableName(markets[j]) in p
                || TableName(markets[j]) in failing
                || (mode == AsWritten && Shadowed(p, TableName(markets[j])))
      {
        var name := TableName(markets[j]);
        if j < n {
          assert front[j] == markets[j];
          if mode == AsWritten && Shadowed(q, name) {
            var s :| s in q && s != name && Like(name, s);
            assert s in p;
          }
        } else if mode == AsWritten && TableFound(q, name, mode) {
          var s :| s in q && Like(name, s);
          assert s in p;
        }
      }
    }
  }

  /** With the probe by name, every market has a table afterwards unless
      creating it failed. */
  lemma IntendedProvisionCoversAll(tables: Tables, markets: seq<string>, failing: set<string>)
    ensures forall j :: 0 <= j < |markets| ==>
              TableName(markets[j]) in Provisioned(tables, markets, failing, Intended)
              || TableName(markets[j]) in failing
  {
    ProvisionCovers(tables, markets, failing, Intended);
  }

  /** As written, a market whose table name matches another existing table's
      name read as a LIKE pattern gets no table, although with the probe by
      name it would. */
  lemma LikeProbeSkipsShadowedMarket(existing: Tables, market: string, other: string, failing: set<string>)
    requires other in existing && other != TableName(market) && TableName(market) !in existing
    requires TableName(market) !in failing
    requires Like(TableName(market), other)
    ensures TableName(market) !in Provisioned(existing, [market], failing, AsWritten)
    ensures TableName(market) in Provisioned(existing, [market], failing, Intended)
  {
    assert [market][..0] == [];
    assert TableFound(existing, TableName(market), AsWritten);
  }

  lemma TableNameOfXY()
    ensures TableName("X_Y") == "gdax_x_y_candlesticks"
  {
    var x, y := "X_Y", "x_y";
    assert x[1..] == "_Y" && x[1..][1..] == "Y" && x[1..][1..][1..] == [];
    assert Lower("Y") == "y";
    assert Lower("_Y") == "_y";
    assert Lower(x) == y;
    assert Prefix + y == "gdax_x_y";
    assert "gdax_x_y" + Suffix == "gdax_x_y_candlesticks";
  }

  lemma XYNamesMatch()
    ensures "gdax_x_y_candlesticks" != "gdax_x-y_candlesticks"
    ensures Like("gdax_x_y_candlesticks", "gdax_x-y_candlesticks")
  {
    var name, other := "gdax_x_y_candlesticks", "gdax_x-y_candlesticks";
    assert name[6] != other[6];
    LikeUnderscore(name, other);
  }

  /** The concrete case: an existing table for market "x-y" makes the probe
      for market "X_Y" succeed, so "X_Y" gets no table of its own. */
  lemma LikeProbeSkipsNewMarket()
    ensures var existing := map["gdax_x-y_candlesticks" := map[]];
            && "gdax_x_y_candlesticks" !in Provisioned(existing, ["X_Y"], {}, AsWritten)
            && "gdax_x_y_candlesticks" in Provisioned(existing, ["X_Y"], {}, Intended)
  {
    TableNameOfXY();
    XYNamesMatch();
    LikeProbeSkipsShadowedMarket(map["gdax_x-y_candlesticks" := map[]], "X_Y", "gdax_x-y_candlesticks", {});
  }

  // ---------------------------------------------------------------------
  // One market (the body of the loop in `lambda_handler`)
  // ---------------------------------------------------------------------

  /** What `update_firebase` publishes for a market, with the delta that is logged. */
  datatype Report = Report(market: string, table: string, totalRows: int, rowsAdded: int)

  /** The rows `get_data_from_gdax` hands on. As written, a raising client
      call leaves `data` unbound and the next line raises NameError. */
  function Fetched(response: Option<seq<Row>>, mode: Mode): (r: Result<seq<Row>, Error>)
    ensures response.Some? ==> r == Ok(response.value)
    ensures response.None? && mode == AsWritten ==> r == Err(FetchFailed)
    ensures response.None? && mode == Intended ==> r == Ok([])
  {
    match response
    case Some(data) => Ok(data)
    case None => if mode == AsWritten then Err(FetchFailed) else Ok([])
  }

  /** `insert_rows`: against a table that does not exist every REPLACE fails
      and is skipped. */
  function MergeInto(tables: Tables, name: string, data: seq<Row>): (r: Tables)
    ensures r.Keys == tables.Keys
    ensures name in tables ==> r[name] == Merge(tables[name], data)
    ensures forall n :: n in tables && n != name ==> r[n] == tables[n]
  {
    if name in tables then tables[name := Merge(tables[name], data)] else tables
  }

  /** `get_total_rows`: SELECT COUNT(*) fails on a missing table. */
  function TotalRows(tables: Tables, name: string): (r: Result<int, Error>)
    ensures r.Ok? <==> name in tables
    ensures r.Ok? ==> r.value == |tables[name]| && r.value >= 0
  {
    if name in tables then Ok(|tables[name]|) else Err(NoSuchTable)
  }

  /** `get_rows_added`: the logged delta; negative when the table holds
      fewer rows than were recorded. */
  function RowsAdded(initialCount: int, totalRows: int): (r: int)
    ensures initialCount + r == totalRows
    ensures r < 0 <==> totalRows < initialCount
  {
    totalRows - initialCount
  }

  datatype Step = Step(tables: Tables, outcome: Result<Report, Error>)

  /** Watermarks, windows, forward fetch and merge, backward fetch and merge,
      count and report, for one market. */
  function MarketStep(tables: Tables, market: string, counts: Counts, now: int, fetch: Fetcher, mode: Mode): (s: Step)
    ensures s.tables.Keys == tables.Keys
    ensures s.outcome.Ok? ==> s.outcome.value.market == market && s.outcome.value.table == TableName(market)
  {
    var name := TableName(market);
    var initialCount := counts(name);
    match GetMarks(tables, name, initialCount, now)
    case Err(e) => Step(tables, Err(e))
    case Ok(marks) =>
      var plan := PlanWindows(marks);
      match Fetched(fetch(market, plan.forward.start, plan.forward.end), mode)
      case Err(e) => Step(tables, Err(e))
      case Ok(forward) =>
        var afterForward := MergeInto(tables, name, forward);
        match Fetched(fetch(market, plan.backward.start, plan.backward.end), mode)
        case Err(e) => Step(afterForward, Err(e))
        case Ok(backward) =>
          var afterBackward := MergeInto(afterForward, name, backward);
          match TotalRows(afterBackward, name)
          case Err(e) => Step(afterBackward, Err(e))
          case Ok(total) => Step(afterBackward, Ok(Report(market, name, total, RowsAdded(initialCount, total))))
  }

  /** The exchange returned `row` in the response to some call for a market
      whose table is `name`. */
  ghost predicate Returned(row: Row, name: string, fetch: Fetcher)
  {
    exists m, start, end :: TableName(m) == name && fetch(m, start, end).Some? && row in fetch(m, start, end).value
  }

  /** Every row of `batch` is one the exchange returned for table `name`. */
  ghost predicate FromExchange(batch: seq<Row>, name: string, fetch: Fetcher)
  {
    forall i :: 0 <= i < |batch| ==> Returned(batch[i], name, fetch)
  }

  /** `after` is `before` with rows the exchange returned for table `name`
      merged in: no timestamp is removed, and every timestamp whose row
      changed holds a candle from such a row. */
  ghost predicate Grown(before: Table, after: Table, name: string, fetch: Fetcher)
  {
    exists batch :: FromExchange(batch, name, fetch) && after == Merge(before, batch)
  }

  lemma GrownReflexive(t: Table, name: string, fetch: Fetcher)
    ensures Grown(t, t, name, fetch)
  {
    assert Merge(t, []) == t;
    assert FromExchange([], name, fetch);
  }

  lemma GrownTransitive(a: Table, b: Table, c: Table, name: string, fetch: Fetcher)
    requires Grown(a, b, name, fetch) && Grown(b, c, name, fetch)
    ensures Grown(a, c, name, fetch)
  {
    var x :| FromExchange(x, name, fetch) && b == Merge(a, x);
    var y :| FromExchange(y, name, fetch) && c == Merge(b, y);
    MergeConcat(a, x, y);
    assert forall i :: 0 <= i < |x + y| ==> (x + y)[i] == if i < |x| then x[i] else y[i - |x|];
    assert FromExchange(x + y, name, fetch);
  }

  lemma GrownKeepsRows(a: Table, b: Table, name: string, fetch: Fetcher)
    requires Grown(a, b, name, fetch)
    ensures a.Keys <= b.Keys && |a| <= |b|
  {
    var x :| FromExchange(x, name, fetch) && b == Merge(a, x);
    MergeRowCount(a, x);
  }

  /** Rows handed on by `get_data_from_gdax` for `market` came from the exchange. */
  lemma FetchedFromExchange(fetch: Fetcher, market: string, start: int, end: int, mode: Mode)
    requires Fetched(fetch(market, start, end), mode).Ok?
    ensures FromExchange(Fetched(fetch(market, start, end), mode).value, TableName(market), fetch)
  {
    var rows := Fetched(fetch(market, start, end), mode).value;
    forall i | 0 <= i < |rows| ensures Returned(rows[i], TableName(market), fetch) {
      assert fetch(market, start, end).Some? && rows[i] in fetch(market, start, end).value;
    }
  }

  /** The rows one market's step merges into its table: none when the
      watermarks or the forward fetch fail, the forward rows when the
      backward fetch fails (they are already committed), and the forward
      then the backward rows otherwise; each batch is what the exchange
      returned for the planned window. */
  function StepBatch(tables: Tables, market: string, counts: Counts, now: int, fetch: Fetcher, mode: Mode): seq<Row>
  {
    var name := TableName(market);
    match GetMarks(tables, name, counts(name), now)
    case Err(_) => []
    case Ok(marks) =>
      var plan := PlanWindows(marks);
      match Fetched(fetch(market, plan.forward.start, plan.forward.end), mode)
      case Err(_) => []
      case Ok(forward) =>
        match Fetched(fetch(market, plan.backward.start, plan.backward.end), mode)
        case Err(_) => forward
        case Ok(backward) => forward + backward
  }

  /** Every row a step merges is one the exchange returned for that market. */
  lemma StepBatchFromExchange(tables: Tables, market: string, counts: Counts, now: int, fetch: Fetcher, mode: Mode)
    ensures FromExchange(StepBatch(tables, market, counts, now, fetch, mode), TableName(market), fetch)
  {
    var name := TableName(market);
    var marks := GetMarks(tables, name, counts(name), now);
    if marks.Ok? {
      var plan := PlanWindows(marks.value);
      var forward := Fetched(fetch(market, plan.forward.start, plan.forward.end), mode);
      if forward.Ok? {
        FetchedFromExchange(fetch, market, plan.forward.start, plan.forward.end, mode);
        var backward := Fetched(fetch(market, plan.backward.start, plan.backward.end), mode);
        if backward.Ok? {
          FetchedFromExchange(fetch, market, plan.backward.start, plan.backward.end, mode);
          var x, y := forward.value, backward.value;
          assert forall i :: 0 <= i < |x + y| ==> (x + y)[i] == if i < |x| then x[i] else y[i - |x|];
        }
      }
    }
  }

  /** One market's step leaves the store as the old store with that step's
      batch merged into the market's table. */
  lemma MarketStepMerges(tables: Tables, market: string, counts: Counts, now: int, fetch: Fetcher, mode: Mode)
    ensures MarketStep(tables, market, counts, now, fetch, mode).tables
         == MergeInto(tables, TableName(market), StepBatch(tables, market, counts, now, fetch, mode))
  {
    var s := MarketStep(tables, market, counts, now, fetch, mode);
    var name := TableName(market);
    var marks := GetMarks(tables, name, counts(name), now);
    if marks.Err? {
      assert s.tables == MergeInto(tables, name, []);
    } else {
      var plan := PlanWindows(marks.value);
      var forward := Fetched(fetch(market, plan.forward.start, plan.forward.end), mode);
      if forward.Err? {
        assert s.tables == MergeInto(tables, name, []);
      } else {
        var afterForward := MergeInto(tables, name, forward.value);
        var backward := Fetched(fetch(market, plan.backward.start, plan.backward.end), mode);
        if backward.Ok? {
          assert s.tables == MergeInto(afterForward, name, backward.value);
          if name in tables {
            MergeConcat(tables[name], forward.value, backward.value);
          }
          assert s.tables == MergeInto(tables, name, forward.value + backward.value);
        }
      }
    }
  }

  /** Merging rows the exchange returned for table `name` leaves every table
      grown by such rows. */
  lemma MergeIntoGrows(tables: Tables, name: string, data: seq<Row>, fetch: Fetcher)
    requires FromExchange(data, name, fetch)
    ensures forall n :: n in tables ==> Grown(tables[n], MergeInto(tables, name, data)[n], n, fetch)
  {
    var t := MergeInto(tables, name, data);
    forall n | n in tables ensures Grown(tables[n], t[n], n, fetch) {
      if n == name {
        assert FromExchange(data, n, fetch) && t[n] == Merge(tables[n], data);
      } else {
        GrownReflexive(tables[n], n, fetch);
      }
    }
  }

  /** One market's step writes only that market's table, creates no table,
      and leaves each table its old contents with rows the exchange returned
      for it merged in. */
  lemma MarketStepFrame(tables: Tables, market: string, counts: Counts, now: int, fetch: Fetcher, mode: Mode)
    ensures var s := MarketStep(tables, market, counts, now, fetch, mode);
            && s.tables.Keys == tables.Keys
            && (forall n :: n in tables && n != TableName(market) ==> s.tables[n] == tables[n])
            && (forall n :: n in tables ==> Grown(tables[n], s.tables[n], n, fetch))
  {
    MarketStepMerges(tables, market, counts, now, fetch, mode);
    StepBatchFromExchange(tables, market, counts, now, fetch, mode);
    MergeIntoGrows(tables, TableName(market), StepBatch(tables, market, counts, now, fetch, mode), fetch);
  }

  /** When the table exists, the watermarks can be read and both fetches
      return, the step merges the forward batch and then the backward batch
      into the table and publishes its new size, with the recorded count
      subtracted as the delta. */
  lemma MarketStepCompletes(tables: Tables, market: string, counts: Counts, now: int, fetch: Fetcher, mode: Mode,
                            marks: Marks, forward: seq<Row>, backward: seq<Row>)
    requires TableName(market) in tables
    requires GetMarks(tables, TableName(market), counts(TableName(market)), now) == Ok(marks)
    requires fetch(market, marks.newest, marks.newest + Horizon) == Some(forward)
    requires fetch(market, marks.oldest - Horizon, marks.oldest) == Some(backward)
    ensures var name := TableName(market);
            var t := Merge(Merge(tables[name], forward), backward);
            MarketStep(tables, market, counts, now, fetch, mode)
              == Step(tables[name := t], Ok(Report(market, name, |t|, |t| - counts(name))))
  {
    var name := TableName(market);
    var plan := PlanWindows(marks);
    assert Fetched(fetch(market, plan.forward.start, plan.forward.end), mode) == Ok(forward);
    assert Fetched(fetch(market, plan.backward.start, plan.backward.end), mode) == Ok(backward);
    var t := Merge(Merge(tables[name], forward), backward);
    var afterForward := tables[name := Merge(tables[name], forward)];
    assert MergeInto(tables, name, forward) == afterForward;
    assert MergeInto(afterForward, name, backward) == tables[name := t];
    assert TotalRows(tables[name := t], name) == Ok(|t|);
  }

  /** The published total is the table's row count, the logged delta is that
      total minus the recorded count, and when the recorded count was the
      table's true size the delta is the number of new timestamps. */
  lemma MarketStepReport(tables: Tables, market: string, counts: Counts, now: int, fetch: Fetcher, mode: Mode)
    ensures var s := MarketStep(tables, market, counts, now, fetch, mode);
            var name := TableName(market);
            s.outcome.Ok? ==>
              && name in tables && name in s.tables
              && s.outcome.value.market == market && s.outcome.value.table == name
              && s.outcome.value.totalRows == |s.tables[name]|
              && s.outcome.value.rowsAdded == s.outcome.value.totalRows - counts(name)
              && (counts(name) == |tables[name]| ==>
                    s.outcome.value.rowsAdded == |s.tables[name].Keys - tables[name].Keys| >= 0)
  {
    var s := MarketStep(tables, market, counts, now, fetch, mode);
    var name := TableName(market);
    if s.outcome.Ok? {
      MarketStepMerges(tables, market, counts, now, fetch, mode);
      assert name in s.tables;
      NewKeysCount(tables[name], s.tables[name]);
    }
  }

  /** A table that kept all its timestamps grew by the number of new ones. */
  lemma NewKeysCount(a: Table, b: Table)
    requires a.Keys <= b.Keys
    ensures |b| == |a| + |b.Keys - a.Keys|
  {
    var x, y := a.Keys, b.Keys;
    assert y == x + (y - x) && x !! (y - x);
    assert |y| == |x| + |y - x|;
  }

  // ---------------------------------------------------------------------
  // The run over all markets (`lambda_handler`)
  // ---------------------------------------------------------------------

  datatype Run = Run(tables: Tables, reports: seq<Report>, failure: Option<Error>)

  /** The row count the sink holds for `name` once `reports` have been
      published: the last total published for that table in this run, or
      the count recorded before the run. */
  function LastTotal(counts: Counts, reports: seq<Report>, name: string): int
    decreases |reports|
  {
    if reports == [] then counts(name)
    else if reports[|reports| - 1].table == name then reports[|reports| - 1].totalRows
    else LastTotal(counts, reports[..|reports| - 1], name)
  }

  /** The count read for a table is the total of the last report for it, or
      the count recorded before the run when it has not been reported. */
  lemma {:induction false} RecordedIsLastPublished(counts: Counts, reports: seq<Report>, name: string)
    ensures (forall j :: 0 <= j < |reports| ==> reports[j].table != name) ==> Recorded(counts, reports)(name) == counts(name)
    ensures reports != [] && reports[|reports| - 1].table == name ==>
              Recorded(counts, reports)(name) == reports[|reports| - 1].totalRows
    ensures forall r: Report :: r.table != name ==> Recorded(counts, reports + [r])(name) == Recorded(counts, reports)(name)
    decreases |reports|
  {
    if reports != [] {
      var front := reports[..|reports| - 1];
      RecordedIsLastPublished(counts, front, name);
      assert forall j :: 0 <= j < |front| ==> front[j] == reports[j];
    }
    forall r: Report | r.table != name
      ensures Recorded(counts, reports + [r])(name) == Recorded(counts, reports)(name)
    {
      assert (reports + [r])[..|reports|] == reports;
    }
  }

  /** What `get_initial_rowcount` reads during a run: `update_firebase`
      writes each total to the path the next read of that table uses. */
  function Recorded(counts: Counts, reports: seq<Report>): Counts
  {
    (name: string) => LastTotal(counts, reports, name)
  }

  /** The markets processed in order; the first uncaught exception ends the
      run. Each market reads the recorded count as the run has left it. */
  function RunMarkets(tables: Tables, markets: seq<string>, counts: Counts, now: int, fetch: Fetcher, mode: Mode): (r: Run)
    ensures r.tables.Keys == tables.Keys
    ensures |r.reports| <= |markets|
    decreases |markets|
  {
    if markets == [] then Run(tables, [], None)
    else
      var r := RunMarkets(tables, markets[..|markets| - 1], counts, now, fetch, mode);
      if r.failure.Some? then r
      else Advance(r, MarketStep(r.tables, markets[|markets| - 1], Recorded(counts, r.reports), now, fetch, mode))
  }

  /** Record one market's step: its report, or the exception that ends the run. */
  function Advance(r: Run, s: Step): Run
  {
    match s.outcome
    case Ok(report) => Run(s.tables, r.reports + [report], None)
    case Err(e) => Run(s.tables, r.reports, Some(e))
  }

  /** `lambda_handler`: read the catalog, provision tables, process each market. */
  function Handler(tables: Tables, products: seq<Product>, failing: set<string>, counts: Counts,
                   now: int, fetch: Fetcher, mode: Mode): (r: Run)
    ensures MarketIds(products).Err? ==> r == Run(tables, [], Some(MissingProductId))
    ensures tables.Keys <= r.tables.Keys
  {
    match MarketIds(products)
    case Err(e) => Run(tables, [], Some(e))
    case Ok(markets) => RunMarkets(Provisioned(tables, markets, failing, mode), markets, counts, now, fetch, mode)
  }

  /** A run over one more market is the shorter run followed by that market's step. */
  lemma RunMarketsSnoc(tables: Tables, markets: seq<string>, m: string, counts: Counts, now: int, fetch: Fetcher, mode: Mode)
    ensures var q := RunMarkets(tables, markets, counts, now, fetch, mode);
            RunMarkets(tables, markets + [m], counts, now, fetch, mode)
              == if q.failure.Some? then q else Advance(q, MarketStep(q.tables, m, Recorded(counts, q.reports), now, fetch, mode))
  {
    assert (markets + [m])[..|markets|] == markets;
  }

  /** Once a market has raised, no later market is processed. */
  lemma {:induction false} RunStopsAtFailure(tables: Tables, markets: seq<string>, i: nat, counts: Counts, now: int, fetch: Fetcher, mode: Mode)
    requires i <= |markets|
    requires RunMarkets(tables, markets[..i], counts, now, fetch, mode).failure.Some?
    ensures RunMarkets(tables, markets, counts, now, fetch, mode) == RunMarkets(tables, markets[..i], counts, now, fetch, mode)
    decreases |markets| - i
  {
    if i < |markets| {
      var longer := markets[..i + 1];
      assert longer[..i] == markets[..i];
      RunStopsAtFailure(tables, markets, i + 1, counts, now, fetch, mode);
    } else {
      assert markets[..i] == markets;
    }
  }

  /** A run has no failure exactly when every market is reported. */
  lemma {:induction false} RunReportCount(tables: Tables, markets: seq<string>, counts: Counts, now: int, fetch: Fetcher, mode: Mode)
    ensures var r := RunMarkets(tables, markets, counts, now, fetch, mode);
            r.failure.None? <==> |r.reports| == |markets|
    decreases |markets|
  {
    if markets != [] {
      RunReportCount(tables, markets[..|markets| - 1], counts, now, fetch, mode);
    }
  }

  /** The last market of a run adds at most one report, naming that market. */
  lemma RunLastReport(tables: Tables, markets: seq<string>, counts: Counts, now: int, fetch: Fetcher, mode: Mode)
    requires markets != []
    ensures var n := |markets| - 1;
            var q := RunMarkets(tables, markets[..n], counts, now, fetch, mode);
            var r := RunMarkets(tables, markets, counts, now, fetch, mode);
            || r.reports == q.reports
            || (&& q.failure.None?
                && |r.reports| == |q.reports| + 1
                && r.reports[..|q.reports|] == q.reports
                && r.reports[|q.reports|].market == markets[n]
                && r.reports[|q.reports|].table == TableName(markets[n]))
  {
  }

  /** Each report names the market at its position and that market's table. */
  predicate ReportsFollow(reports: seq<Report>, markets: seq<string>)
  {
    forall j :: 0 <= j < |reports| && j < |markets| ==>
      reports[j].market == markets[j] && reports[j].table == TableName(markets[j])
  }

  lemma ReportsFollowExtend(before: seq<Report>, after: seq<Report>, markets: seq<string>)
    requires markets != [] && |before| <= |markets| - 1
    requires ReportsFollow(before, markets[..|markets| - 1])
    requires || after == before
             || (&& |before| == |markets| - 1
                 && |after| == |before| + 1
                 && after[..|before|] == before
                 && after[|before|].market == markets[|before|]
                 && after[|before|].table == TableName(markets[|before|]))
    ensures ReportsFollow(after, markets)
  {
    var front := markets[..|markets| - 1];
    forall j | 0 <= j < |after| && j < |markets|
      ensures after[j].market == markets[j] && after[j].table == TableName(markets[j])
    {
      if j < |before| {
        assert after[j] == before[j];
        assert front[j] == markets[j];
      }
    }
  }

  /** Reports come in catalog order, each naming its market and its table. */
  lemma {:induction false} RunReportsInOrder(tables: Tables, markets: seq<string>, counts: Counts, now: int, fetch: Fetcher, mode: Mode)
    ensures ReportsFollow(RunMarkets(tables, markets, counts, now, fetch, mode).reports, markets)
    decreases |markets|
  {
    if markets != [] {
      var front := markets[..|markets| - 1];
      RunReportsInOrder(tables, front, counts, now, fetch, mode);
      RunReportCount(tables, front, counts, now, fetch, mode);
      RunLastReport(tables, markets, counts, now, fetch, mode);
      ReportsFollowExtend(RunMarkets(tables, front, counts, now, fetch, mode).reports,
                          RunMarkets(tables, markets, counts, now, fetch, mode).reports, markets);
    }
  }

  /** A run creates no table and leaves each table its old contents with
      rows the exchange returned for it merged in: no row is ever removed. */
  lemma {:induction false} RunOnlyGrows(tables: Tables, markets: seq<string>, counts: Counts, now: int, fetch: Fetcher, mode: Mode)
    ensures var r := RunMarkets(tables, markets, counts, now, fetch, mode);
            forall n :: n in tables ==> Grown(tables[n], r.tables[n], n, fetch)
    decreases |markets|
  {
    if markets == [] {
      forall n | n in tables ensures Grown(tables[n], tables[n], n, fetch) {
        GrownReflexive(tables[n], n, fetch);
      }
    } else {
      var k := |markets| - 1;
      var front := markets[..k];
      RunOnlyGrows(tables, front, counts, now, fetch, mode);
      var q := RunMarkets(tables, front, counts, now, fetch, mode);
      if q.failure.None? {
        var s := MarketStep(q.tables, markets[k], Recorded(counts, q.reports), now, fetch, mode);
        MarketStepFrame(q.tables, markets[k], Recorded(counts, q.reports), now, fetch, mode);
        var r := Advance(q, s);
        assert RunMarkets(tables, markets, counts, now, fetch, mode) == r;
        assert r.tables == s.tables;
        forall n | n in tables ensures Grown(tables[n], r.tables[n], n, fetch) {
          GrownTransitive(tables[n], q.tables[n], r.tables[n], n, fetch);
        }
      }
    }
  }

  /** A table no listed market is named after is not touched by a run. */
  lemma {:induction false} RunLeavesOtherTables(tables: Tables, markets: seq<string>, counts: Counts, now: int, fetch: Fetcher, mode: Mode, n: string)
    requires n in tables
    requires forall j :: 0 <= j < |markets| ==> TableName(markets[j]) != n
    ensures var r := RunMarkets(tables, markets, counts, now, fetch, mode);
            n in r.tables && r.tables[n] == tables[n]
    decreases |markets|
  {
    if markets != [] {
      var k := |markets| - 1;
      var front := markets[..k];
      assert forall j :: 0 <= j < k ==> front[j] == markets[j];
      RunLeavesOtherTables(tables, front, counts, now, fetch, mode, n);
      var q := RunMarkets(tables, front, counts, now, fetch, mode);
      if q.failure.None? {
        var s := MarketStep(q.tables, markets[k], Recorded(counts, q.reports), now, fetch, mode);
        MarketStepMerges(q.tables, markets[k], Recorded(counts, q.reports), now, fetch, mode);
        assert RunMarkets(tables, markets, counts, now, fetch, mode) == Advance(q, s);
      }
    }
  }

  /** Across a whole run, existing tables keep every row they had (each ends
      as its old contents with rows the exchange returned for it merged in),
      and a table that appears belongs to a listed market and holds only rows
      the exchange returned for it. */
  lemma HandlerNeverLosesRows(tables: Tables, products: seq<Product>, failing: set<string>, counts: Counts,
                              now: int, fetch: Fetcher, mode: Mode)
    ensures var h := Handler(tables, products, failing, counts, now, fetch, mode);
            && (forall n :: n in tables ==> Grown(tables[n], h.tables[n], n, fetch))
            && (forall n :: n in h.tables && n !in tables ==>
                  && MarketIds(products).Ok?
                  && (exists j :: 0 <= j < |MarketIds(products).value| && TableName(MarketIds(products).value[j]) == n)
                  && Grown(map[], h.tables[n], n, fetch))
  {
    var h := Handler(tables, products, failing, counts, now, fetch, mode);
    match MarketIds(products)
    case Err(_) =>
      forall n | n in tables ensures Grown(tables[n], h.tables[n], n, fetch) {
        GrownReflexive(tables[n], n, fetch);
      }
    case Ok(markets) =>
      var p := Provisioned(tables, markets, failing, mode);
      ProvisionKeepsExisting(tables, markets, failing, mode);
      ProvisionCreatesOnlyMarketTables(tables, markets, failing, mode);
      RunOnlyGrows(p, markets, counts, now, fetch, mode);
      assert h.tables == RunMarkets(p, markets, counts, now, fetch, mode).tables;
      forall n | n in h.tables && n !in tables
        ensures exists j :: 0 <= j < |markets| && TableName(markets[j]) == n
        ensures Grown(map[], h.tables[n], n, fetch)
      {
        assert n in p && p[n] == map[];
      }
  }

  /** In the intended design a failed fetch never ends the run. */
  lemma {:induction false} IntendedFetchNeverAborts(tables: Tables, markets: seq<string>, counts: Counts, now: int, fetch: Fetcher)
    ensures RunMarkets(tables, markets, counts, now, fetch, Intended).failure != Some(FetchFailed)
    decreases |markets|
  {
    if markets != [] {
      IntendedFetchNeverAborts(tables, markets[..|markets| - 1], counts, now, fetch);
    }
  }

  /** The fetcher with every failure replaced by an empty batch. */
  function EmptyOnFailure(fetch: Fetcher): Fetcher
  {
    (market: string, start: int, end: int) =>
      if fetch(market, start, end).Some? then fetch(market, start, end) else Some([])
  }

  /** In the intended design a failed fetch is indistinguishable from an empty
      one: the run's tables, reports and outcome are the same. */
  lemma {:induction false} IntendedFailureIsEmptyBatch(tables: Tables, markets: seq<string>, counts: Counts, now: int, fetch: Fetcher)
    ensures RunMarkets(tables, markets, counts, now, fetch, Intended)
         == RunMarkets(tables, markets, counts, now, EmptyOnFailure(fetch), Intended)
    decreases |markets|
  {
    if markets != [] {
      var front := markets[..|markets| - 1];
      IntendedFailureIsEmptyBatch(tables, front, counts, now, fetch);
      var r := RunMarkets(tables, front, counts, now, fetch, Intended);
      var m := markets[|markets| - 1];
      IntendedStepIgnoresFailure(r.tables, m, Recorded(counts, r.reports), now, fetch);
    }
  }

  lemma IntendedStepIgnoresFailure(tables: Tables, market: string, counts: Counts, now: int, fetch: Fetcher)
    ensures MarketStep(tables, market, counts, now, fetch, Intended)
         == MarketStep(tables, market, counts, now, EmptyOnFailure(fetch), Intended)
  {
  }

  /** As written, when the first market's exchange call fails the run ends
      there: no later market is fetched, merged or reported, even when its
      own fetches would succeed. */
  lemma AsWrittenFetchFailureEndsRun(tables: Tables, products: seq<Product>, failing: set<string>, counts: Counts,
                                     now: int, fetch: Fetcher)
    requires MarketIds(products).Ok? && |MarketIds(products).value| >= 2
    requires counts(TableName(MarketIds(products).value[0])) <= 0
    requires forall start, end :: fetch(MarketIds(products).value[0], start, end) == None
    ensures var h := Handler(tables, products, failing, counts, now, fetch, AsWritten);
            h.failure == Some(FetchFailed) && h.reports == []
  {
    var markets := MarketIds(products).value;
    var p := Provisioned(tables, markets, failing, AsWritten);
    var first := markets[..1];
    assert first[..0] == [];
    assert RunMarkets(p, first, counts, now, fetch, AsWritten).failure == Some(FetchFailed);
    RunStopsAtFailure(p, markets, 1, counts, now, fetch, AsWritten);
  }

  // ---------------------------------------------------------------------
  // The store, updated in place
  // ---------------------------------------------------------------------

  /** The database: one timestamp-keyed table per market, addressed by name. */
  class Store {
    var tables: Tables

    constructor (initial: Tables)
      ensures tables == initial
    {
      tables := initial;
    }

    /** `check_mysql_tables`: probe each market's table, create it when the
        probe finds none. */
    method CheckTables(markets: seq<string>, failing: set<string>, mode: Mode)
      modifies this
      ensures tables == Provisioned(old(tables), markets, failing, mode)
    {
      var i := 0;
      while i < |markets|
        invariant 0 <= i <= |markets|
        invariant tables == Provisioned(old(tables), markets[..i], failing, mode)
      {
        var name := TableName(markets[i]);
        var found := TableFound(tables, name, mode);
        if !found && name !in failing {
          tables := tables[name := map[]];
        }
        assert markets[..i + 1][..i] == markets[..i];
        i := i + 1;
      }
      assert markets[..|markets|] == markets;
    }

    /** `insert_rows`: one REPLACE per row, a failing row skipped. */
    method InsertRows(name: string, data: seq<Row>)
      modifies this
      ensures tables == MergeInto(old(tables), name, data)
    {
      var i := 0;
      while i < |data|
        invariant 0 <= i <= |data|
        invariant tables == MergeInto(old(tables), name, data[..i])
      {
        match ParseRow(data[i]) {
          case Some(e) =>
            if name in tables {
              tables := tables[name := tables[name][e.time := e.candle]];
            }
          case None =>
        }
        assert data[..i + 1][..i] == data[..i];
        i := i + 1;
      }
      assert data[..|data|] == data;
    }

    /** One pass of the loop in `lambda_handler` for `market`. */
    method SyncMarket(market: string, counts: Counts, now: int, fetch: Fetcher, mode: Mode)
      returns (outcome: Result<Report, Error>)
      modifies this
      ensures Step(tables, outcome) == MarketStep(old(tables), market, counts, now, fetch, mode)
    {
      var name := TableName(market);
      var initialCount := counts(name);
      var marks := GetMarks(tables, name, initialCount, now);
      if marks.Err? {
        return Err(marks.error);
      }
      var plan := PlanWindows(marks.value);
      var forward := Fetched(fetch(market, plan.forward.start, plan.forward.end), mode);
      if forward.Err? {
        return Err(forward.error);
      }
      InsertRows(name, forward.value);
      var backward := Fetched(fetch(market, plan.backward.start, plan.backward.end), mode);
      if backward.Err? {
        return Err(backward.error);
      }
      InsertRows(name, backward.value);
      var total := TotalRows(tables, name);
      if total.Err? {
        return Err(total.error);
      }
      return Ok(Report(market, name, total.value, RowsAdded(initialCount, total.value)));
    }

    /** The market loop of `lambda_handler`: the reports are what is
        published to the sink. */
    method SyncAll(markets: seq<string>, counts: Counts, now: int, fetch: Fetcher, mode: Mode)
      returns (reports: seq<Report>, failure: Option<Error>)
      modifies this
      ensures Run(tables, reports, failure) == RunMarkets(old(tables), markets, counts, now, fetch, mode)
    {
      reports, failure := [], None;
      var i := 0;
      while i < |markets|
        invariant 0 <= i <= |markets|
        invariant Run(tables, reports, None) == RunMarkets(old(tables), markets[..i], counts, now, fetch, mode)
      {
        ghost var before := Run(tables, reports, None);
        var outcome := SyncMarket(markets[i], Recorded(counts, reports), now, fetch, mode);
        assert markets[..i + 1][..i] == markets[..i];
        assert RunMarkets(old(tables), markets[..i + 1], counts, now, fetch, mode)
            == Advance(before, Step(tables, outcome));
        if outcome.Err? {
          RunStopsAtFailure(old(tables), markets, i + 1, counts, now, fetch, mode);
          return reports, Some(outcome.error);
        }
        reports := reports + [outcome.value];
        i := i + 1;
      }
      assert markets[..|markets|] == markets;
    }

    /** `lambda_handler`: read the catalog, provision the tables, run the
        market loop. */
    method LambdaHandler(products: seq<Product>, failing: set<string>, counts: Counts, now: int,
                         fetch: Fetcher, mode: Mode)
      returns (reports: seq<Report>, failure: Option<Error>)
      modifies this
      ensures Run(tables, reports, failure) == Handler(old(tables), products, failing, counts, now, fetch, mode)
    {
      var ids := GetMarkets(products);
      if ids.Err? {
        return [], Some(ids.error);
      }
      var markets := ids.value;
      assert markets == MarketIds(products).value;
      CheckTables(markets, failing, mode);
      reports, failure := SyncAll(markets, counts, now, fetch, mode);
    }
  }
}
