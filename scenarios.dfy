/**
 Two worked runs of one market's step, with the constants of
 get_gdax_candlesticks.py (three-hour windows).
 */
module Scenarios {
  import opened Wrappers
  import opened Candles
  import opened MergeWriter
  import opened Naming
  import opened Watermarks
  import opened Sync

  const Flat := Candle(1.0, 1.0, 1.0, 1.0, 1.0)

  function RowAt(time: int): Row
  {
    [Int(time), Real(1.0), Real(1.0), Real(1.0), Real(1.0), Real(1.0)]
  }

  /** The stored table: candles at 1000, 2000 and 3000. */
  function WarmTable(): Table
  {
    map[1000 := Flat, 2000 := Flat, 3000 := Flat]
  }

  /** The same table with candles at -9800 and 13800 added. */
  function WarmAfter(): Table
  {
    WarmTable()[13800 := Flat][-9800 := Flat]
  }

  /** An exchange that has one candle at the far end of each of the two
      windows planned for the stored table, and none anywhere else. */
  function WarmFetch(): Fetcher
  {
    (m: string, start: int, end: int) =>
      if start == 3000 then Some([RowAt(13800)])
      else if end == 1000 then Some([RowAt(-9800)])
      else Some([])
  }

  lemma WarmMarks(name: string, now: int)
    ensures GetMarks(map[name := WarmTable()], name, 3, now) == Ok(Marks(3000, 1000))
    ensures GetMarks(map[name := WarmAfter()], name, 5, now) == Ok(Marks(13800, -9800))
    ensures WarmAfter().Keys == {-9800, 1000, 2000, 3000, 13800} && |WarmAfter()| == 5
  {
    assert WarmTable().Keys == {1000, 2000, 3000};
    assert WarmAfter().Keys == {-9800, 1000, 2000, 3000, 13800};
    WarmExtremes();
  }

  /** A table holding 1000, 2000 and 3000 with a recorded count of 3: the
      watermarks are (3000, 1000), the windows (3000, 13800) and
      (-9800, 1000); the exchange returns one candle at each far end, so the
      table ends with 5 rows, 2 of them new, and watermarks (13800, -9800). */
  lemma WarmTableStep(market: string, counts: Counts, now: int)
    requires counts(TableName(market)) == 3
    ensures var name := TableName(market);
            var tables := map[name := WarmTable()];
            var s := MarketStep(tables, market, counts, now, WarmFetch(), AsWritten);
            && GetMarks(tables, name, 3, now) == Ok(Marks(3000, 1000))
            && PlanWindows(Marks(3000, 1000)) == Plan(Window(3000, 13800), Window(-9800, 1000))
            && s.outcome == Ok(Report(market, name, 5, 2))
            && s.tables[name].Keys == {-9800, 1000, 2000, 3000, 13800}
            && GetMarks(s.tables, name, 5, now) == Ok(Marks(13800, -9800))
  {
    WarmMarks(TableName(market), now);
    WarmStepResult(market, counts, now);
  }

  lemma WarmStepResult(market: string, counts: Counts, now: int)
    requires counts(TableName(market)) == 3
    ensures var name := TableName(market);
            MarketStep(map[name := WarmTable()], market, counts, now, WarmFetch(), AsWritten)
              == Step(map[name := WarmAfter()], Ok(Report(market, name, 5, 2)))
  {
    var name := TableName(market);
    var tables := map[name := WarmTable()];
    WarmMarks(name, now);
    WarmMerged();
    MarketStepCompletes(tables, market, counts, now, WarmFetch(), AsWritten, Marks(3000, 1000), [RowAt(13800)], [RowAt(-9800)]);
    Overwrite(name, WarmTable(), WarmAfter());
  }

  lemma Overwrite(name: string, before: Table, after: Table)
    ensures map[name := before][name := after] == map[name := after]
  {
  }

  lemma WarmMerged()
    ensures Merge(Merge(WarmTable(), [RowAt(13800)]), [RowAt(-9800)]) == WarmAfter()
  {
    var t0 := WarmTable();
    MergeOneRow(t0, 13800);
    MergeOneRow(t0[13800 := Flat], -9800);
  }

  lemma MergeOneRow(t: Table, time: int)
    ensures Merge(t, [RowAt(time)]) == t[time := Flat]
  {
    assert [RowAt(time)][..0] == [];
  }

  lemma WarmExtremes()
    ensures Newest({1000, 2000, 3000}) == 3000 && Oldest({1000, 2000, 3000}) == 1000
    ensures Newest({-9800, 1000, 2000, 3000, 13800}) == 13800
    ensures Oldest({-9800, 1000, 2000, 3000, 13800}) == -9800
  {
    var before: set<int> := {1000, 2000, 3000};
    var after: set<int> := {-9800, 1000, 2000, 3000, 13800};
    assert 1000 in before && 3000 in before;
    assert -9800 in after && 13800 in after;
  }

  /** An empty table with no recorded rows at time 5000000: the windows are
      (5000000, 5010800) and (4989200, 5000000); when both fetches return
      nothing the table stays empty and no row is added. */
  lemma ColdTableStep(market: string, counts: Counts)
    requires counts(TableName(market)) == 0
    ensures var name := TableName(market);
            var tables := map[name := map[]];
            var fetch: Fetcher := (m: string, start: int, end: int) => Some([]);
            var s := MarketStep(tables, market, counts, 5000000, fetch, AsWritten);
            && GetMarks(tables, name, 0, 5000000) == Ok(Marks(5000000, 5000000))
            && PlanWindows(Marks(5000000, 5000000)) == Plan(Window(5000000, 5010800), Window(4989200, 5000000))
            && s.outcome == Ok(Report(market, name, 0, 0))
            && s.tables == tables
  {
    var empty: Table := map[];
    assert Merge(empty, []) == empty;
  }

  /** An exchange with a single candle, at `now`, returned for the window
      that starts at `now`; every other window is empty. */
  function OneCandleAt(now: int): Fetcher
  {
    (m: string, start: int, end: int) => if start == now then Some([RowAt(now)]) else Some([])
  }

  /** A pass over an empty table with no recorded rows stores the candle
      at `now` and reports 1 row, 1 of them added. */
  lemma ColdPassAddsCandle(market: string, counts: Counts, now: int)
    requires counts(TableName(market)) == 0
    ensures var name := TableName(market);
            MarketStep(map[name := map[]], market, counts, now, OneCandleAt(now), AsWritten)
              == Step(map[name := map[now := Flat]], Ok(Report(market, name, 1, 1)))
  {
    var empty: Table := map[];
    MergeOneRow(empty, now);
    assert Merge(map[now := Flat], []) == map[now := Flat];
    MarketStepCompletes(map[TableName(market) := empty], market, counts, now, OneCandleAt(now), AsWritten,
                        Marks(now, now), [RowAt(now)], []);
  }

  /** A pass over the table holding the candle at `now`, with a recorded
      count of 1, fetches the same windows and adds nothing. */
  lemma WarmPassAddsNothing(market: string, counts: Counts, now: int)
    requires counts(TableName(market)) == 1
    ensures var name := TableName(market);
            MarketStep(map[name := map[now := Flat]], market, counts, now, OneCandleAt(now), AsWritten)
              == Step(map[name := map[now := Flat]], Ok(Report(market, name, 1, 0)))
  {
    var name := TableName(market);
    var one: Table := map[now := Flat];
    assert one.Keys == {now};
    assert GetMarks(map[name := one], name, 1, now) == Ok(Marks(now, now));
    MergeOneRow(one, now);
    assert one[now := Flat] == one;
    assert Merge(one, []) == one;
    MarketStepCompletes(map[name := one], market, counts, now, OneCandleAt(now), AsWritten,
                        Marks(now, now), [RowAt(now)], []);
  }

  /** A market listed twice reads, on its second pass, the total published
      on its first: an empty table with no recorded rows gains the candle at
      `now` on the first pass (1 row, 1 added), and the second pass, now on
      the query path, fetches the same window again and adds nothing. */
  lemma RepeatedMarketReadsPublishedCount(market: string, counts: Counts, now: int)
    requires counts(TableName(market)) == 0
    ensures var name := TableName(market);
            var r := RunMarkets(map[name := map[]], [market, market], counts, now, OneCandleAt(now), AsWritten);
            r.failure == None && r.reports == [Report(market, name, 1, 1), Report(market, name, 1, 0)]
  {
    var name := TableName(market);
    var t0: Tables := map[name := map[]];
    var t1: Tables := map[name := map[now := Flat]];
    var fetch := OneCandleAt(now);
    var first := Report(market, name, 1, 1);
    assert Recorded(counts, [])(name) == 0;
    ColdPassAddsCandle(market, Recorded(counts, []), now);
    RunMarketsSnoc(t0, [], market, counts, now, fetch, AsWritten);
    assert [] + [market] == [market];
    assert RunMarkets(t0, [market], counts, now, fetch, AsWritten) == Run(t1, [first], None);
    assert Recorded(counts, [first])(name) == 1;
    WarmPassAddsNothing(market, Recorded(counts, [first]), now);
    RunMarketsSnoc(t0, [market], market, counts, now, fetch, AsWritten);
    assert [market] + [market] == [market, market];
  }
}
