/**
 The merge writer: `insert_rows` issues one `REPLACE INTO` per fetched row,
 keyed by the `time` primary key. A table is a map from timestamp to candle,
 so two rows with one timestamp cannot exist. A row that fails is skipped and
 the rest of the batch is still written.
 */
module MergeWriter {
  import opened Wrappers
  import opened Candles

  type Table = map<int, Candle>

  /** One REPLACE INTO: replace the row with that time if present, else insert. */
  function Upsert(t: Table, row: Row): (r: Table)
    ensures ParseRow(row).None? ==> r == t
    ensures ParseRow(row).Some? ==>
              var e := ParseRow(row).value;
              && r.Keys == t.Keys + {e.time}
              && r[e.time] == e.candle
              && forall k :: k in t && k != e.time ==> r[k] == t[k]
  {
    match ParseRow(row)
    case None => t
    case Some(e) => t[e.time := e.candle]
  }

  /** The table after the rows of `data` are replaced into it in order. */
  function Merge(t: Table, data: seq<Row>): (r: Table)
    ensures t.Keys <= r.Keys
    decreases |data|
  {
    if data == [] then t
    else Upsert(Merge(t, data[..|data| - 1]), data[|data| - 1])
  }

  /** What a batch writes, as a table of its own. */
  function Batch(data: seq<Row>): Table
  {
    Merge(map[], data)
  }

  /** The timestamps of the well-formed rows of a batch. */
  function BatchKeys(data: seq<Row>): set<int>
  {
    set j | 0 <= j < |data| && KeyOf(data[j]).Some? :: KeyOf(data[j]).value
  }

  /** Row `i` is the last well-formed row of `data` with timestamp `k`. */
  predicate LastWriteAt(data: seq<Row>, k: int, i: int)
  {
    && 0 <= i < |data|
    && KeyOf(data[i]) == Some(k)
    && forall j :: i < j < |data| ==> KeyOf(data[j]) != Some(k)
  }

  lemma UpsertOverride(t: Table, b: Table, row: Row)
    ensures Upsert(t + b, row) == t + Upsert(b, row)
  {
    match ParseRow(row)
    case None =>
    case Some(e) =>
      assert (t + b)[e.time := e.candle] == t + b[e.time := e.candle];
  }

  /** Merging a batch into a table overrides the table with the batch:
      every timestamp the batch writes takes the batch's value, the others
      keep theirs. */
  lemma {:induction false} MergeIsOverride(t: Table, data: seq<Row>)
    ensures Merge(t, data) == t + Batch(data)
    decreases |data|
  {
    if data == [] {
      assert t + map[] == t;
    } else {
      var front := data[..|data| - 1];
      MergeIsOverride(t, front);
      UpsertOverride(t, Batch(front), data[|data| - 1]);
    }
  }

  lemma {:induction false} BatchKeysExact(data: seq<Row>)
    ensures Batch(data).Keys == BatchKeys(data)
    decreases |data|
  {
    if data != [] {
      var n := |data| - 1;
      var front := data[..n];
      BatchKeysExact(front);
      assert forall j :: 0 <= j < n ==> front[j] == data[j];
      var last := if KeyOf(data[n]).Some? then {KeyOf(data[n]).value} else {};
      assert BatchKeys(data) == BatchKeys(front) + last by {
        forall k | k in BatchKeys(data) ensures k in BatchKeys(front) + last {
          var j :| 0 <= j < |data| && KeyOf(data[j]).Some? && KeyOf(data[j]).value == k;
          if j < n { assert KeyOf(front[j]).value == k; }
        }
      }
    }
  }

  /** The key set after a merge is the old key set plus the batch's keys. */
  lemma MergeKeys(t: Table, data: seq<Row>)
    ensures Merge(t, data).Keys == t.Keys + BatchKeys(data)
  {
    MergeIsOverride(t, data);
    BatchKeysExact(data);
  }

  lemma {:induction false} BatchLastWrite(data: seq<Row>, k: int, i: int)
    requires LastWriteAt(data, k, i)
    ensures k in Batch(data) && Batch(data)[k] == ParseRow(data[i]).value.candle
    decreases |data|
  {
    var n := |data| - 1;
    var front := data[..n];
    if i < n {
      assert front[i] == data[i];
      assert LastWriteAt(front, k, i);
      BatchLastWrite(front, k, i);
      assert KeyOf(data[n]) != Some(k);
    }
  }

  /** Last write wins: a timestamp written by the batch holds the columns of
      the last well-formed row with that timestamp. */
  lemma MergeLastWriteWins(t: Table, data: seq<Row>, k: int, i: int)
    requires LastWriteAt(data, k, i)
    ensures k in Merge(t, data) && Merge(t, data)[k] == ParseRow(data[i]).value.candle
  {
    MergeIsOverride(t, data);
    BatchLastWrite(data, k, i);
  }

  /** Every timestamp of the batch has a last write. */
  lemma {:induction false} LastWriteExists(data: seq<Row>, k: int)
    requires k in BatchKeys(data)
    ensures exists i :: LastWriteAt(data, k, i)
    decreases |data|
  {
    var n := |data| - 1;
    if KeyOf(data[n]) == Some(k) {
      assert LastWriteAt(data, k, n);
    } else {
      var front := data[..n];
      var j :| 0 <= j < |data| && KeyOf(data[j]).Some? && KeyOf(data[j]).value == k;
      assert front[j] == data[j];
      LastWriteExists(front, k);
      var i :| LastWriteAt(front, k, i);
      assert forall m :: i < m < n ==> front[m] == data[m];
      assert LastWriteAt(data, k, i);
    }
  }

  /** A timestamp the batch does not write keeps its row, or stays absent. */
  lemma MergeKeepsUnwritten(t: Table, data: seq<Row>, k: int)
    requires k !in BatchKeys(data)
    ensures k in Merge(t, data) <==> k in t
    ensures k in t ==> Merge(t, data)[k] == t[k]
  {
    MergeIsOverride(t, data);
    BatchKeysExact(data);
  }

  /** Merging the same batch twice leaves the table as merging it once. */
  lemma MergeIdempotent(t: Table, data: seq<Row>)
    ensures Merge(Merge(t, data), data) == Merge(t, data)
  {
    MergeIsOverride(t, data);
    MergeIsOverride(Merge(t, data), data);
    var b := Batch(data);
    assert (t + b) + b == t + b;
  }

  /** Two merges in a row are one merge of the concatenated batches. */
  lemma {:induction false} MergeConcat(t: Table, a: seq<Row>, b: seq<Row>)
    ensures Merge(Merge(t, a), b) == Merge(t, a + b)
    decreases |b|
  {
    if b == [] {
      assert a + b == a;
    } else {
      var n := |b| - 1;
      MergeConcat(t, a, b[..n]);
      assert (a + b)[..|a + b| - 1] == a + b[..n];
      assert (a + b)[|a + b| - 1] == b[n];
    }
  }

  /** Per-row isolation: a row that fails to insert changes nothing, and the
      rows around it are written as if it were not there. */
  lemma FailedRowSkipped(t: Table, before: seq<Row>, row: Row, after: seq<Row>)
    requires ParseRow(row).None?
    ensures Merge(t, before + [row] + after) == Merge(t, before + after)
  {
    MergeConcat(t, before + [row], after);
    MergeConcat(t, before, [row]);
    assert [row][..0] == [];
    MergeConcat(t, before, after);
  }

  /** The row count never decreases, and grows by at most one per fetched row. */
  lemma {:induction false} MergeRowCount(t: Table, data: seq<Row>)
    ensures |t| <= |Merge(t, data)| <= |t| + |data|
    decreases |data|
  {
    if data != [] {
      MergeRowCount(t, data[..|data| - 1]);
    }
  }
}
