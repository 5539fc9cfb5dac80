/**
 Candlestick rows as the exchange returns them and as the per-market table
 stores them. A fetched row is a list of JSON scalars laid out as
 [time, low, high, open, close, volume]; the table keeps the five prices and
 the volume under the integer `time` primary key.
 */
module Candles {
  import opened Wrappers

  /** One JSON scalar of a fetched row. Anything that is not a number
      (a string, null, a nested value) is `Other`. */
  datatype Field = Int(i: int) | Real(x: real) | Other {
    predicate IsNumber() { !Other? }

    /** The value a MySQL `float` column receives. */
    function AsReal(): real
      requires IsNumber()
    {
      if Int? then i as real else x
    }

    /** The value the `bigint` primary key receives. */
    function AsKey(): (k: int)
      requires IsNumber()
      ensures Int? ==> k == i
    {
      if Int? then i else RoundHalfAway(x)
    }
  }

  type Row = seq<Field>

  /** The stored columns of one row; they are kept, never computed on. */
  datatype Candle = Candle(low: real, high: real, open: real, close: real, volume: real)

  /** A row that the REPLACE statement accepts: its key and its columns. */
  datatype Entry = Entry(time: int, candle: Candle)

  /** MySQL's conversion of an exact-value decimal to an integer column:
      to the nearest integer, halves away from zero. */
  function RoundHalfAway(x: real): (r: int)
    ensures x >= 0.0 ==> x - 0.5 < r as real <= x + 0.5
    ensures x < 0.0 ==> x - 0.5 <= r as real < x + 0.5
  {
    if x >= 0.0 then (x + 0.5).Floor else -((-x + 0.5).Floor)
  }

  /** What the REPLACE INTO statement for one row does: it reads fields 0..5
      (an IndexError when there are fewer) and fails when one of them is not
      a number; fields after the sixth are ignored. */
  function ParseRow(row: Row): (r: Option<Entry>)
    ensures r.Some? <==> |row| >= 6 && forall j :: 0 <= j < 6 ==> row[j].IsNumber()
    ensures r.Some? ==> r.value.time == row[0].AsKey()
    ensures |row| > 6 ==> r == ParseRow(row[..6])
  {
    if |row| < 6 then None
    else if !(row[0].IsNumber() && row[1].IsNumber() && row[2].IsNumber()
              && row[3].IsNumber() && row[4].IsNumber() && row[5].IsNumber()) then None
    else Some(Entry(row[0].AsKey(),
                    Candle(row[1].AsReal(), row[2].AsReal(), row[3].AsReal(),
                           row[4].AsReal(), row[5].AsReal())))
  }

  /** The primary key a row writes, if it is written at all. */
  function KeyOf(row: Row): Option<int>
  {
    match ParseRow(row)
    case None => None
    case Some(e) => Some(e.time)
  }
}
