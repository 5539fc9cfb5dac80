/**
 Table names and the table-existence probe. Every per-market table is named
 `gdax_<market in lower case>_candlesticks`; `check_mysql_tables` looks the
 name up with `SHOW TABLES LIKE "<name>"`, where the name is read as a LIKE
 pattern.
 */
module Naming {

  /** `str.lower` on one character, for the ASCII letters. */
  function LowerChar(c: char): (d: char)
    ensures 'A' <= c <= 'Z' ==> 'a' <= d <= 'z' && d as int == c as int + 32
    ensures !('A' <= c <= 'Z') ==> d == c
  {
    if 'A' <= c <= 'Z' then (c as int + 32) as char else c
  }

  function Lower(s: string): (r: string)
    ensures |r| == |s|
    ensures forall j :: 0 <= j < |s| ==> r[j] == LowerChar(s[j])
  {
    if s == [] then [] else [LowerChar(s[0])] + Lower(s[1..])
  }

  const Prefix := "gdax_"
  const Suffix := "_candlesticks"

  /** The table a market's candles live in; the same expression names it at
      creation and at every later use. */
  function TableName(market: string): (r: string)
    ensures |r| == |Prefix| + |market| + |Suffix|
    ensures r[..|Prefix|] == Prefix && r[|r| - |Suffix|..] == Suffix
    ensures r[|Prefix|..|r| - |Suffix|] == Lower(market)
  {
    Prefix + Lower(market) + Suffix
  }

  /** Two markets share a table exactly when they agree after lower-casing. */
  lemma TableNameSameIffLowerSame(a: string, b: string)
    ensures TableName(a) == TableName(b) <==> Lower(a) == Lower(b)
  {
    if TableName(a) == TableName(b) {
      var ta, tb := TableName(a), TableName(b);
      assert |Lower(a)| == |Lower(b)|;
      assert Lower(a) == ta[|Prefix|..|ta| - |Suffix|];
      assert Lower(b) == tb[|Prefix|..|tb| - |Suffix|];
    }
  }

  /** Lower-casing is idempotent, so a market written in either case
      addresses the same table. */
  lemma TableNameIgnoresCase(market: string)
    ensures TableName(Lower(market)) == TableName(market)
  {
    assert Lower(Lower(market)) == Lower(market);
    TableNameSameIffLowerSame(Lower(market), market);
  }

  /** SQL LIKE as MySQL evaluates it: `_` matches one character, `%` any
      run of characters, every other character itself. */
  predicate Like(pattern: string, s: string)
    ensures Like(pattern, s) && '%' !in pattern ==> |pattern| == |s|
    ensures Like(pattern, s) && '%' !in pattern ==>
              forall j :: 0 <= j < |s| && pattern[j] != '_' ==> pattern[j] == s[j]
    decreases |pattern| + |s|
  {
    if pattern == [] then s == []
    else if pattern[0] == '%' then Like(pattern[1..], s) || (s != [] && Like(pattern, s[1..]))
    else s != [] && (pattern[0] == '_' || pattern[0] == s[0]) && Like(pattern[1..], s[1..])
  }

  /** A name always matches itself read as a pattern, so an existing table is
      always found. */
  lemma {:induction false} LikeReflexive(s: string)
    ensures Like(s, s)
    decreases |s|
  {
    if s != [] {
      LikeReflexive(s[1..]);
      if s[0] == '%' {
        assert Like(s[1..], s[1..]);
        assert Like(s, s[1..]);
      }
    }
  }

  /** A pattern without `%` matches every string of its length that agrees
      with it wherever the pattern has no `_`. */
  lemma {:induction false} LikeUnderscore(pattern: string, s: string)
    requires |pattern| == |s|
    requires forall j :: 0 <= j < |s| ==> pattern[j] != '%' && (pattern[j] == '_' || pattern[j] == s[j])
    ensures Like(pattern, s)
    decreases |s|
  {
    if s != [] {
      LikeUnderscore(pattern[1..], s[1..]);
    }
  }
}
