/**
 Watermarks and fetch windows. The newest and oldest stored timestamps of a
 market's table bound what is already synchronised; each run asks the
 exchange for three hours after the newest and three hours before the oldest.
 */
module Watermarks {
  import opened Wrappers
  import opened MergeWriter

  /** Seconds in one fetch window: three hours. */
  const Horizon := 10800

  predicate AtMost(s: set<int>, m: int) { forall k :: k in s ==> k <= m }
  predicate AtLeast(s: set<int>, m: int) { forall k :: k in s ==> m <= k }

  lemma Element(s: set<int>) returns (x: int)
    requires s != {}
    ensures x in s
  {
    if forall y :: y !in s {
      assert false;
    }
    x :| x in s;
  }

  lemma {:induction false} MaxExists(s: set<int>)
    requires s != {}
    ensures exists m :: m in s && AtMost(s, m)
    decreases |s|
  {
    var x := Element(s);
    var rest := s - {x};
    if rest == {} {
      forall k | k in s ensures k == x { assert k !in rest; }
      assert AtMost(s, x);
    } else {
      MaxExists(rest);
      var hi :| hi in rest && AtMost(rest, hi);
      var top := if x < hi then hi else x;
      forall k | k in s ensures k <= top { if k != x { assert k in rest; } }
      assert top in s && AtMost(s, top);
    }
  }

  lemma {:induction false} MinExists(s: set<int>)
    requires s != {}
    ensures exists m :: m in s && AtLeast(s, m)
    decreases |s|
  {
    var x := Element(s);
    var rest := s - {x};
    if rest == {} {
      forall k | k in s ensures k == x { assert k !in rest; }
      assert AtLeast(s, x);
    } else {
      MinExists(rest);
      var lo :| lo in rest && AtLeast(rest, lo);
      var bottom := if lo < x then lo else x;
      forall k | k in s ensures bottom <= k { if k != x { assert k in rest; } }
      assert bottom in s && AtLeast(s, bottom);
    }
  }

  /** SELECT MAX(time) over a non-empty table. */
  function Newest(s: set<int>): (r: int)
    requires s != {}
    ensures r in s && forall k :: k in s ==> k <= r
  {
    MaxExists(s);
    var m :| m in s && AtMost(s, m); m
  }

  /** SELECT MIN(time) over a non-empty table. */
  function Oldest(s: set<int>): (r: int)
    requires s != {}
    ensures r in s && forall k :: k in s ==> r <= k
  {
    MinExists(s);
    var m :| m in s && AtLeast(s, m); m
  }

  datatype Marks = Marks(newest: int, oldest: int)

  /** `get_newest_oldest_entries`. The branch is chosen by the row count the
      reporting sink recorded on the previous run, not by the table itself:
      with a positive count the table is queried (failing when it does not
      exist, or when it is empty and MAX(time) is NULL); otherwise both
      watermarks are the current time. */
  function GetMarks(store: map<string, Table>, name: string, initialCount: int, now: int): (r: Result<Marks, Error>)
    ensures initialCount <= 0 ==> r == Ok(Marks(now, now))
    ensures initialCount > 0 && name !in store ==> r == Err(NoSuchTable)
    ensures initialCount > 0 && name in store && store[name] == map[] ==> r == Err(EmptyTable)
    ensures initialCount > 0 && name in store && store[name] != map[] ==> r.Ok?
    ensures initialCount > 0 && r.Ok? ==>
              && name in store
              && r.value.newest in store[name] && r.value.oldest in store[name]
              && forall k :: k in store[name] ==> r.value.oldest <= k <= r.value.newest
  {
    if initialCount <= 0 then Ok(Marks(now, now))
    else if name !in store then Err(NoSuchTable)
    else if store[name] == map[] then Err(EmptyTable)
    else Ok(Marks(Newest(store[name].Keys), Oldest(store[name].Keys)))
  }

  /** A fetch window [start, end] in seconds since the epoch. */
  datatype Window = Window(start: int, end: int) {
    predicate Contains(k: int) { start <= k <= end }
  }

  datatype Plan = Plan(forward: Window, backward: Window)

  /** `get_start_end_datetime` on integer seconds: forward from the newest
      watermark, backward from the oldest, neither clamped to the clock. Both
      windows are exactly three hours wide and are anchored at the
      watermarks: the forward one starts at the newest, the backward one ends
      at the oldest. */
  function PlanWindows(m: Marks): (p: Plan)
    ensures p.forward.start == m.newest && p.forward.end - p.forward.start == Horizon
    ensures p.backward.end == m.oldest && p.backward.end - p.backward.start == Horizon
  {
    Plan(Window(m.newest, m.newest + Horizon), Window(m.oldest - Horizon, m.oldest))
  }

  /** When the table is queried, the watermarks are ordered and the windows
      meet the stored timestamps only at the watermarks themselves. */
  lemma WindowsTouchStoredRangeAtEnds(store: map<string, Table>, name: string, initialCount: int, now: int)
    requires initialCount > 0
    requires GetMarks(store, name, initialCount, now).Ok?
    ensures var m := GetMarks(store, name, initialCount, now).value;
            && m.oldest <= m.newest
            && (forall k :: k in store[name] && PlanWindows(m).forward.Contains(k) ==> k == m.newest)
            && (forall k :: k in store[name] && PlanWindows(m).backward.Contains(k) ==> k == m.oldest)
  {
  }

  /** Cold start as the code has it: with no recorded rows, both windows are
      full three-hour windows around the current time; the backward one is
      not of zero width. */
  lemma ColdStartWindows(store: map<string, Table>, name: string, initialCount: int, now: int)
    requires initialCount <= 0
    ensures GetMarks(store, name, initialCount, now).Ok?
    ensures var p := PlanWindows(GetMarks(store, name, initialCount, now).value);
            p.forward == Window(now, now + Horizon) && p.backward == Window(now - Horizon, now)
  {
  }
}
