/** Daily log entries and `logs_to_df`: the frame of a user's logs in date order. */
module Logs {
  import opened Wrappers
  import opened Dates

  /** One daily record; every measured field may be missing. */
  datatype LogEntry = LogEntry(
    date: Date,
    weightKg: Option<real>,
    kcalIn: Option<int>,
    proteinG: Option<int>,
    carbsG: Option<int>,
    fatG: Option<int>,
    steps: Option<int>)

  predicate SortedByDate(s: seq<LogEntry>) {
    forall i, j :: 0 <= i < j < |s| ==> DateLe(s[i].date, s[j].date)
  }

  /** A sorted sequence stays sorted with an entry in front that is not dated after any of it. */
  lemma SortedCons(x: LogEntry, r: seq<LogEntry>)
    requires SortedByDate(r)
    requires forall y | y in r :: DateLe(x.date, y.date)
    ensures SortedByDate([x] + r)
  {
    forall i, j | 0 <= i < j < |[x] + r|
      ensures DateLe(([x] + r)[i].date, ([x] + r)[j].date)
    {
      if i > 0 {
        assert ([x] + r)[i] == r[i - 1] && ([x] + r)[j] == r[j - 1];
      } else {
        assert ([x] + r)[j] == r[j - 1];
        assert r[j - 1] in r;
      }
    }
  }

  /** Places `e` in front of the first entry dated after it. */
  function InsertByDate(e: LogEntry, s: seq<LogEntry>): (r: seq<LogEntry>)
    requires SortedByDate(s)
    ensures SortedByDate(r)
    ensures multiset(r) == multiset(s) + multiset{e}
    ensures forall x :: x in r <==> x in s || x == e
  {
    if s == [] then [e]
    else if DateLe(e.date, s[0].date) then
      assert forall y | y in s :: DateLe(e.date, y.date) by {
        forall y | y in s ensures DateLe(e.date, y.date) {
          var k :| 0 <= k < |s| && s[k] == y;
          if k > 0 { DateLeTransitive(e.date, s[0].date, y.date); }
        }
      }
      SortedCons(e, s);
      [e] + s
    else
      var rest := InsertByDate(e, s[1..]);
      assert s == [s[0]] + s[1..];
      assert forall y | y in rest :: DateLe(s[0].date, y.date) by {
        DateLeTotal(e.date, s[0].date);
        forall y | y in rest ensures DateLe(s[0].date, y.date) {
          if y != e {
            var k :| 0 <= k < |s[1..]| && s[1..][k] == y;
            assert s[k + 1] == y;
          }
        }
      }
      SortedCons(s[0], rest);
      [s[0]] + rest
  }

  /**
   * `logs_to_df(logs)`: an empty list gives an empty frame; otherwise the same entries in
   * ascending date order.
   */
  function LogsToFrame(logs: seq<LogEntry>): (r: seq<LogEntry>)
    ensures SortedByDate(r)
    ensures multiset(r) == multiset(logs)
  {
    if logs == [] then []
    else
      assert logs == [logs[0]] + logs[1..];
      InsertByDate(logs[0], LogsToFrame(logs[1..]))
  }
}
