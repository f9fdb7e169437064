// Collecting and pruning metric samples: what the table holds after any interleaving, and
// when a query cannot tell that samples were pruned.
module Retention {
  import opened Text
  import opened Grouping
  import opened Metrics
  import opened Aggregate
  import opened Runs

  const DAY_MS: nat := 86_400_000

  // ----- The table -----------------------------------------------------------

  /** The rows with timestamp at or above the cutoff. */
  function From(rows: seq<Row>, cutoff: int): (r: seq<Row>)
    ensures |r| <= |rows|
  {
    if rows == [] then []
    else if rows[0].timestamp >= cutoff then [rows[0]] + From(rows[1..], cutoff)
    else From(rows[1..], cutoff)
  }

  class MetricsTable {
    var rows: seq<Row>

    constructor ()
      ensures rows == []
    {
      rows := [];
    }

    method InsertMany(samples: seq<Row>)
      modifies this
      ensures rows == old(rows) + samples
    {
      if |samples| == 0 {
        return;
      }
      var i := 0;
      while i < |samples|
        invariant 0 <= i <= |samples|
        invariant rows == old(rows) + samples[..i]
      {
        rows := rows + [samples[i]];
        i := i + 1;
      }
    }

    method DeleteOlderThan(cutoff: int) returns (changes: nat)
      modifies this
      ensures rows == From(old(rows), cutoff) && changes == |old(rows)| - |rows|
    {
      var kept := From(rows, cutoff);
      changes := |rows| - |kept|;
      rows := kept;
    }

    /** collectOnce: one sample per process, all stamped with the same instant; a daemon
        that cannot be listed leaves the table alone. */
    method CollectOnce(procs: Option<seq<Row>>, now: nat)
      modifies this
      ensures rows == Apply(old(rows), Collect(now, procs))
      ensures procs.None? ==> rows == old(rows)
      ensures procs.Some? ==> old(rows) <= rows && |rows| == |old(rows)| + |procs.value|
      ensures procs.Some? ==>
        forall i :: 0 <= i < |procs.value| ==> rows[|old(rows)| + i] == procs.value[i].(timestamp := now)
    {
      if procs.None? {
        return;
      }
      InsertMany(StampAll(procs.value, now));
    }

    /** The first statement of runRetention: the metrics. */
    method RunRetention(now: nat, retentionDays: nat) returns (removed: nat)
      modifies this
      ensures rows == Apply(old(rows), Sweep(now, retentionDays)) && removed == |old(rows)| - |rows|
    {
      removed := DeleteOlderThan(now - retentionDays * DAY_MS);
    }
  }

  // ----- Runs ----------------------------------------------------------------

  datatype Event =
    | Collect(now: nat, procs: Option<seq<Row>>)
    | Sweep(now: nat, days: nat)

  function StampAll(procs: seq<Row>, now: nat): (r: seq<Row>)
    ensures |r| == |procs| && forall x :: x in r ==> x.timestamp == now
    ensures forall i :: 0 <= i < |procs| ==> r[i] == procs[i].(timestamp := now)
  {
    seq(|procs|, i requires 0 <= i < |procs| => procs[i].(timestamp := now))
  }

  function Samples(e: Event): seq<Row> {
    if e.Collect? && e.procs.Some? then StampAll(e.procs.value, e.now) else []
  }

  function Apply(rows: seq<Row>, e: Event): seq<Row> {
    match e
    case Collect(now, procs) => rows + Samples(e)
    case Sweep(now, days) => From(rows, now - days * DAY_MS)
  }

  function TableAfter(es: seq<Event>, n: nat): seq<Row>
    requires n <= |es|
  {
    After(Apply, [], es, n)
  }

  /** Every sample ever inserted. */
  function HistoryAfter(es: seq<Event>, n: nat): seq<Row>
    requires n <= |es|
  {
    if n == 0 then [] else HistoryAfter(es, n - 1) + Samples(es[n - 1])
  }

  /** The largest cutoff used so far, or 0. */
  function CutoffAfter(es: seq<Event>, n: nat): (c: nat)
    requires n <= |es|
  {
    if n == 0 then 0 else NextCutoff(CutoffAfter(es, n - 1), es[n - 1])
  }

  function NextCutoff(c: nat, e: Event): nat {
    if e.Sweep? && e.now - e.days * DAY_MS > c then e.now - e.days * DAY_MS else c
  }

  /** The clock never goes back. */
  predicate ClockMonotone(es: seq<Event>) {
    forall i, j :: 0 <= i < j < |es| ==> es[i].now <= es[j].now
  }

  lemma {:induction false} FromMembers(rows: seq<Row>, c: int, x: Row)
    ensures x in From(rows, c) <==> x in rows && x.timestamp >= c
    decreases |rows|
  {
    if rows != [] {
      FromMembers(rows[1..], c, x);
    }
  }

  /** A sweep removes exactly the samples older than the given number of days. */
  lemma SweepCounts(rows: seq<Row>, now: nat, days: nat, x: Row)
    ensures multiset(Apply(rows, Sweep(now, days)))[x] ==
      if x.timestamp >= now - days * (24 * 60 * 60 * 1000) then multiset(rows)[x] else 0
  {
    FromCounts(rows, now - days * DAY_MS, x);
  }

  lemma {:induction false} FromCounts(rows: seq<Row>, c: int, x: Row)
    ensures multiset(From(rows, c))[x] == if x.timestamp >= c then multiset(rows)[x] else 0
    decreases |rows|
  {
    if rows != [] {
      FromCounts(rows[1..], c, x);
      assert rows == [rows[0]] + rows[1..];
    }
  }

  lemma FromCons(x: Row, s: seq<Row>, c: int)
    ensures From([x] + s, c) == (if x.timestamp >= c then [x] else []) + From(s, c)
  {
    assert ([x] + s)[0] == x && ([x] + s)[1..] == s;
  }

  lemma {:induction false} FromConcat(a: seq<Row>, b: seq<Row>, c: int)
    ensures From(a + b, c) == From(a, c) + From(b, c)
    decreases |a|
  {
    if a == [] {
      assert a + b == b;
    } else {
      FromConcat(a[1..], b, c);
      FromCons(a[0], a[1..], c);
      FromCons(a[0], a[1..] + b, c);
      assert a == [a[0]] + a[1..];
      ConcatAssoc([a[0]], a[1..], b);
      ConcatAssoc(if a[0].timestamp >= c then [a[0]] else [], From(a[1..], c), From(b, c));
    }
  }

  lemma {:induction false} FromAll(a: seq<Row>, c: int)
    requires forall x :: x in a ==> x.timestamp >= c
    ensures From(a, c) == a
    decreases |a|
  {
    if a != [] {
      assert a[0] in a;
      FromAll(a[1..], c);
    }
  }

  lemma {:induction false} FromTwice(a: seq<Row>, c: int, d: int)
    ensures From(From(a, c), d) == From(a, if c > d then c else d)
    decreases |a|
  {
    if a != [] {
      FromTwice(a[1..], c, d);
      var r := From(a, c);
      if a[0].timestamp >= c {
        assert r[0] == a[0] && r[1..] == From(a[1..], c);
      }
    }
  }

  lemma {:induction false} CutoffIsPast(es: seq<Event>, n: nat, m: nat)
    requires ClockMonotone(es) && n <= m < |es|
    ensures CutoffAfter(es, n) <= es[m].now
    decreases n
  {
    if n > 0 {
      CutoffIsPast(es, n - 1, m);
      assert es[n - 1].now <= es[m].now;
    }
  }

  /** Under a clock that never goes back, after any interleaving of collections and sweeps
      the table is every sample ever inserted at or above the largest cutoff used. */
  lemma {:induction false} TableIsRecentHistory(es: seq<Event>, n: nat)
    requires ClockMonotone(es) && n <= |es|
    ensures TableAfter(es, n) == From(HistoryAfter(es, n), CutoffAfter(es, n))
  {
    if n == 0 {
      RecentStart(es, n);
    } else {
      var m := n - 1;
      TableIsRecentHistory(es, m);
      CutoffIsPast(es, m, m);
      RecentStep(es, n, es[m]);
    }
  }

  lemma RecentStart(es: seq<Event>, n: nat)
    requires n == 0 && n <= |es|
    ensures TableAfter(es, n) == From(HistoryAfter(es, n), CutoffAfter(es, n))
  {
    assert TableAfter(es, n) == [] && HistoryAfter(es, n) == [];
  }

  lemma RecentStep(es: seq<Event>, n: nat, e: Event)
    requires 0 < n <= |es| && e == es[n - 1] && CutoffAfter(es, n - 1) <= e.now
    requires TableAfter(es, n - 1) == From(HistoryAfter(es, n - 1), CutoffAfter(es, n - 1))
    ensures TableAfter(es, n) == From(HistoryAfter(es, n), CutoffAfter(es, n))
  {
    ApplyToRecent(HistoryAfter(es, n - 1), CutoffAfter(es, n - 1), e);
  }

  lemma ApplyToRecent(h: seq<Row>, c: nat, e: Event)
    requires c <= e.now
    ensures Apply(From(h, c), e) == From(h + Samples(e), NextCutoff(c, e))
  {
    match e
    case Collect(now, procs) =>
      FromAll(Samples(e), c);
      FromConcat(h, Samples(e), c);
    case Sweep(now, days) =>
      FromTwice(h, c, now - days * DAY_MS);
      assert h + Samples(e) == h;
  }

  // ----- What queries see ----------------------------------------------------

  lemma {:induction false} WindowOfRecent(rows: seq<Row>, c: int, since: int, until: int)
    ensures InWindow(From(rows, c), since, until) == InWindow(rows, if c > since then c else since, until)
    decreases |rows|
  {
    if rows != [] {
      WindowOfRecent(rows[1..], c, since, until);
      var r := From(rows, c);
      if rows[0].timestamp >= c {
        assert r[0] == rows[0] && r[1..] == From(rows[1..], c);
      }
    }
  }

  lemma {:induction false} WindowShrinks(rows: seq<Row>, low: int, since: int, until: int)
    requires low <= since && InWindow(rows, since, until) == InWindow(rows, low, until)
    ensures forall x :: x in rows && low <= x.timestamp <= until ==> since <= x.timestamp
  {
    forall x | x in rows && low <= x.timestamp <= until ensures since <= x.timestamp {
      var w := InWindow(rows, low, until);
      assert x in w;
      var i :| 0 <= i < |w| && w[i] == x;
    }
  }

  lemma {:induction false} WindowSame(rows: seq<Row>, low: int, since: int, until: int)
    requires low <= since
    requires forall x :: x in rows && low <= x.timestamp <= until ==> since <= x.timestamp
    ensures InWindow(rows, since, until) == InWindow(rows, low, until)
    decreases |rows|
  {
    if rows != [] {
      assert rows[0] in rows;
      WindowSame(rows[1..], low, since, until);
    }
  }

  /** The rows a window query reads are those of the never-pruned history if and only if no
      sample of the window is older than the largest cutoff. */
  lemma PruningInvisibleWhen(es: seq<Event>, n: nat, since: int, until: int)
    requires ClockMonotone(es) && n <= |es|
    ensures InWindow(TableAfter(es, n), since, until) == InWindow(HistoryAfter(es, n), since, until) <==>
      forall x :: x in HistoryAfter(es, n) && since <= x.timestamp <= until ==> x.timestamp >= CutoffAfter(es, n)
  {
    var h, c := HistoryAfter(es, n), CutoffAfter(es, n);
    TableIsRecentHistory(es, n);
    WindowOfRecent(h, c, since, until);
    if c > since {
      if InWindow(h, c, until) == InWindow(h, since, until) {
        WindowShrinks(h, since, c, until);
      }
      if forall x :: x in h && since <= x.timestamp <= until ==> x.timestamp >= c {
        WindowSame(h, since, c, until);
      }
    }
  }

  // ----- The history endpoints -----------------------------------------------

  function InsertName(ns: seq<string>, n: string): (r: seq<string>)
    requires SortedNames(ns)
    ensures SortedNames(r) && forall x :: x in r <==> x == n || x in ns
  {
    LessTotal(n, if ns == [] then n else ns[0]);
    if ns == [] then [n]
    else if Less(n, ns[0]) then
      assert forall j :: 0 <= j < |ns| ==> Less(n, ns[j]) by {
        forall j | 0 <= j < |ns| ensures Less(n, ns[j]) {
          if j > 0 { LessTransitive(n, ns[0], ns[j]); }
        }
      }
      [n] + ns
    else if n == ns[0] then ns
    else
      var rest := InsertName(ns[1..], n);
      assert forall j :: 0 <= j < |rest| ==> Less(ns[0], rest[j]) by {
        forall j | 0 <= j < |rest| ensures Less(ns[0], rest[j]) {
          assert rest[j] in rest;
        }
      }
      [ns[0]] + rest
  }

  predicate SortedNames(ns: seq<string>) {
    forall i, j :: 0 <= i < j < |ns| ==> Less(ns[i], ns[j])
  }

  function NamesIn(rows: seq<Row>): (ns: seq<string>)
    ensures SortedNames(ns)
    ensures forall x :: x in rows ==> x.name in ns
    ensures forall n :: n in ns ==> exists x :: x in rows && x.name == n
  {
    if rows == [] then []
    else
      var before := NamesIn(rows[1..]);
      assert forall n :: n in before ==> exists x :: x in rows && x.name == n by {
        forall n | n in before ensures exists x :: x in rows && x.name == n {
          var x :| x in rows[1..] && x.name == n;
          assert x in rows;
        }
      }
      assert rows[0] in rows;
      InsertName(before, rows[0].name)
  }

  /** SELECT DISTINCT name FROM metrics WHERE timestamp >= ? ORDER BY name. */
  function DistinctNames(rows: seq<Row>, since: int): seq<string> {
    NamesIn(From(rows, since))
  }

  datatype Range = R15m | R30m | R1h | R6h | R12h | R24h | R7d | R30d

  function RangeMs(r: Range): nat {
    match r
    case R15m => 900_000
    case R30m => 1_800_000
    case R1h => 3_600_000
    case R6h => 21_600_000
    case R12h => 43_200_000
    case R24h => 86_400_000
    case R7d => 604_800_000
    case R30d => 2_592_000_000
  }

  datatype HistoryQuery = HistoryQuery(name: Option<string>, since: Option<nat>, until: Option<nat>, range: Range)

  function QueryUntil(q: HistoryQuery, now: nat): int {
    match q.until
    case Some(t) => t
    case None => now
  }

  function QuerySince(q: HistoryQuery, now: nat): int {
    match q.since
    case Some(t) => t
    case None => QueryUntil(q, now) - RangeMs(q.range)
  }

  datatype HistoryReply = ProcessSeries(points: seq<Point>) | OverallSeries(totals: seq<Total>)

  /** GET /api/history; an empty name counts as absent. */
  function HistorySeries(rows: seq<Row>, q: HistoryQuery, now: nat): HistoryReply {
    var until, since := QueryUntil(q, now), QuerySince(q, now);
    if q.name.Some? && q.name.value != "" then ProcessSeries(SeriesForProcess(rows, q.name.value, since, until))
    else OverallSeries(AggregateSeries(rows, since, until))
  }

  /** The shorthand ranges last what their names say: in minutes. */
  lemma RangesLast()
    ensures RangeMs(R15m) == 15 * 60_000 && RangeMs(R30m) == 30 * 60_000
    ensures RangeMs(R1h) == 60 * 60_000 && RangeMs(R6h) == 6 * 60 * 60_000 && RangeMs(R12h) == 12 * 60 * 60_000
    ensures RangeMs(R24h) == 24 * 60 * 60_000 && RangeMs(R7d) == 7 * 24 * 60 * 60_000
    ensures RangeMs(R30d) == 30 * 24 * 60 * 60_000
  {
  }

  /** The window of a query: up to the given end or now, and from the given start or the
      range's length before that end. */
  lemma QueryWindow(q: HistoryQuery, now: nat)
    ensures q.until.Some? ==> QueryUntil(q, now) == q.until.value
    ensures q.until.None? ==> QueryUntil(q, now) == now
    ensures q.since.Some? ==> QuerySince(q, now) == q.since.value
    ensures q.since.None? ==> QueryUntil(q, now) - QuerySince(q, now) == RangeMs(q.range)
  {
  }

  /** A query with a name is answered with the series of that process over its window, ... */
  lemma NamedAnswer(rows: seq<Row>, q: HistoryQuery, now: nat)
    requires q.name.Some? && q.name.value != ""
    ensures HistorySeries(rows, q, now) ==
      ProcessSeries(SeriesForProcess(rows, q.name.value, QuerySince(q, now), QueryUntil(q, now)))
  {
  }

  /** ... and one without a name, or with an empty one, with the overall series. */
  lemma OverallAnswer(rows: seq<Row>, q: HistoryQuery, now: nat)
    requires q.name == None || q.name == Some("")
    ensures HistorySeries(rows, q, now) == OverallSeries(AggregateSeries(rows, QuerySince(q, now), QueryUntil(q, now)))
  {
  }

  /** GET /api/history/names. */
  function HistoryNames(rows: seq<Row>, now: nat, retentionDays: nat): seq<string> {
    DistinctNames(rows, now - retentionDays * DAY_MS)
  }

  /** Retention was never raised: every sweep used at least the present number of days. */
  predicate NeverRaised(es: seq<Event>, n: nat, days: nat)
    requires n <= |es|
  {
    forall i :: 0 <= i < n && es[i].Sweep? ==> es[i].days >= days
  }

  lemma {:induction false} CutoffInsideRetention(es: seq<Event>, n: nat, now: nat, days: nat)
    requires n <= |es| && NeverRaised(es, n, days) && forall i :: 0 <= i < n ==> es[i].now <= now
    ensures CutoffAfter(es, n) == 0 || CutoffAfter(es, n) <= now - days * DAY_MS
    decreases n
  {
    if n > 0 {
      CutoffInsideRetention(es, n - 1, now, days);
      if es[n - 1].Sweep? {
        assert es[n - 1].days * DAY_MS >= days * DAY_MS;
      }
    }
  }

  lemma NeverNegative(rows: seq<Row>, c: int, since: int)
    requires c == 0 || c <= since
    ensures From(From(rows, c), since) == From(rows, since)
  {
    FromTwice(rows, c, since);
    if c > since {
      FromAll(rows, 0);
      FromAll(rows, since);
    }
  }

  lemma WindowNonNegative(rows: seq<Row>, c: int, since: int, until: int)
    requires c == 0 || c <= since
    ensures InWindow(From(rows, c), since, until) == InWindow(rows, since, until)
  {
    WindowOfRecent(rows, c, since, until);
    if c > since {
      WindowSame(rows, since, c, until);
    }
  }

  /** If retention was never raised, then at any later time the names endpoint and every
      series that begins inside the retention window answer as if nothing had been pruned. */
  lemma PruningIsInvisible(es: seq<Event>, n: nat, now: nat, days: nat, q: HistoryQuery)
    requires ClockMonotone(es) && n <= |es| && forall i :: 0 <= i < n ==> es[i].now <= now
    requires NeverRaised(es, n, days)
    ensures HistoryNames(TableAfter(es, n), now, days) == HistoryNames(HistoryAfter(es, n), now, days)
    ensures QuerySince(q, now) >= now - days * DAY_MS ==>
      HistorySeries(TableAfter(es, n), q, now) == HistorySeries(HistoryAfter(es, n), q, now)
  {
    TableIsRecentHistory(es, n);
    CutoffInsideRetention(es, n, now, days);
    NamesUnpruned(HistoryAfter(es, n), CutoffAfter(es, n), now, days);
    if QuerySince(q, now) >= now - days * DAY_MS {
      SeriesUnpruned(HistoryAfter(es, n), CutoffAfter(es, n), q, now);
    }
  }

  lemma NamesUnpruned(h: seq<Row>, c: nat, now: nat, days: nat)
    requires c == 0 || c <= now - days * DAY_MS
    ensures HistoryNames(From(h, c), now, days) == HistoryNames(h, now, days)
  {
    NeverNegative(h, c, now - days * DAY_MS);
  }

  lemma SeriesUnpruned(h: seq<Row>, c: nat, q: HistoryQuery, now: nat)
    requires c == 0 || c <= QuerySince(q, now)
    ensures HistorySeries(From(h, c), q, now) == HistorySeries(h, q, now)
  {
    WindowNonNegative(h, c, QuerySince(q, now), QueryUntil(q, now));
    SeriesReadsWindow(From(h, c), h, q, now);
  }

  lemma {:induction false} SortedNamesDetermined(a: seq<string>, b: seq<string>)
    requires SortedNames(a) && SortedNames(b) && forall n :: n in a <==> n in b
    ensures a == b
  {
    assert a != [] ==> a[0] in a;
    assert b != [] ==> b[0] in b;
    if a != [] && b != [] {
      LeastName(a, b);
      forall n ensures n in a[1..] <==> n in b[1..] {
        TailNames(a, n);
        TailNames(b, n);
      }
      SortedNamesDetermined(a[1..], b[1..]);
    }
  }

  lemma TailNames(a: seq<string>, n: string)
    requires SortedNames(a) && a != []
    ensures n in a[1..] <==> n in a && n != a[0]
  {
    LessTotal(a[0], a[0]);
    if n in a[1..] {
      var i :| 0 <= i < |a[1..]| && a[1..][i] == n;
      assert Less(a[0], a[i + 1]);
    }
  }

  lemma LeastName(a: seq<string>, b: seq<string>)
    requires SortedNames(a) && SortedNames(b) && a != [] && b != [] && a[0] in b && b[0] in a
    ensures a[0] == b[0]
  {
    var i :| 0 <= i < |b| && b[i] == a[0];
    var j :| 0 <= j < |a| && a[j] == b[0];
    LessTotal(a[0], b[0]);
  }

  /** Process `name` has a sample at or after `t`. */
  ghost predicate Sampled(h: seq<Row>, name: string, t: int) {
    exists x :: x in h && x.name == name && x.timestamp >= t
  }

  lemma NameListed(h: seq<Row>, t: int, name: string)
    ensures name in DistinctNames(h, t) <==> Sampled(h, name, t)
  {
    if name in DistinctNames(h, t) {
      var x :| x in From(h, t) && x.name == name;
      FromMembers(h, t, x);
    }
    if Sampled(h, name, t) {
      var x :| x in h && x.name == name && x.timestamp >= t;
      FromMembers(h, t, x);
    }
  }

  /** The names endpoint lists exactly the processes sampled in the last `days` days. */
  lemma HistoryNamesListed(rows: seq<Row>, now: nat, days: nat, name: string)
    ensures name in HistoryNames(rows, now, days) <==> Sampled(rows, name, now - days * (24 * 60 * 60 * 1000))
  {
    NameListed(rows, now - days * DAY_MS, name);
  }

  /** Every name sampled at or after `t` also has such a sample at or above `c`. */
  ghost predicate NamesReach(h: seq<Row>, t: int, c: int) {
    forall name :: Sampled(h, name, t) ==> Sampled(h, name, if c > t then c else t)
  }

  lemma NamesSameWhen(h: seq<Row>, t: int, c: int)
    ensures DistinctNames(From(h, c), t) == DistinctNames(h, t) <==> NamesReach(h, t, c)
  {
    var d := if c > t then c else t;
    FromTwice(h, c, t);
    var table, all := DistinctNames(h, d), DistinctNames(h, t);
    forall name ensures (name in table <==> Sampled(h, name, d)) && (name in all <==> Sampled(h, name, t)) {
      NameListed(h, d, name);
      NameListed(h, t, name);
    }
    if NamesReach(h, t, c) {
      SortedNamesDetermined(table, all);
    }
  }

  lemma NamesOfTable(h: seq<Row>, c: int, now: nat, days: nat)
    ensures HistoryNames(From(h, c), now, days) == HistoryNames(h, now, days) <==>
      NamesReach(h, now - days * DAY_MS, c)
  {
    NamesSameWhen(h, now - days * DAY_MS, c);
  }

  /** The names endpoint answers as on the never-pruned history if and only if every name
      sampled inside the retention window has such a sample that no sweep has removed. */
  lemma NamesInvisibleWhen(es: seq<Event>, n: nat, now: nat, days: nat)
    requires ClockMonotone(es) && n <= |es|
    ensures HistoryNames(TableAfter(es, n), now, days) == HistoryNames(HistoryAfter(es, n), now, days) <==>
      NamesReach(HistoryAfter(es, n), now - days * DAY_MS, CutoffAfter(es, n))
  {
    TableIsRecentHistory(es, n);
    NamesOfTable(HistoryAfter(es, n), CutoffAfter(es, n), now, days);
  }

  /** A series is computed from the rows of its window alone. */
  lemma SeriesReadsWindow(a: seq<Row>, b: seq<Row>, q: HistoryQuery, now: nat)
    requires InWindow(a, QuerySince(q, now), QueryUntil(q, now)) == InWindow(b, QuerySince(q, now), QueryUntil(q, now))
    ensures HistorySeries(a, q, now) == HistorySeries(b, q, now)
  {
  }

  /** Raising retention brings a window back whose samples are gone: a sample of day 0, a
      sweep on day 3 that keeps 2 days, then retention raised to 5. */
  lemma RaisedRetentionShowsGap()
    ensures var r := Row(0, "web", "online", 0.0, 0, 0, 0, 0);
            var es := [Collect(0, Some([r])), Sweep(3 * DAY_MS, 2)];
      && ClockMonotone(es)
      && HistoryNames(HistoryAfter(es, 2), 3 * DAY_MS, 5) == ["web"]
      && HistoryNames(TableAfter(es, 2), 3 * DAY_MS, 5) == []
  {
    var r := Row(0, "web", "online", 0.0, 0, 0, 0, 0);
    var es := [Collect(0, Some([r])), Sweep(3 * DAY_MS, 2)];
    assert StampAll([r], 0) == [r];
    assert HistoryAfter(es, 1) == [] + [r];
    assert HistoryAfter(es, 2) == [r];
    TableIsRecentHistory(es, 2);
    assert CutoffAfter(es, 1) == 0;
    assert CutoffAfter(es, 2) == DAY_MS;
    assert From([r], DAY_MS) == [];
    FromAll([r], 3 * DAY_MS - 5 * DAY_MS);
    assert [r][1..] == [];
    assert NamesIn([r]) == InsertName(NamesIn([r][1..]), "web") == ["web"];
  }
}
