// The metrics table and its downsampled series. A query is the meaning of its SQL over
// the sequence of rows; AVG is taken over the reals.
module Metrics {
  import opened Grouping

  datatype Row = Row(
    pmId: int, name: string, status: string, cpu: real, memory: int,
    uptime: int, restartCount: int, timestamp: nat)

  const TARGET_POINTS: nat := 500

  /** Bucket size in ms: the window's span over 500, rounded up, at least 1. */
  function BucketMs(since: int, until: int): (b: nat)
    ensures b >= 1
  {
    var span := if until > since then until - since else 0;
    var size := (span + TARGET_POINTS - 1) / TARGET_POINTS;
    if size > 1 then size else 1
  }

  /** WHERE timestamp >= since AND timestamp <= until. */
  function InWindow(rows: seq<Row>, since: int, until: int): (r: seq<Row>)
    ensures forall i :: 0 <= i < |r| ==> r[i] in rows && since <= r[i].timestamp <= until
    ensures forall x :: x in rows && since <= x.timestamp <= until ==> x in r
  {
    if rows == [] then []
    else if since <= rows[0].timestamp <= until then [rows[0]] + InWindow(rows[1..], since, until)
    else InWindow(rows[1..], since, until)
  }

  function Cpu(r: Row): real { r.cpu }
  function Memory(r: Row): real { r.memory as real }
  function NameOf(r: Row): string { r.name }
  function TimeOf(r: Row): int { r.timestamp }

  /** CAST(timestamp / b AS INTEGER), for timestamps that are not negative. */
  function BucketOf(b: nat): Row -> int
    requires b >= 1
  {
    (r: Row) => r.timestamp / b
  }

  function MaxRestart(g: seq<Row>): (m: int)
    requires g != []
    ensures exists i :: 0 <= i < |g| && g[i].restartCount == m
    ensures forall i :: 0 <= i < |g| ==> g[i].restartCount <= m
  {
    if |g| == 1 then g[0].restartCount
    else
      var m := MaxRestart(g[1..]);
      assert forall i :: 1 <= i < |g| ==> g[i] == g[1..][i - 1];
      if g[0].restartCount > m then g[0].restartCount else m
  }

  /** AVG of `n` values with the given total. */
  function Average(total: real, n: nat): (a: real)
    requires n > 0
    ensures Times(a, n) == total
  {
    var a := total / n as real;
    assert a * n as real == total;
    a
  }

  function Times(x: real, n: nat): real {
    x * n as real
  }

  datatype Point = Point(timestamp: int, cpu: real, memory: real, restartCount: int)

  function PointOf(k: int, b: nat, g: seq<Row>): Point
    requires g != []
  {
    Point(k * b, Average(Sum(Cpu, g), |g|), Average(Sum(Memory, g), |g|), MaxRestart(g))
  }

  /** The rows of one bucket. */
  function Group(sel: seq<Row>, b: nat, k: int): seq<Row>
    requires b >= 1
  {
    WithKey(BucketOf(b), k, sel)
  }

  lemma GroupNonEmpty(sel: seq<Row>, b: nat, k: int)
    requires b >= 1 && k in Keys(BucketOf(b), sel)
    ensures Group(sel, b, k) != []
  {
    var i :| 0 <= i < |sel| && BucketOf(b)(sel[i]) == k;
    assert sel[i] in Group(sel, b, k);
  }

  /** GROUP BY bucket, one averaged point per bucket, in bucket order. */
  function Bucketed(sel: seq<Row>, b: nat): (ps: seq<Point>)
    requires b >= 1
    ensures var ks := Keys(BucketOf(b), sel);
      |ps| == |ks| && forall i :: 0 <= i < |ks| ==>
        Group(sel, b, ks[i]) != [] && ps[i] == PointOf(ks[i], b, Group(sel, b, ks[i]))
  {
    var ks := Keys(BucketOf(b), sel);
    assert forall i :: 0 <= i < |ks| ==> Group(sel, b, ks[i]) != [] by {
      forall i | 0 <= i < |ks| ensures Group(sel, b, ks[i]) != [] {
        GroupNonEmpty(sel, b, ks[i]);
      }
    }
    seq(|ks|, i requires 0 <= i < |ks| && Group(sel, b, ks[i]) != [] => PointOf(ks[i], b, Group(sel, b, ks[i])))
  }

  function Selected(rows: seq<Row>, name: string, since: int, until: int): seq<Row> {
    WithKey(NameOf, name, InWindow(rows, since, until))
  }

  function SeriesForProcess(rows: seq<Row>, name: string, since: int, until: int): seq<Point> {
    Bucketed(Selected(rows, name, since, until), BucketMs(since, until))
  }

  // ----- Bucket arithmetic ---------------------------------------------------

  lemma TimesMonotone(a: int, c: int, b: nat)
    requires a <= c
    ensures a * b <= c * b
  {
    assert (c - a) * b >= 0;
  }

  lemma TimesCancel(a: int, c: int, b: nat)
    requires a * b < c * b
    ensures a < c
  {
    if c <= a {
      TimesMonotone(c, a, b);
    }
  }

  lemma BucketBounds(t: nat, b: nat)
    requires b >= 1
    ensures t / b * b <= t < t / b * b + b
  {
  }

  lemma SameBucket(k: int, t: nat, b: nat)
    requires b >= 1 && k * b <= t < k * b + b
    ensures k == t / b
  {
    var q := t / b;
    BucketBounds(t, b);
    assert (k + 1) * b == k * b + b && (q + 1) * b == q * b + b;
    TimesCancel(k, q + 1, b);
    TimesCancel(q, k + 1, b);
  }

  /** Instants at most n buckets apart have bucket numbers at most n apart. */
  lemma BucketSpread(lo: nat, hi: nat, b: nat, n: nat)
    requires b >= 1 && hi - lo <= n * b
    ensures hi / b - lo / b <= n
  {
    var p, q := lo / b, hi / b;
    BucketBounds(lo, b);
    BucketBounds(hi, b);
    assert (p + n + 1) * b == p * b + n * b + b;
    TimesCancel(q, p + n + 1, b);
  }

  lemma SpanInBuckets(since: int, until: int)
    requires since <= until
    ensures until - since <= TARGET_POINTS * BucketMs(since, until)
  {
  }

  // ----- A series is a bounded partition of its samples ----------------------

  lemma SelectedBounds(rows: seq<Row>, name: string, since: int, until: int, x: Row)
    ensures x in Selected(rows, name, since, until) <==>
      x in rows && x.name == name && since <= x.timestamp <= until
  {
    var w := InWindow(rows, since, until);
    if x in rows && x.name == name && since <= x.timestamp <= until {
      var i :| 0 <= i < |w| && w[i] == x;
      assert NameOf(w[i]) == name;
    }
  }

  /** A query reads each row of its window as often as the table has it, and no other. */
  lemma {:induction false} WindowCounts(rows: seq<Row>, since: int, until: int, x: Row)
    ensures multiset(InWindow(rows, since, until))[x] ==
      if since <= x.timestamp <= until then multiset(rows)[x] else 0
    decreases |rows|
  {
    if rows != [] {
      WindowCounts(rows[1..], since, until, x);
      assert rows == [rows[0]] + rows[1..];
    }
  }

  lemma {:induction false} NameCounts(rows: seq<Row>, name: string, x: Row)
    ensures multiset(WithKey(NameOf, name, rows))[x] == if x.name == name then multiset(rows)[x] else 0
    decreases |rows|
  {
    if rows != [] {
      NameCounts(rows[1..], name, x);
      assert rows == [rows[0]] + rows[1..];
    }
  }

  lemma SelectedCounts(rows: seq<Row>, name: string, since: int, until: int, x: Row)
    ensures multiset(Selected(rows, name, since, until))[x] ==
      if x.name == name && since <= x.timestamp <= until then multiset(rows)[x] else 0
  {
    WindowCounts(rows, since, until, x);
    NameCounts(InWindow(rows, since, until), name, x);
  }

  /** Points come in strictly ascending time. */
  lemma BucketedAscends(sel: seq<Row>, b: nat)
    requires b >= 1
    ensures forall i, j :: 0 <= i < j < |Bucketed(sel, b)| ==>
      Bucketed(sel, b)[i].timestamp < Bucketed(sel, b)[j].timestamp
  {
    var ks := Keys(BucketOf(b), sel);
    forall i, j | 0 <= i < j < |ks| ensures ks[i] * b < ks[j] * b {
      TimesMonotone(ks[i] + 1, ks[j], b);
      assert (ks[i] + 1) * b == ks[i] * b + b;
    }
  }

  predicate Covers(p: Point, b: nat, x: Row) {
    p.timestamp <= x.timestamp < p.timestamp + b
  }

  predicate CoversOnly(ps: seq<Point>, i: nat, b: nat, x: Row) {
    forall j :: 0 <= j < |ps| && Covers(ps[j], b, x) ==> j == i
  }

  lemma IndexIn(s: seq<int>, k: int) returns (i: nat)
    requires k in s
    ensures i < |s| && s[i] == k
  {
    i :| i < |s| && s[i] == k;
  }

  lemma CoverIsBucket(sel: seq<Row>, b: nat, j: nat, x: Row)
    requires b >= 1 && j < |Bucketed(sel, b)| && Covers(Bucketed(sel, b)[j], b, x)
    ensures Keys(BucketOf(b), sel)[j] == x.timestamp / b
  {
    SameBucket(Keys(BucketOf(b), sel)[j], x.timestamp, b);
  }

  lemma OnlyOneCovers(sel: seq<Row>, b: nat, i: nat, x: Row)
    requires b >= 1 && i < |Bucketed(sel, b)| && Keys(BucketOf(b), sel)[i] == x.timestamp / b
    ensures CoversOnly(Bucketed(sel, b), i, b, x)
  {
    forall j | 0 <= j < |Bucketed(sel, b)| && Covers(Bucketed(sel, b)[j], b, x) ensures j == i {
      CoverIsBucket(sel, b, j, x);
    }
  }

  lemma InOneBucket(sel: seq<Row>, b: nat, x: Row) returns (i: nat)
    requires b >= 1 && x in sel
    ensures i < |Bucketed(sel, b)| && Covers(Bucketed(sel, b)[i], b, x)
    ensures CoversOnly(Bucketed(sel, b), i, b, x)
  {
    var ks := Keys(BucketOf(b), sel);
    var n :| 0 <= n < |sel| && sel[n] == x;
    assert BucketOf(b)(sel[n]) == x.timestamp / b;
    i := IndexIn(ks, x.timestamp / b);
    BucketBounds(x.timestamp, b);
    OnlyOneCovers(sel, b, i, x);
  }

  /** A series is a partition: strictly ascending points, each matching sample in exactly one. */
  lemma SeriesPartitions(rows: seq<Row>, name: string, since: int, until: int)
    ensures var ps, b := SeriesForProcess(rows, name, since, until), BucketMs(since, until);
      && (forall i, j :: 0 <= i < j < |ps| ==> ps[i].timestamp < ps[j].timestamp)
      && forall x :: x in rows && x.name == name && since <= x.timestamp <= until ==>
           exists i :: 0 <= i < |ps| && Covers(ps[i], b, x) && CoversOnly(ps, i, b, x)
  {
    var sel, b := Selected(rows, name, since, until), BucketMs(since, until);
    BucketedAscends(sel, b);
    forall x | x in rows && x.name == name && since <= x.timestamp <= until
      ensures exists i ::
        0 <= i < |Bucketed(sel, b)| && Covers(Bucketed(sel, b)[i], b, x) && CoversOnly(Bucketed(sel, b), i, b, x)
    {
      SelectedBounds(rows, name, since, until, x);
      var i := InOneBucket(sel, b, x);
    }
  }

  /** A bucket number comes from a sample. */
  lemma KeySample(sel: seq<Row>, b: nat, k: int) returns (x: Row)
    requires b >= 1 && k in Keys(BucketOf(b), sel)
    ensures x in sel && k == x.timestamp / b && k * b <= x.timestamp < k * b + b
  {
    var i :| 0 <= i < |sel| && BucketOf(b)(sel[i]) == k;
    x := sel[i];
    BucketBounds(x.timestamp, b);
  }

  lemma BucketedIsBounded(sel: seq<Row>, b: nat, since: int, until: int, n: nat)
    requires b >= 1 && until - since <= n * b
    requires forall x :: x in sel ==> since <= x.timestamp <= until
    ensures |Bucketed(sel, b)| <= n + 1
    ensures forall i :: 0 <= i < |Bucketed(sel, b)| ==> since - b < Bucketed(sel, b)[i].timestamp <= until
  {
    var ks := Keys(BucketOf(b), sel);
    forall i | 0 <= i < |ks| ensures since - b < ks[i] * b <= until {
      var x := KeySample(sel, b, ks[i]);
    }
    if ks != [] {
      forall k | k in ks ensures ks[0] <= k <= ks[0] + n {
        var x := KeySample(sel, b, ks[0]);
        var y := KeySample(sel, b, k);
        BucketSpread(x.timestamp, y.timestamp, b, n);
        var i := IndexIn(ks, k);
      }
      AscendingIsShort(ks, ks[0], ks[0] + n);
    }
  }

  /** At most 501 points, each labelled in (since - bucket, until]. */
  lemma SeriesIsBounded(rows: seq<Row>, name: string, since: int, until: int)
    ensures var ps := SeriesForProcess(rows, name, since, until);
      && |ps| <= TARGET_POINTS + 1
      && forall i :: 0 <= i < |ps| ==> since - BucketMs(since, until) < ps[i].timestamp <= until
  {
    var sel, b := Selected(rows, name, since, until), BucketMs(since, until);
    forall x | x in sel ensures since <= x.timestamp <= until {
      SelectedBounds(rows, name, since, until, x);
    }
    if since <= until {
      SpanInBuckets(since, until);
    }
    BucketedIsBounded(sel, b, since, until, TARGET_POINTS);
  }

  // ----- The bound is reached ------------------------------------------------

  lemma BucketsOrdered(t: nat, u: nat, b: nat)
    requires b >= 1 && t <= u
    ensures t / b <= u / b
  {
    BucketBounds(t, b);
    BucketBounds(u, b);
    assert (u / b + 1) * b == u / b * b + b;
    TimesCancel(t / b, u / b + 1, b);
  }

  /** An instant of bucket `since / b + i` that is not before `since`. */
  function InstantIn(since: nat, b: nat, i: nat): nat
    requires b >= 1
  {
    if i == 0 then since else (since / b + i) * b
  }

  lemma InstantPlaced(since: nat, until: nat, b: nat, i: nat)
    requires b >= 1 && since <= until && since / b + i <= until / b
    ensures since <= InstantIn(since, b, i) <= until && InstantIn(since, b, i) / b == since / b + i
  {
    if i > 0 {
      var k := since / b + i;
      BucketBounds(since, b);
      BucketBounds(until, b);
      TimesMonotone(since / b + 1, k, b);
      TimesMonotone(k, until / b, b);
      assert (since / b + 1) * b == since / b * b + b;
      SameBucket(k, k * b, b);
    }
  }

  /** One sample in each bucket of the window. */
  function OnePerBucket(name: string, since: nat, b: nat, n: nat): (rows: seq<Row>)
    requires b >= 1
    ensures |rows| == n
    ensures forall i :: 0 <= i < n ==> rows[i].name == name && rows[i].timestamp == InstantIn(since, b, i)
  {
    seq(n, i requires 0 <= i < n => Row(0, name, "online", 0.0, 0, 0, 0, InstantIn(since, b, i)))
  }

  /** How many buckets a window meets. */
  function BucketsMet(since: nat, until: nat, b: nat): (n: nat)
    requires b >= 1 && since <= until
    ensures n >= 1
  {
    BucketsOrdered(since, until, b);
    until / b - since / b + 1
  }

  lemma KeyInWindow(sel: seq<Row>, b: nat, since: nat, until: nat, k: int)
    requires b >= 1 && forall x :: x in sel ==> since <= x.timestamp <= until
    requires k in Keys(BucketOf(b), sel)
    ensures since / b <= k <= until / b
  {
    var x := KeySample(sel, b, k);
    BucketsOrdered(since, x.timestamp, b);
    BucketsOrdered(x.timestamp, until, b);
  }

  lemma NoMorePoints(sel: seq<Row>, b: nat, since: nat, until: nat)
    requires b >= 1 && since <= until && forall x :: x in sel ==> since <= x.timestamp <= until
    ensures |Bucketed(sel, b)| <= BucketsMet(since, until, b)
  {
    var ks := Keys(BucketOf(b), sel);
    forall k | k in ks ensures since / b <= k <= until / b {
      KeyInWindow(sel, b, since, until, k);
    }
    BucketsOrdered(since, until, b);
    AscendingIsShort(ks, since / b, until / b);
  }

  lemma KeyReached(sel: seq<Row>, b: nat, x: Row)
    requires b >= 1 && x in sel
    ensures x.timestamp / b in Keys(BucketOf(b), sel)
  {
    var j :| 0 <= j < |sel| && sel[j] == x;
    assert BucketOf(b)(sel[j]) == x.timestamp / b;
  }

  lemma AllPoints(sel: seq<Row>, name: string, b: nat, since: nat, until: nat)
    requires b >= 1 && since <= until
    requires forall x :: x in OnePerBucket(name, since, b, BucketsMet(since, until, b)) ==> x in sel
    ensures |Bucketed(sel, b)| >= BucketsMet(since, until, b)
  {
    var n, p := BucketsMet(since, until, b), since / b;
    var full, ks := OnePerBucket(name, since, b, n), Keys(BucketOf(b), sel);
    forall k | p <= k <= p + (n - 1) ensures k in ks {
      var x := full[k - p];
      assert x in full;
      InstantPlaced(since, until, b, k - p);
      KeyReached(sel, b, x);
    }
    AscendingIsLong(ks, p, p + (n - 1));
  }

  lemma FullSelected(name: string, since: nat, until: nat, b: nat)
    requires b >= 1 && since <= until
    ensures var full := OnePerBucket(name, since, b, BucketsMet(since, until, b));
      forall x :: x in full ==> x in Selected(full, name, since, until)
  {
    var full := OnePerBucket(name, since, b, BucketsMet(since, until, b));
    forall x | x in full ensures x in Selected(full, name, since, until) {
      var i :| 0 <= i < |full| && full[i] == x;
      InstantPlaced(since, until, b, i);
      SelectedBounds(full, name, since, until, x);
    }
  }

  /** The largest number of points a window can give is exactly the number of buckets it
      meets. */
  lemma MostPoints(name: string, since: nat, until: nat)
    requires since <= until
    ensures var most := BucketsMet(since, until, BucketMs(since, until));
      && (forall rows :: |SeriesForProcess(rows, name, since, until)| <= most)
      && (exists rows :: |SeriesForProcess(rows, name, since, until)| == most)
  {
    var b := BucketMs(since, until);
    forall rows ensures |SeriesForProcess(rows, name, since, until)| <= BucketsMet(since, until, b) {
      forall x | x in Selected(rows, name, since, until) ensures since <= x.timestamp <= until {
        SelectedBounds(rows, name, since, until, x);
      }
      NoMorePoints(Selected(rows, name, since, until), b, since, until);
    }
    var full := OnePerBucket(name, since, b, BucketsMet(since, until, b));
    FullSelected(name, since, until, b);
    AllPoints(Selected(full, name, since, until), name, b, since, until);
    assert |SeriesForProcess(full, name, since, until)| == BucketsMet(since, until, b);
  }

  /** A window of 500 ms has 501 points when there is a sample in every millisecond. */
  lemma FiveHundredAndOne(name: string, since: nat, until: nat)
    requires until == since + TARGET_POINTS
    ensures exists rows :: |SeriesForProcess(rows, name, since, until)| == 501
  {
    MostPoints(name, since, until);
    assert BucketMs(since, until) == 1;
    assert BucketsMet(since, until, 1) == 501;
  }

  // ----- Buckets are as small as they may be ---------------------------------

  /** The bucket is the least size, of at least 1 ms, of which 500 cover the window. */
  lemma BucketIsLeast(since: int, until: int)
    ensures BucketMs(since, until) >= 1 && 500 * BucketMs(since, until) >= until - since
    ensures forall b :: b >= 1 && 500 * b >= until - since ==> BucketMs(since, until) <= b
  {
  }

  lemma ManyBuckets(since: nat, until: nat, b: nat, n: nat)
    requires b >= 1 && since <= until && n * b <= until - since
    ensures until / b - since / b >= n
  {
    var p, q := since / b, until / b;
    BucketBounds(since, b);
    BucketBounds(until, b);
    assert (p + n) * b == p * b + n * b && (q + 1) * b == q * b + b;
    TimesCancel(p + n, q + 1, b);
  }

  lemma HalfTarget(since: nat, until: nat)
    requires until - since >= 500
    ensures BucketsMet(since, until, BucketMs(since, until)) >= 251
  {
    ManyBuckets(since, until, BucketMs(since, until), 250);
  }

  /** Every window of at least 500 ms can give more than 250 points: never fewer than half of
      what is aimed at. */
  lemma NeverTooCoarse(name: string, since: nat, until: nat)
    requires until - since >= 500
    ensures exists rows :: |SeriesForProcess(rows, name, since, until)| > 250
  {
    MostPoints(name, since, until);
    HalfTarget(since, until);
    var rows :| |SeriesForProcess(rows, name, since, until)| == BucketsMet(since, until, BucketMs(since, until));
  }

  // ----- Conservation --------------------------------------------------------

  /** Point averages weighted by how many samples each point stands for. */
  function WeightedCpu(ps: seq<Point>, groups: seq<seq<Row>>): real
    requires |ps| == |groups|
  {
    if ps == [] then 0.0 else Times(ps[0].cpu, |groups[0]|) + WeightedCpu(ps[1..], groups[1..])
  }

  function WeightedMemory(ps: seq<Point>, groups: seq<seq<Row>>): real
    requires |ps| == |groups|
  {
    if ps == [] then 0.0 else Times(ps[0].memory, |groups[0]|) + WeightedMemory(ps[1..], groups[1..])
  }

  function Groups(sel: seq<Row>, b: nat, ks: seq<int>): (gs: seq<seq<Row>>)
    requires b >= 1
    ensures |gs| == |ks| && forall i :: 0 <= i < |ks| ==> gs[i] == Group(sel, b, ks[i])
  {
    seq(|ks|, i requires 0 <= i < |ks| => Group(sel, b, ks[i]))
  }

  lemma {:induction false} WeightedIsGrouped(sel: seq<Row>, b: nat, ks: seq<int>, ps: seq<Point>)
    requires b >= 1 && |ps| == |ks|
    requires forall i :: 0 <= i < |ks| ==>
      Group(sel, b, ks[i]) != [] && ps[i] == PointOf(ks[i], b, Group(sel, b, ks[i]))
    ensures WeightedCpu(ps, Groups(sel, b, ks)) == SumOfGroups(Cpu, BucketOf(b), sel, ks)
    ensures WeightedMemory(ps, Groups(sel, b, ks)) == SumOfGroups(Memory, BucketOf(b), sel, ks)
    decreases |ks|
  {
    if ks != [] {
      assert Groups(sel, b, ks)[1..] == Groups(sel, b, ks[1..]);
      WeightedIsGrouped(sel, b, ks[1..], ps[1..]);
    }
  }

  lemma AscendingHasNoDuplicates(ks: seq<int>)
    requires Ascending(ks)
    ensures NoDuplicates(ks)
  {
  }

  lemma KeysCover(key: Row -> int, f: Row -> real, sel: seq<Row>)
    ensures SumOfGroups(f, key, sel, Keys(key, sel)) == Sum(f, sel)
  {
    var ks := Keys(key, sel);
    AscendingHasNoDuplicates(ks);
    GroupsPartition(f, key, sel, ks);
    AllWithin(f, key, sel, ks);
  }

  /** Downsampling conserves totals: the averages, each weighted by its number of samples,
      add up to the raw totals. */
  lemma SeriesConserves(rows: seq<Row>, name: string, since: int, until: int)
    ensures var sel, b := Selected(rows, name, since, until), BucketMs(since, until);
            var ps, gs := SeriesForProcess(rows, name, since, until), Groups(sel, b, Keys(BucketOf(b), sel));
      && |ps| == |gs|
      && WeightedCpu(ps, gs) == Sum(Cpu, sel)
      && WeightedMemory(ps, gs) == Sum(Memory, sel)
  {
    var sel, b := Selected(rows, name, since, until), BucketMs(since, until);
    WeightedIsGrouped(sel, b, Keys(BucketOf(b), sel), Bucketed(sel, b));
    KeysCover(BucketOf(b), Cpu, sel);
    KeysCover(BucketOf(b), Memory, sel);
  }

  /** restartCount of a point is the largest of the samples it covers. */
  lemma RestartsAreMaxima(sel: seq<Row>, b: nat, i: nat)
    requires b >= 1 && i < |Bucketed(sel, b)|
    ensures var p := Bucketed(sel, b)[i];
      && (forall x :: x in sel && Covers(p, b, x) ==> x.restartCount <= p.restartCount)
      && (exists x :: x in sel && Covers(p, b, x) && x.restartCount == p.restartCount)
  {
    var k := Keys(BucketOf(b), sel)[i];
    var g := Group(sel, b, k);
    GroupIsBucket(sel, b, k);
    var m :| 0 <= m < |g| && g[m].restartCount == MaxRestart(g);
    assert g[m] in g;
    forall x | x in g ensures x.restartCount <= MaxRestart(g) {
      var j :| 0 <= j < |g| && g[j] == x;
    }
  }

  lemma GroupIsBucket(sel: seq<Row>, b: nat, k: int)
    requires b >= 1
    ensures forall x :: x in Group(sel, b, k) <==> x in sel && k * b <= x.timestamp < k * b + b
  {
    forall x | x in sel ensures x in Group(sel, b, k) <==> k * b <= x.timestamp < k * b + b {
      var i :| 0 <= i < |sel| && sel[i] == x;
      BucketBounds(x.timestamp, b);
      if k * b <= x.timestamp < k * b + b {
        SameBucket(k, x.timestamp, b);
        assert BucketOf(b)(sel[i]) == k;
      }
      if x in Group(sel, b, k) {
        var j :| 0 <= j < |Group(sel, b, k)| && Group(sel, b, k)[j] == x;
      }
    }
  }
}
