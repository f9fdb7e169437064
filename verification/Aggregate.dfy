// The overall series: rows summed over processes at each instant, then averaged over the
// instants of each bucket.
module Aggregate {
  import opened Grouping
  import opened Metrics

  datatype Instant = Instant(timestamp: int, cpu: real, memory: real)

  function InstantCpu(i: Instant): real { i.cpu }
  function InstantMemory(i: Instant): real { i.memory }

  function InstantBucket(b: nat): Instant -> int
    requires b >= 1
  {
    (i: Instant) => i.timestamp / b
  }

  function TimeBucket(b: nat): int -> int
    requires b >= 1
  {
    (t: int) => t / b
  }

  /** The inner SELECT: GROUP BY timestamp with sums, for the listed instants. */
  function InstantsAt(sel: seq<Row>, ts: seq<int>): (r: seq<Instant>)
    ensures |r| == |ts| && forall i :: 0 <= i < |ts| ==> r[i].timestamp == ts[i]
  {
    if ts == [] then []
    else
      var g := WithKey(TimeOf, ts[0], sel);
      [Instant(ts[0], Sum(Cpu, g), Sum(Memory, g))] + InstantsAt(sel, ts[1..])
  }

  function Instants(sel: seq<Row>): seq<Instant> {
    InstantsAt(sel, Keys(TimeOf, sel))
  }

  datatype Total = Total(timestamp: int, cpu: real, memory: real)

  function BucketInstants(sel: seq<Row>, b: nat, k: int): seq<Instant>
    requires b >= 1
  {
    WithKey(InstantBucket(b), k, Instants(sel))
  }

  lemma BucketInstantsNonEmpty(sel: seq<Row>, b: nat, k: int)
    requires b >= 1 && k in Keys(InstantBucket(b), Instants(sel))
    ensures BucketInstants(sel, b, k) != []
  {
    var ins := Instants(sel);
    var i :| 0 <= i < |ins| && InstantBucket(b)(ins[i]) == k;
    assert ins[i] in BucketInstants(sel, b, k);
  }

  function TotalOf(k: int, b: nat, g: seq<Instant>): Total
    requires g != []
  {
    Total(k * b, Average(Sum(InstantCpu, g), |g|), Average(Sum(InstantMemory, g), |g|))
  }

  /** The outer SELECT. */
  function AggregateBuckets(sel: seq<Row>, b: nat): (ps: seq<Total>)
    requires b >= 1
    ensures var ks := Keys(InstantBucket(b), Instants(sel));
      |ps| == |ks| && forall i :: 0 <= i < |ks| ==>
        BucketInstants(sel, b, ks[i]) != [] && ps[i] == TotalOf(ks[i], b, BucketInstants(sel, b, ks[i]))
  {
    var ks := Keys(InstantBucket(b), Instants(sel));
    assert forall i :: 0 <= i < |ks| ==> BucketInstants(sel, b, ks[i]) != [] by {
      forall i | 0 <= i < |ks| ensures BucketInstants(sel, b, ks[i]) != [] {
        BucketInstantsNonEmpty(sel, b, ks[i]);
      }
    }
    seq(|ks|, i requires 0 <= i < |ks| && BucketInstants(sel, b, ks[i]) != [] =>
      TotalOf(ks[i], b, BucketInstants(sel, b, ks[i])))
  }

  function AggregateSeries(rows: seq<Row>, since: int, until: int): seq<Total> {
    AggregateBuckets(InWindow(rows, since, until), BucketMs(since, until))
  }

  // ----- Two levels of grouping are one --------------------------------------

  /** The distinct sample instants of bucket `k`. */
  function TimesIn(sel: seq<Row>, b: nat, k: int): seq<int>
    requires b >= 1
  {
    WithKey(TimeBucket(b), k, Keys(TimeOf, sel))
  }

  lemma {:induction false} SelectInstants(sel: seq<Row>, b: nat, k: int, ts: seq<int>)
    requires b >= 1
    ensures WithKey(InstantBucket(b), k, InstantsAt(sel, ts)) == InstantsAt(sel, WithKey(TimeBucket(b), k, ts))
    decreases |ts|
  {
    if ts != [] {
      SelectInstants(sel, b, k, ts[1..]);
      var ins := InstantsAt(sel, ts);
      assert ins[1..] == InstantsAt(sel, ts[1..]);
      var chosen := WithKey(TimeBucket(b), k, ts);
      if ts[0] / b == k {
        assert chosen[0] == ts[0] && chosen[1..] == WithKey(TimeBucket(b), k, ts[1..]);
      }
    }
  }

  lemma {:induction false} SumInstants(sel: seq<Row>, ts: seq<int>)
    ensures Sum(InstantCpu, InstantsAt(sel, ts)) == SumOfGroups(Cpu, TimeOf, sel, ts)
    ensures Sum(InstantMemory, InstantsAt(sel, ts)) == SumOfGroups(Memory, TimeOf, sel, ts)
    decreases |ts|
  {
    if ts != [] {
      SumInstants(sel, ts[1..]);
      assert InstantsAt(sel, ts)[1..] == InstantsAt(sel, ts[1..]);
    }
  }

  /** Summing the groups of a bucket's instants sums the bucket's rows; `part` may be any
      selection of `sel`. */
  lemma BucketRows(f: Row -> real, sel: seq<Row>, part: seq<Row>, b: nat, k: int)
    requires b >= 1 && forall x :: x in part ==> x in sel
    ensures SumOfGroups(f, TimeOf, part, TimesIn(sel, b, k)) == Sum(f, Group(part, b, k))
  {
    var ts := Keys(TimeOf, sel);
    var tk := TimesIn(sel, b, k);
    SelectionAscends(TimeBucket(b), k, ts);
    AscendingHasNoDuplicates(tk);
    GroupsPartition(f, TimeOf, part, tk);
    forall x | x in part ensures TimeOf(x) in tk <==> BucketOf(b)(x) == k {
      TimeInBucket(sel, b, k, x);
    }
    WithinIsGroup(f, TimeOf, part, tk, BucketOf(b), k);
  }

  lemma TimeInBucket(sel: seq<Row>, b: nat, k: int, x: Row)
    requires b >= 1 && x in sel
    ensures TimeOf(x) in TimesIn(sel, b, k) <==> BucketOf(b)(x) == k
  {
    var ts := Keys(TimeOf, sel);
    var i :| 0 <= i < |sel| && sel[i] == x;
    assert TimeOf(sel[i]) in ts;
    var j := IndexIn(ts, x.timestamp);
    if TimeOf(x) in TimesIn(sel, b, k) {
      var m := IndexIn(TimesIn(sel, b, k), TimeOf(x));
    }
  }

  lemma BucketInstantsSum(sel: seq<Row>, b: nat, k: int)
    requires b >= 1
    ensures |BucketInstants(sel, b, k)| == |TimesIn(sel, b, k)|
    ensures Sum(InstantCpu, BucketInstants(sel, b, k)) == Sum(Cpu, Group(sel, b, k))
    ensures Sum(InstantMemory, BucketInstants(sel, b, k)) == Sum(Memory, Group(sel, b, k))
  {
    SelectInstants(sel, b, k, Keys(TimeOf, sel));
    SumInstants(sel, TimesIn(sel, b, k));
    BucketRows(Cpu, sel, sel, b, k);
    BucketRows(Memory, sel, sel, b, k);
  }

  /** Buckets of instants are the buckets of rows. */
  lemma SameBuckets(sel: seq<Row>, b: nat)
    requires b >= 1
    ensures Keys(InstantBucket(b), Instants(sel)) == Keys(BucketOf(b), sel)
  {
    var ins, ts := Instants(sel), Keys(TimeOf, sel);
    var a, c := Keys(InstantBucket(b), ins), Keys(BucketOf(b), sel);
    forall k ensures k in a <==> k in c {
      if k in a {
        var i :| 0 <= i < |ins| && InstantBucket(b)(ins[i]) == k;
        assert ts[i] in ts;
        var j :| 0 <= j < |sel| && TimeOf(sel[j]) == ts[i];
        assert BucketOf(b)(sel[j]) == k;
      }
      if k in c {
        var j :| 0 <= j < |sel| && BucketOf(b)(sel[j]) == k;
        var i := IndexIn(ts, TimeOf(sel[j]));
        assert InstantBucket(b)(ins[i]) == k;
      }
    }
    AscendingIsDetermined(a, c);
  }

  /** The overall series conserves totals: in every bucket, the averages times the number of
      distinct sample instants are the sums over all of the bucket's rows. */
  lemma AggregateConserves(rows: seq<Row>, since: int, until: int)
    ensures var sel, b := InWindow(rows, since, until), BucketMs(since, until);
            var ps, ks := AggregateSeries(rows, since, until), Keys(BucketOf(b), sel);
      && |ps| == |ks|
      && SumOfGroups(Cpu, BucketOf(b), sel, ks) == Sum(Cpu, sel)
      && SumOfGroups(Memory, BucketOf(b), sel, ks) == Sum(Memory, sel)
      && forall i :: 0 <= i < |ps| ==>
           && ps[i].timestamp == ks[i] * b
           && Times(ps[i].cpu, |TimesIn(sel, b, ks[i])|) == Sum(Cpu, Group(sel, b, ks[i]))
           && Times(ps[i].memory, |TimesIn(sel, b, ks[i])|) == Sum(Memory, Group(sel, b, ks[i]))
  {
    var sel, b := InWindow(rows, since, until), BucketMs(since, until);
    SameBuckets(sel, b);
    KeysCover(BucketOf(b), Cpu, sel);
    KeysCover(BucketOf(b), Memory, sel);
    var ks := Keys(BucketOf(b), sel);
    forall i | 0 <= i < |ks|
      ensures Times(AggregateBuckets(sel, b)[i].cpu, |TimesIn(sel, b, ks[i])|) == Sum(Cpu, Group(sel, b, ks[i]))
      ensures Times(AggregateBuckets(sel, b)[i].memory, |TimesIn(sel, b, ks[i])|) == Sum(Memory, Group(sel, b, ks[i]))
    {
      BucketInstantsSum(sel, b, ks[i]);
    }
  }

  /** Totals come in strictly ascending time. */
  lemma AggregateAscends(rows: seq<Row>, since: int, until: int)
    ensures forall i, j :: 0 <= i < j < |AggregateSeries(rows, since, until)| ==>
      AggregateSeries(rows, since, until)[i].timestamp < AggregateSeries(rows, since, until)[j].timestamp
  {
    var sel, b := InWindow(rows, since, until), BucketMs(since, until);
    SameBuckets(sel, b);
    BucketedAscends(sel, b);
    forall i | 0 <= i < |AggregateBuckets(sel, b)|
      ensures AggregateBuckets(sel, b)[i].timestamp == Bucketed(sel, b)[i].timestamp
    {
    }
  }

  lemma AggregateLabels(sel: seq<Row>, b: nat)
    requires b >= 1
    ensures |AggregateBuckets(sel, b)| == |Bucketed(sel, b)|
    ensures forall i :: 0 <= i < |Bucketed(sel, b)| ==>
      AggregateBuckets(sel, b)[i].timestamp == Bucketed(sel, b)[i].timestamp
  {
    SameBuckets(sel, b);
  }

  /** At most 501 points, each labelled in (since - bucket, until]. */
  lemma AggregateIsBounded(rows: seq<Row>, since: int, until: int)
    ensures var ps := AggregateSeries(rows, since, until);
      && |ps| <= TARGET_POINTS + 1
      && forall i :: 0 <= i < |ps| ==> since - BucketMs(since, until) < ps[i].timestamp <= until
  {
    var sel, b := InWindow(rows, since, until), BucketMs(since, until);
    forall x | x in sel ensures since <= x.timestamp <= until {
      var i :| 0 <= i < |sel| && sel[i] == x;
    }
    if since <= until {
      SpanInBuckets(since, until);
    }
    BucketedIsBounded(sel, b, since, until, TARGET_POINTS);
    AggregateLabels(sel, b);
  }

  lemma NoMoreTotals(rows: seq<Row>, since: nat, until: nat)
    requires since <= until
    ensures |AggregateSeries(rows, since, until)| <= BucketsMet(since, until, BucketMs(since, until))
  {
    var sel, b := InWindow(rows, since, until), BucketMs(since, until);
    forall x | x in sel ensures since <= x.timestamp <= until {
      var i :| 0 <= i < |sel| && sel[i] == x;
    }
    NoMorePoints(sel, b, since, until);
    AggregateLabels(sel, b);
  }

  lemma AllTotals(name: string, since: nat, until: nat, b: nat)
    requires since <= until && b == BucketMs(since, until)
    ensures var full := OnePerBucket(name, since, b, BucketsMet(since, until, b));
      |AggregateSeries(full, since, until)| >= BucketsMet(since, until, b)
  {
    var full := OnePerBucket(name, since, b, BucketsMet(since, until, b));
    var sel := InWindow(full, since, until);
    forall x | x in full ensures x in sel {
      var i :| 0 <= i < |full| && full[i] == x;
      InstantPlaced(since, until, b, i);
    }
    AllPoints(sel, name, b, since, until);
    AggregateLabels(sel, b);
  }

  /** The largest number of points the overall series can have is exactly the number of
      buckets the window meets. */
  lemma MostTotals(since: nat, until: nat)
    requires since <= until
    ensures var most := BucketsMet(since, until, BucketMs(since, until));
      && (forall rows :: |AggregateSeries(rows, since, until)| <= most)
      && (exists rows :: |AggregateSeries(rows, since, until)| == most)
  {
    var b := BucketMs(since, until);
    forall rows ensures |AggregateSeries(rows, since, until)| <= BucketsMet(since, until, b) {
      NoMoreTotals(rows, since, until);
    }
    AllTotals("", since, until, b);
    var full := OnePerBucket("", since, b, BucketsMet(since, until, b));
    assert |AggregateSeries(full, since, until)| == BucketsMet(since, until, b);
  }

  /** The overall series of a window of at least 500 ms can have more than 250 points too. */
  lemma OverallNeverTooCoarse(since: nat, until: nat)
    requires until - since >= 500
    ensures exists rows :: |AggregateSeries(rows, since, until)| > 250
  {
    MostTotals(since, until);
    HalfTarget(since, until);
    var rows :| |AggregateSeries(rows, since, until)| == BucketsMet(since, until, BucketMs(since, until));
  }

  // ----- The overall series is the sum of the processes' series --------------

  /** The listed processes are all there are. */
  ghost predicate Lists(names: seq<string>, sel: seq<Row>) {
    NoDuplicates(names) && forall x :: x in sel ==> x.name in names
  }

  /** Each listed process has exactly one row at every sample instant; there are no others. */
  ghost predicate OneRowEach(sel: seq<Row>, names: seq<string>) {
    && Lists(names, sel)
    && forall n, t :: n in names && t in Keys(TimeOf, sel) ==> |WithKey(TimeOf, t, WithKey(NameOf, n, sel))| == 1
  }

  /** How many rows process `n` has in bucket `k`. */
  function Count(sel: seq<Row>, n: string, b: nat, k: int): nat
    requires b >= 1
  {
    |WithKey(NameOf, n, Group(sel, b, k))|
  }

  /** In each bucket each process has no row, or as many as the bucket has instants. */
  ghost predicate CountsMatch(sel: seq<Row>, names: seq<string>, b: nat)
    requires b >= 1
  {
    forall n, k :: n in names && k in Keys(BucketOf(b), sel) ==>
      Count(sel, n, b, k) == 0 || Count(sel, n, b, k) == |TimesIn(sel, b, k)|
  }

  lemma PartOf(sel: seq<Row>, n: string)
    ensures forall x :: x in WithKey(NameOf, n, sel) ==> x in sel
  {
    var part := WithKey(NameOf, n, sel);
    forall x | x in part ensures x in sel {
      var i :| 0 <= i < |part| && part[i] == x;
    }
  }

  lemma BucketOfPart(sel: seq<Row>, n: string, b: nat, k: int)
    requires b >= 1 && k in Keys(BucketOf(b), WithKey(NameOf, n, sel))
    ensures k in Keys(BucketOf(b), sel)
  {
    var x := KeySample(WithKey(NameOf, n, sel), b, k);
    PartOf(sel, n);
    var j :| 0 <= j < |sel| && sel[j] == x;
    assert BucketOf(b)(sel[j]) == k;
  }

  lemma BucketOfWhole(sel: seq<Row>, names: seq<string>, n: string, b: nat, k: int)
    requires b >= 1 && OneRowEach(sel, names) && n in names
    requires k in Keys(BucketOf(b), sel)
    ensures k in Keys(BucketOf(b), WithKey(NameOf, n, sel))
  {
    var x := KeySample(sel, b, k);
    KeyPresent(TimeOf, sel, x);
    var y := RowAt(sel, names, n, x.timestamp);
    KeyPresent(BucketOf(b), WithKey(NameOf, n, sel), y);
  }

  lemma KeyPresent(key: Row -> int, s: seq<Row>, x: Row)
    requires x in s
    ensures key(x) in Keys(key, s)
  {
    var i :| 0 <= i < |s| && s[i] == x;
    assert key(s[i]) in Keys(key, s);
  }

  lemma RowAt(sel: seq<Row>, names: seq<string>, n: string, t: int) returns (y: Row)
    requires OneRowEach(sel, names) && n in names && t in Keys(TimeOf, sel)
    ensures y in WithKey(NameOf, n, sel) && TimeOf(y) == t
  {
    var there := WithKey(TimeOf, t, WithKey(NameOf, n, sel));
    y := there[0];
  }

  lemma ProcessBuckets(sel: seq<Row>, names: seq<string>, n: string, b: nat)
    requires b >= 1 && OneRowEach(sel, names) && n in names
    ensures Keys(BucketOf(b), WithKey(NameOf, n, sel)) == Keys(BucketOf(b), sel)
  {
    var a, c := Keys(BucketOf(b), WithKey(NameOf, n, sel)), Keys(BucketOf(b), sel);
    forall k ensures k in a <==> k in c {
      if k in a {
        BucketOfPart(sel, n, b, k);
      }
      if k in c {
        BucketOfWhole(sel, names, n, b, k);
      }
    }
    AscendingIsDetermined(a, c);
  }

  /** In every bucket each process has as many rows as there are instants. */
  lemma ProcessCount(sel: seq<Row>, names: seq<string>, n: string, b: nat, k: int)
    requires b >= 1 && OneRowEach(sel, names) && n in names
    ensures |Group(WithKey(NameOf, n, sel), b, k)| == |TimesIn(sel, b, k)|
  {
    var part, tk := WithKey(NameOf, n, sel), TimesIn(sel, b, k);
    PartOf(sel, n);
    BucketRows(One, sel, part, b, k);
    SumOfOnes(One, Group(part, b, k));
    forall i | 0 <= i < |tk| ensures |WithKey(TimeOf, tk[i], part)| == 1 {
      assert tk[i] in Keys(TimeOf, sel);
    }
    OnesOfGroups(TimeOf, part, tk);
  }

  lemma AveragesAdd(x: real, y: real, n: nat)
    requires n > 0
    ensures Average(x, n) + Average(y, n) == Average(x + y, n)
  {
    assert x / n as real + y / n as real == (x + y) / n as real;
  }

  lemma AverageOfNothing(n: nat)
    requires n > 0
    ensures Average(0.0, n) == 0.0
  {
  }

  lemma {:induction false} AveragesAddUp(h: string -> real, avg: real -> real, f: Row -> real, g: seq<Row>,
                                         names: seq<string>)
    requires avg(0.0) == 0.0 && forall x, y :: avg(x) + avg(y) == avg(x + y)
    requires forall n :: n in names ==> h(n) == avg(Sum(f, WithKey(NameOf, n, g)))
    ensures Sum(h, names) == avg(SumOfGroups(f, NameOf, g, names))
    decreases |names|
  {
    if names != [] {
      assert names[0] in names;
      AveragesAddUp(h, avg, f, g, names[1..]);
    }
  }

  function AverageOver(c: nat): real -> real
    requires c > 0
  {
    (x: real) => Average(x, c)
  }

  /** Averaging over one count is additive, so the averages of a bucket's name groups add up
      to the average of the bucket. */
  lemma NameAveragesAddUp(h: string -> real, f: Row -> real, g: seq<Row>, names: seq<string>, c: nat)
    requires c > 0 && NoDuplicates(names) && forall x :: x in g ==> NameOf(x) in names
    requires forall n :: n in names ==> h(n) == Average(Sum(f, WithKey(NameOf, n, g)), c)
    ensures Sum(h, names) == Average(Sum(f, g), c)
  {
    AverageOfNothing(c);
    forall x, y ensures AverageOver(c)(x) + AverageOver(c)(y) == AverageOver(c)(x + y) {
      AveragesAdd(x, y, c);
    }
    AveragesAddUp(h, AverageOver(c), f, g, names);
    GroupsPartition(f, NameOf, g, names);
    AllWithin(f, NameOf, g, names);
  }

  // ----- The sum law ---------------------------------------------------------

  /** The cpu of the point with label `t`, or 0 where the series has no such point. */
  function CpuAt(ps: seq<Point>, t: int): real {
    if ps == [] then 0.0 else if ps[0].timestamp == t then ps[0].cpu else CpuAt(ps[1..], t)
  }

  function MemoryAt(ps: seq<Point>, t: int): real {
    if ps == [] then 0.0 else if ps[0].timestamp == t then ps[0].memory else MemoryAt(ps[1..], t)
  }

  /** What a process's series says about label `t`. */
  function CpuOf(rows: seq<Row>, since: int, until: int, t: int): string -> real {
    (n: string) => CpuAt(SeriesForProcess(rows, n, since, until), t)
  }

  function MemoryOf(rows: seq<Row>, since: int, until: int, t: int): string -> real {
    (n: string) => MemoryAt(SeriesForProcess(rows, n, since, until), t)
  }

  /** Each overall point is the sum of the processes' points for the same bucket. */
  ghost predicate SumLaw(rows: seq<Row>, names: seq<string>, since: int, until: int) {
    forall i :: 0 <= i < |AggregateSeries(rows, since, until)| ==>
      var p := AggregateSeries(rows, since, until)[i];
      && p.cpu == Sum(CpuOf(rows, since, until, p.timestamp), names)
      && p.memory == Sum(MemoryOf(rows, since, until, p.timestamp), names)
  }

  lemma {:induction false} PointFound(ps: seq<Point>, i: nat)
    requires i < |ps| && forall j, m :: 0 <= j < m < |ps| ==> ps[j].timestamp < ps[m].timestamp
    ensures CpuAt(ps, ps[i].timestamp) == ps[i].cpu && MemoryAt(ps, ps[i].timestamp) == ps[i].memory
    decreases |ps|
  {
    if i > 0 {
      PointFound(ps[1..], i - 1);
    }
  }

  lemma {:induction false} PointMissing(ps: seq<Point>, t: int)
    requires forall j :: 0 <= j < |ps| ==> ps[j].timestamp != t
    ensures CpuAt(ps, t) == 0.0 && MemoryAt(ps, t) == 0.0
    decreases |ps|
  {
    if ps != [] {
      PointMissing(ps[1..], t);
    }
  }

  lemma LabelsDiffer(k: int, l: int, b: nat)
    requires b >= 1 && k != l
    ensures k * b != l * b
  {
    if k < l {
      TimesMonotone(k + 1, l, b);
      assert (k + 1) * b == k * b + b;
    } else {
      TimesMonotone(l + 1, k, b);
      assert (l + 1) * b == l * b + b;
    }
  }

  lemma KeyOfGroup(sel: seq<Row>, b: nat, k: int)
    requires b >= 1 && Group(sel, b, k) != []
    ensures k in Keys(BucketOf(b), sel)
  {
    var g := Group(sel, b, k);
    assert g[0] in sel && BucketOf(b)(g[0]) == k;
    KeyPresent(BucketOf(b), sel, g[0]);
  }

  lemma KeyHasGroup(sel: seq<Row>, b: nat, i: nat)
    requires b >= 1 && i < |Keys(BucketOf(b), sel)|
    ensures Group(sel, b, Keys(BucketOf(b), sel)[i]) != []
  {
    assert |Bucketed(sel, b)| == |Keys(BucketOf(b), sel)|;
  }

  lemma NoPoint(sel: seq<Row>, b: nat, k: int)
    requires b >= 1 && Group(sel, b, k) == []
    ensures CpuAt(Bucketed(sel, b), k * b) == 0.0 && MemoryAt(Bucketed(sel, b), k * b) == 0.0
  {
    var ps, ks := Bucketed(sel, b), Keys(BucketOf(b), sel);
    forall j | 0 <= j < |ps| ensures ps[j].timestamp != k * b {
      KeyHasGroup(sel, b, j);
      LabelsDiffer(ks[j], k, b);
    }
    PointMissing(ps, k * b);
  }

  /** The point of bucket `k`: the average over the bucket's rows, or nothing. */
  lemma PointOfBucket(sel: seq<Row>, b: nat, k: int)
    requires b >= 1
    ensures var g := Group(sel, b, k);
      && CpuAt(Bucketed(sel, b), k * b) == (if g == [] then 0.0 else Average(Sum(Cpu, g), |g|))
      && MemoryAt(Bucketed(sel, b), k * b) == (if g == [] then 0.0 else Average(Sum(Memory, g), |g|))
  {
    if Group(sel, b, k) == [] {
      NoPoint(sel, b, k);
    } else {
      KeyOfGroup(sel, b, k);
      var i := IndexIn(Keys(BucketOf(b), sel), k);
      BucketedAscends(sel, b);
      PointFound(Bucketed(sel, b), i);
    }
  }

  /** The same for one process of the window. */
  lemma ProcessPoint(rows: seq<Row>, n: string, since: int, until: int, k: int)
    ensures var b := BucketMs(since, until);
      var g := WithKey(NameOf, n, Group(InWindow(rows, since, until), b, k));
      && CpuOf(rows, since, until, k * b)(n) == (if g == [] then 0.0 else Average(Sum(Cpu, g), |g|))
      && MemoryOf(rows, since, until, k * b)(n) == (if g == [] then 0.0 else Average(Sum(Memory, g), |g|))
  {
    var sel, b := InWindow(rows, since, until), BucketMs(since, until);
    PointOfBucket(Selected(rows, n, since, until), b, k);
    KeysCommute(BucketOf(b), k, NameOf, n, sel);
  }

  lemma TotalAt(rows: seq<Row>, since: int, until: int, i: nat)
    requires i < |AggregateSeries(rows, since, until)|
    ensures var sel, b := InWindow(rows, since, until), BucketMs(since, until);
      var p := AggregateSeries(rows, since, until)[i];
      |Keys(BucketOf(b), sel)| == |AggregateSeries(rows, since, until)| &&
      var k := Keys(BucketOf(b), sel)[i];
      && |TimesIn(sel, b, k)| > 0 && p.timestamp == k * b
      && p.cpu == Average(Sum(Cpu, Group(sel, b, k)), |TimesIn(sel, b, k)|)
      && p.memory == Average(Sum(Memory, Group(sel, b, k)), |TimesIn(sel, b, k)|)
  {
    var sel, b := InWindow(rows, since, until), BucketMs(since, until);
    SameBuckets(sel, b);
    BucketInstantsSum(sel, b, Keys(BucketOf(b), sel)[i]);
  }

  lemma BucketNames(sel: seq<Row>, names: seq<string>, b: nat, k: int)
    requires b >= 1 && Lists(names, sel)
    ensures forall x :: x in Group(sel, b, k) ==> NameOf(x) in names
  {
    GroupIsBucket(sel, b, k);
  }

  /** With matching counts a process's point is its bucket total over the number of instants. */
  lemma MatchedPoint(rows: seq<Row>, n: string, since: int, until: int, k: int, c: nat)
    requires c > 0
    requires var g := WithKey(NameOf, n, Group(InWindow(rows, since, until), BucketMs(since, until), k));
      |g| == 0 || |g| == c
    ensures var b := BucketMs(since, until);
      var g := WithKey(NameOf, n, Group(InWindow(rows, since, until), b, k));
      && CpuOf(rows, since, until, k * b)(n) == Average(Sum(Cpu, g), c)
      && MemoryOf(rows, since, until, k * b)(n) == Average(Sum(Memory, g), c)
  {
    ProcessPoint(rows, n, since, until, k);
    AverageOfNothing(c);
  }

  lemma OverallPoint(rows: seq<Row>, names: seq<string>, since: int, until: int, i: nat)
    requires Lists(names, InWindow(rows, since, until))
    requires CountsMatch(InWindow(rows, since, until), names, BucketMs(since, until))
    requires i < |AggregateSeries(rows, since, until)|
    ensures var p := AggregateSeries(rows, since, until)[i];
      && p.cpu == Sum(CpuOf(rows, since, until, p.timestamp), names)
      && p.memory == Sum(MemoryOf(rows, since, until, p.timestamp), names)
  {
    var sel, b := InWindow(rows, since, until), BucketMs(since, until);
    TotalAt(rows, since, until, i);
    var k := Keys(BucketOf(b), sel)[i];
    var g, c := Group(sel, b, k), |TimesIn(sel, b, k)|;
    BucketNames(sel, names, b, k);
    forall n | n in names
      ensures CpuOf(rows, since, until, k * b)(n) == Average(Sum(Cpu, WithKey(NameOf, n, g)), c)
      ensures MemoryOf(rows, since, until, k * b)(n) == Average(Sum(Memory, WithKey(NameOf, n, g)), c)
    {
      assert Count(sel, n, b, k) == 0 || Count(sel, n, b, k) == c;
      MatchedPoint(rows, n, since, until, k, c);
    }
    NameAveragesAddUp(CpuOf(rows, since, until, k * b), Cpu, g, names, c);
    NameAveragesAddUp(MemoryOf(rows, since, until, k * b), Memory, g, names, c);
  }

  /** When in each bucket each process has no row or one per instant, the overall series is
      the sum of the processes' series. */
  lemma OverallIsSumOfProcesses(rows: seq<Row>, names: seq<string>, since: int, until: int)
    requires Lists(names, InWindow(rows, since, until))
    requires CountsMatch(InWindow(rows, since, until), names, BucketMs(since, until))
    ensures SumLaw(rows, names, since, until)
  {
    forall i | 0 <= i < |AggregateSeries(rows, since, until)|
      ensures var p := AggregateSeries(rows, since, until)[i];
        && p.cpu == Sum(CpuOf(rows, since, until, p.timestamp), names)
        && p.memory == Sum(MemoryOf(rows, since, until, p.timestamp), names)
    {
      OverallPoint(rows, names, since, until, i);
    }
  }

  lemma OneRowCounts(sel: seq<Row>, names: seq<string>, b: nat)
    requires b >= 1 && OneRowEach(sel, names)
    ensures CountsMatch(sel, names, b)
  {
    forall n, k | n in names && k in Keys(BucketOf(b), sel) ensures Count(sel, n, b, k) == |TimesIn(sel, b, k)| {
      ProcessCount(sel, names, n, b, k);
      KeysCommute(BucketOf(b), k, NameOf, n, sel);
    }
  }

  lemma SamePoints(rows: seq<Row>, names: seq<string>, n: string, since: int, until: int)
    requires OneRowEach(InWindow(rows, since, until), names) && n in names
    ensures SameLabels(SeriesForProcess(rows, n, since, until), AggregateSeries(rows, since, until))
  {
    var sel, b := InWindow(rows, since, until), BucketMs(since, until);
    SameBuckets(sel, b);
    ProcessBuckets(sel, names, n, b);
  }

  predicate SameLabels(one: seq<Point>, all: seq<Total>) {
    |one| == |all| && forall i :: 0 <= i < |all| ==> one[i].timestamp == all[i].timestamp
  }

  /** In particular with exactly one row per process at every instant; then the series also
      have the same points. */
  lemma OneRowEachSums(rows: seq<Row>, names: seq<string>, since: int, until: int)
    requires OneRowEach(InWindow(rows, since, until), names)
    ensures SumLaw(rows, names, since, until)
    ensures forall n :: n in names ==>
      SameLabels(SeriesForProcess(rows, n, since, until), AggregateSeries(rows, since, until))
  {
    OneRowCounts(InWindow(rows, since, until), names, BucketMs(since, until));
    OverallIsSumOfProcesses(rows, names, since, until);
    forall n | n in names
      ensures SameLabels(SeriesForProcess(rows, n, since, until), AggregateSeries(rows, since, until))
    {
      SamePoints(rows, names, n, since, until);
    }
  }

  // ----- Where the sum law stops ---------------------------------------------

  lemma OneBucketKeys(r: Row, q: Row, b: nat)
    requires b >= 1 && r.timestamp == q.timestamp
    ensures Keys(TimeOf, [r, q]) == [TimeOf(r)] && Keys(BucketOf(b), [r, q]) == [r.timestamp / b]
  {
    var rows := [r, q];
    assert rows[1..] == [q] && [q][1..] == [];
    assert Keys(TimeOf, [q]) == [TimeOf(q)];
    assert Keys(BucketOf(b), [q]) == [q.timestamp / b];
  }

  lemma SumOfTwo(f: Row -> real, r: Row, q: Row)
    ensures Sum(f, [r, q]) == f(r) + f(q)
  {
    var rows := [r, q];
    assert rows[1..] == [q] && [q][1..] == [];
    assert Sum(f, [q]) == f(q) + Sum(f, []);
  }

  /** Two instances of a process under one name (cluster mode) at one instant: the overall
      series adds them, the process's own series averages them. */
  lemma ClusterInstancesAreAveraged(r: Row, q: Row, since: int, until: int)
    requires r.name == q.name && r.timestamp == q.timestamp && since <= r.timestamp <= until
    ensures var all, one := AggregateSeries([r, q], since, until), SeriesForProcess([r, q], r.name, since, until);
      && |all| == 1 && |one| == 1
      && Times(all[0].cpu, 1) == r.cpu + q.cpu && Times(all[0].memory, 1) == r.memory as real + q.memory as real
      && Times(one[0].cpu, 2) == r.cpu + q.cpu && Times(one[0].memory, 2) == r.memory as real + q.memory as real
  {
    var rows, b := [r, q], BucketMs(since, until);
    assert rows[1..] == [q] && [q][1..] == [];
    assert InWindow([q], since, until) == [q];
    assert InWindow(rows, since, until) == rows;
    assert WithKey(NameOf, r.name, [q]) == [q];
    assert WithKey(NameOf, r.name, rows) == rows;
    var k := r.timestamp / b;
    OneBucketKeys(r, q, b);
    assert WithKey(BucketOf(b), k, [q]) == [q];
    assert Group(rows, b, k) == rows;
    SumOfTwo(Cpu, r, q);
    SumOfTwo(Memory, r, q);
    AggregateConserves(rows, since, until);
    var ts := [TimeOf(r)];
    assert ts[1..] == [];
    assert WithKey(TimeBucket(b), k, ts[1..]) == [];
    assert |TimesIn(rows, b, k)| == 1;
  }
}
