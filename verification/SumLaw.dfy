// When the overall series is the sum of the processes' series: for all readings of the same
// samples, exactly when the counts match.
module SumLaw {
  import opened Grouping
  import opened Metrics
  import opened Aggregate

  // ----- The same samples with other readings --------------------------------

  function Reread(rows: seq<Row>, cpu: Row -> real): (r: seq<Row>)
    ensures |r| == |rows| && forall i :: 0 <= i < |rows| ==> r[i] == rows[i].(cpu := cpu(rows[i]))
  {
    seq(|rows|, i requires 0 <= i < |rows| => rows[i].(cpu := cpu(rows[i])))
  }

  lemma RereadCons(rows: seq<Row>, cpu: Row -> real)
    requires rows != []
    ensures Reread(rows, cpu) == [rows[0].(cpu := cpu(rows[0]))] + Reread(rows[1..], cpu)
  {
  }

  lemma WindowCons(x: Row, rows: seq<Row>, since: int, until: int)
    ensures InWindow([x] + rows, since, until) ==
      (if since <= x.timestamp <= until then [x] else []) + InWindow(rows, since, until)
  {
    assert ([x] + rows)[1..] == rows;
  }

  lemma {:induction false} RereadWindow(rows: seq<Row>, cpu: Row -> real, since: int, until: int)
    ensures InWindow(Reread(rows, cpu), since, until) == Reread(InWindow(rows, since, until), cpu)
    decreases |rows|
  {
    if rows != [] {
      var x := rows[0];
      RereadWindow(rows[1..], cpu, since, until);
      RereadCons(rows, cpu);
      WindowCons(x.(cpu := cpu(x)), Reread(rows[1..], cpu), since, until);
      if since <= x.timestamp <= until {
        RereadCons([x] + InWindow(rows[1..], since, until), cpu);
      }
    }
  }

  /** The key does not look at the cpu reading. */
  ghost predicate Blind<K(!new)>(key: Row -> K) {
    forall x: Row, c: real :: key(x.(cpu := c)) == key(x)
  }

  lemma {:induction false} RereadGroup<K(!new)>(key: Row -> K, k: K, rows: seq<Row>, cpu: Row -> real)
    requires Blind(key)
    ensures WithKey(key, k, Reread(rows, cpu)) == Reread(WithKey(key, k, rows), cpu)
    decreases |rows|
  {
    if rows != [] {
      RereadGroup(key, k, rows[1..], cpu);
      RereadCons(rows, cpu);
      assert Reread(rows, cpu)[1..] == Reread(rows[1..], cpu);
      assert key(Reread(rows, cpu)[0]) == key(rows[0]);
      if key(rows[0]) == k {
        RereadCons(WithKey(key, k, rows), cpu);
        assert WithKey(key, k, rows)[1..] == WithKey(key, k, rows[1..]);
      }
    }
  }

  lemma {:induction false} RereadKeys(key: Row -> int, rows: seq<Row>, cpu: Row -> real)
    requires Blind(key)
    ensures Keys(key, Reread(rows, cpu)) == Keys(key, rows)
    decreases |rows|
  {
    if rows != [] {
      RereadKeys(key, rows[1..], cpu);
      assert Reread(rows, cpu)[1..] == Reread(rows[1..], cpu);
      assert key(Reread(rows, cpu)[0]) == key(rows[0]);
    }
  }

  /** The rows of a process in a bucket. */
  lemma RereadPart(sel: seq<Row>, cpu: Row -> real, n: string, b: nat, k: int)
    requires b >= 1
    ensures Group(Reread(sel, cpu), b, k) == Reread(Group(sel, b, k), cpu)
    ensures WithKey(NameOf, n, Group(Reread(sel, cpu), b, k)) == Reread(WithKey(NameOf, n, Group(sel, b, k)), cpu)
  {
    RereadGroup(BucketOf(b), k, sel, cpu);
    RereadGroup(NameOf, n, Group(sel, b, k), cpu);
  }

  lemma RereadTimes(sel: seq<Row>, cpu: Row -> real, b: nat, k: int)
    requires b >= 1
    ensures TimesIn(Reread(sel, cpu), b, k) == TimesIn(sel, b, k)
  {
    RereadKeys(TimeOf, sel, cpu);
  }

  lemma RereadLists(names: seq<string>, sel: seq<Row>, cpu: Row -> real)
    requires Lists(names, sel)
    ensures Lists(names, Reread(sel, cpu))
  {
    forall x | x in Reread(sel, cpu) ensures x.name in names {
      var i :| 0 <= i < |sel| && Reread(sel, cpu)[i] == x;
      assert sel[i] in sel;
    }
  }

  /** Matching counts do not depend on the readings. */
  lemma RereadMatches(sel: seq<Row>, names: seq<string>, cpu: Row -> real, b: nat)
    requires b >= 1 && CountsMatch(sel, names, b)
    ensures CountsMatch(Reread(sel, cpu), names, b)
  {
    var again := Reread(sel, cpu);
    RereadKeys(BucketOf(b), sel, cpu);
    forall n, k | n in names && k in Keys(BucketOf(b), again)
      ensures Count(again, n, b, k) == 0 || Count(again, n, b, k) == |TimesIn(again, b, k)|
    {
      RereadPart(sel, cpu, n, b, k);
      RereadTimes(sel, cpu, b, k);
      assert Count(sel, n, b, k) == 0 || Count(sel, n, b, k) == |TimesIn(sel, b, k)|;
    }
  }

  // ----- Readings that tell processes apart ----------------------------------

  /** 1 for the rows of process `n`, 0 for the others. */
  function Marked(n: string): Row -> real {
    (x: Row) => if x.name == n then 1.0 else 0.0
  }

  lemma {:induction false} MarkedSum(g: seq<Row>, n: string)
    ensures Sum(Cpu, Reread(g, Marked(n))) == |WithKey(NameOf, n, g)| as real
    decreases |g|
  {
    if g != [] {
      MarkedSum(g[1..], n);
      assert Reread(g, Marked(n))[1..] == Reread(g[1..], Marked(n));
    }
  }

  lemma {:induction false} MarkedPart(g: seq<Row>, n: string, m: string)
    requires forall i :: 0 <= i < |g| ==> g[i].name == m
    ensures Sum(Cpu, Reread(g, Marked(n))) == if m == n then |g| as real else 0.0
    decreases |g|
  {
    if g != [] {
      MarkedPart(g[1..], n, m);
      assert Reread(g, Marked(n))[1..] == Reread(g[1..], Marked(n));
    }
  }

  lemma {:induction false} SumOfOneName(h: string -> real, names: seq<string>, n: string)
    requires NoDuplicates(names) && forall m :: m in names && m != n ==> h(m) == 0.0
    ensures Sum(h, names) == if n in names then h(n) else 0.0
    decreases |names|
  {
    if names != [] {
      SumOfOneName(h, names[1..], n);
      assert names[0] !in names[1..];
    }
  }

  lemma AverageOfCount(c: nat)
    requires c > 0
    ensures Average(c as real, c) == 1.0
  {
  }

  /** With these readings process `n`'s point is 1 in every bucket it has rows in, and the
      other processes' points are 0. */
  lemma MarkedPoints(rows: seq<Row>, n: string, m: string, since: int, until: int, k: int)
    ensures var b := BucketMs(since, until);
      var c := Count(InWindow(rows, since, until), m, b, k);
      CpuOf(Reread(rows, Marked(n)), since, until, k * b)(m) == if m == n && c > 0 then 1.0 else 0.0
  {
    var sel, b := InWindow(rows, since, until), BucketMs(since, until);
    var g := WithKey(NameOf, m, Group(sel, b, k));
    RereadWindow(rows, Marked(n), since, until);
    RereadPart(sel, Marked(n), m, b, k);
    ProcessPoint(Reread(rows, Marked(n)), m, since, until, k);
    forall i | 0 <= i < |g| ensures g[i].name == m {
      assert NameOf(g[i]) == m;
    }
    MarkedPart(g, n, m);
    if |g| > 0 {
      AverageOfCount(|g|);
      AverageOfNothing(|g|);
    }
  }

  /** The overall point: the process's share of the bucket's instants. */
  lemma MarkedTotal(rows: seq<Row>, n: string, since: int, until: int, i: nat)
    requires i < |Keys(BucketOf(BucketMs(since, until)), InWindow(rows, since, until))|
    ensures var sel, b := InWindow(rows, since, until), BucketMs(since, until);
      var k, all := Keys(BucketOf(b), sel)[i], AggregateSeries(Reread(rows, Marked(n)), since, until);
      && i < |all| && all[i].timestamp == k * b
      && Times(all[i].cpu, |TimesIn(sel, b, k)|) == Count(sel, n, b, k) as real
  {
    var sel, b := InWindow(rows, since, until), BucketMs(since, until);
    var k := Keys(BucketOf(b), sel)[i];
    RereadWindow(rows, Marked(n), since, until);
    RereadKeys(BucketOf(b), sel, Marked(n));
    RereadTimes(sel, Marked(n), b, k);
    RereadPart(sel, Marked(n), n, b, k);
    MarkedSum(Group(sel, b, k), n);
    AggregateConserves(Reread(rows, Marked(n)), since, until);
  }

  lemma TimesOne(t: nat)
    ensures Times(1.0, t) == t as real
  {
  }

  /** Where the counts do not match, these readings break the law. */
  lemma MarkedBreaksLaw(rows: seq<Row>, names: seq<string>, since: int, until: int, n: string, i: nat)
    requires Lists(names, InWindow(rows, since, until)) && n in names
    requires i < |Keys(BucketOf(BucketMs(since, until)), InWindow(rows, since, until))|
    requires var sel, b := InWindow(rows, since, until), BucketMs(since, until);
      var k := Keys(BucketOf(b), sel)[i];
      Count(sel, n, b, k) != 0 && Count(sel, n, b, k) != |TimesIn(sel, b, k)|
    ensures !SumLaw(Reread(rows, Marked(n)), names, since, until)
  {
    var sel, b := InWindow(rows, since, until), BucketMs(since, until);
    var k, again := Keys(BucketOf(b), sel)[i], Reread(rows, Marked(n));
    MarkedTotal(rows, n, since, until, i);
    var h := CpuOf(again, since, until, k * b);
    forall m | m in names ensures h(m) == if m == n then 1.0 else 0.0 {
      MarkedPoints(rows, n, m, since, until, k);
    }
    SumOfOneName(h, names, n);
    TimesOne(|TimesIn(sel, b, k)|);
    assert AggregateSeries(again, since, until)[i].cpu != Sum(h, names);
  }

  /** The law holds for the given samples whatever their cpu readings are, if and only if in
      each bucket each process has no sample or one per sample instant of the bucket. */
  lemma SumLawExactWhen(rows: seq<Row>, names: seq<string>, since: int, until: int)
    requires Lists(names, InWindow(rows, since, until))
    ensures (forall cpu: Row -> real :: SumLaw(Reread(rows, cpu), names, since, until)) <==>
      CountsMatch(InWindow(rows, since, until), names, BucketMs(since, until))
  {
    var sel, b := InWindow(rows, since, until), BucketMs(since, until);
    if CountsMatch(sel, names, b) {
      forall cpu: Row -> real ensures SumLaw(Reread(rows, cpu), names, since, until) {
        RereadWindow(rows, cpu, since, until);
        RereadLists(names, sel, cpu);
        RereadMatches(sel, names, cpu, b);
        OverallIsSumOfProcesses(Reread(rows, cpu), names, since, until);
      }
    } else {
      var n, k :| n in names && k in Keys(BucketOf(b), sel)
        && Count(sel, n, b, k) != 0 && Count(sel, n, b, k) != |TimesIn(sel, b, k)|;
      var i := IndexIn(Keys(BucketOf(b), sel), k);
      MarkedBreaksLaw(rows, names, since, until, n, i);
    }
  }
}
