// GROUP BY and aggregates over sequences of rows.
module Grouping {

  /** The rows whose key is `k`. */
  function WithKey<T, K(==)>(key: T -> K, k: K, s: seq<T>): (r: seq<T>)
    ensures |r| <= |s|
    ensures forall i :: 0 <= i < |r| ==> r[i] in s && key(r[i]) == k
    ensures forall i :: 0 <= i < |s| && key(s[i]) == k ==> s[i] in r
  {
    if s == [] then []
    else if key(s[0]) == k then [s[0]] + WithKey(key, k, s[1..])
    else WithKey(key, k, s[1..])
  }

  function Sum<T>(f: T -> real, s: seq<T>): real {
    if s == [] then 0.0 else f(s[0]) + Sum(f, s[1..])
  }

  predicate NoDuplicates<K(==)>(ks: seq<K>) {
    forall i, j :: 0 <= i < j < |ks| ==> ks[i] != ks[j]
  }

  /** The sums of the groups of `ks`, added up. */
  function SumOfGroups<T, K(==)>(f: T -> real, key: T -> K, s: seq<T>, ks: seq<K>): real {
    if ks == [] then 0.0 else Sum(f, WithKey(key, ks[0], s)) + SumOfGroups(f, key, s, ks[1..])
  }

  /** The sum over the rows whose key is one of `ks`. */
  function SumWithin<T, K(==)>(f: T -> real, key: T -> K, s: seq<T>, ks: seq<K>): real {
    if s == [] then 0.0
    else (if key(s[0]) in ks then f(s[0]) else 0.0) + SumWithin(f, key, s[1..], ks)
  }

  lemma {:induction false} GroupsGainRow<T, K>(f: T -> real, key: T -> K, s: seq<T>, ks: seq<K>)
    requires s != [] && NoDuplicates(ks)
    ensures SumOfGroups(f, key, s, ks) ==
      SumOfGroups(f, key, s[1..], ks) + (if key(s[0]) in ks then f(s[0]) else 0.0)
    decreases |ks|
  {
    if ks != [] {
      GroupsGainRow(f, key, s, ks[1..]);
      var g := WithKey(key, ks[0], s);
      if key(s[0]) == ks[0] {
        assert g[1..] == WithKey(key, ks[0], s[1..]);
        assert ks[0] !in ks[1..];
      }
    }
  }

  /** Grouping partitions: distinct groups add up to the sum over their rows. */
  lemma {:induction false} GroupsPartition<T, K>(f: T -> real, key: T -> K, s: seq<T>, ks: seq<K>)
    requires NoDuplicates(ks)
    ensures SumOfGroups(f, key, s, ks) == SumWithin(f, key, s, ks)
    decreases |s|
  {
    if s == [] {
      NoRows(f, key, s, ks);
    } else {
      GroupsPartition(f, key, s[1..], ks);
      GroupsGainRow(f, key, s, ks);
    }
  }

  lemma {:induction false} NoRows<T, K>(f: T -> real, key: T -> K, s: seq<T>, ks: seq<K>)
    requires s == []
    ensures SumOfGroups(f, key, s, ks) == 0.0
    decreases |ks|
  {
    if ks != [] {
      NoRows(f, key, s, ks[1..]);
    }
  }

  lemma {:induction false} AllWithin<T, K>(f: T -> real, key: T -> K, s: seq<T>, ks: seq<K>)
    requires forall x :: x in s ==> key(x) in ks
    ensures SumWithin(f, key, s, ks) == Sum(f, s)
    decreases |s|
  {
    if s != [] {
      assert s[0] in s;
      AllWithin(f, key, s[1..], ks);
    }
  }

  /** When membership of the key in `ks` is the same as another key being `k`. */
  lemma {:induction false} WithinIsGroup<T, K, L>(f: T -> real, key: T -> K, s: seq<T>, ks: seq<K>, other: T -> L, k: L)
    requires forall x :: x in s ==> (key(x) in ks <==> other(x) == k)
    ensures SumWithin(f, key, s, ks) == Sum(f, WithKey(other, k, s))
    decreases |s|
  {
    if s != [] {
      assert s[0] in s;
      WithinIsGroup(f, key, s[1..], ks, other, k);
      var g := WithKey(other, k, s);
      if other(s[0]) == k {
        assert g[1..] == WithKey(other, k, s[1..]);
      }
    }
  }

  lemma {:induction false} KeysCommute<T, K, L>(key: T -> K, k: K, other: T -> L, l: L, s: seq<T>)
    ensures WithKey(key, k, WithKey(other, l, s)) == WithKey(other, l, WithKey(key, k, s))
    decreases |s|
  {
    if s != [] {
      KeysCommute(key, k, other, l, s[1..]);
      var a, b := WithKey(other, l, s), WithKey(key, k, s);
      if other(s[0]) == l {
        assert a[0] == s[0] && a[1..] == WithKey(other, l, s[1..]);
      }
      if key(s[0]) == k {
        assert b[0] == s[0] && b[1..] == WithKey(key, k, s[1..]);
      }
    }
  }

  function One<T>(x: T): real {
    1.0
  }

  lemma {:induction false} SumOfOnes<T>(f: T -> real, s: seq<T>)
    requires forall x :: x in s ==> f(x) == 1.0
    ensures Sum(f, s) == |s| as real
  {
    if s != [] {
      assert s[0] in s;
      SumOfOnes(f, s[1..]);
    }
  }

  // ----- Sorted distinct keys ------------------------------------------------

  predicate Ascending(ks: seq<int>) {
    forall i, j :: 0 <= i < j < |ks| ==> ks[i] < ks[j]
  }

  function Insert(ks: seq<int>, k: int): (r: seq<int>)
    requires Ascending(ks)
    ensures Ascending(r) && forall x :: x in r <==> x == k || x in ks
  {
    if ks == [] || k < ks[0] then [k] + ks
    else if k == ks[0] then ks
    else
      var rest := Insert(ks[1..], k);
      assert forall j :: 0 <= j < |rest| ==> ks[0] < rest[j] by {
        forall j | 0 <= j < |rest| ensures ks[0] < rest[j] {
          assert rest[j] in rest;
        }
      }
      [ks[0]] + rest
  }

  /** SELECT DISTINCT key ... ORDER BY key. */
  function Keys<T>(key: T -> int, s: seq<T>): (r: seq<int>)
    ensures Ascending(r)
    ensures forall i :: 0 <= i < |s| ==> key(s[i]) in r
    ensures forall k :: k in r ==> exists i :: 0 <= i < |s| && key(s[i]) == k
  {
    if s == [] then []
    else
      var before := Keys(key, s[1..]);
      assert forall k :: k in before ==> exists i :: 1 <= i < |s| && key(s[i]) == k by {
        forall k | k in before ensures exists i :: 1 <= i < |s| && key(s[i]) == k {
          var i :| 0 <= i < |s[1..]| && key(s[1..][i]) == k;
          assert s[i + 1] == s[1..][i];
        }
      }
      Insert(before, key(s[0]))
  }

  lemma {:induction false} AscendingIsDetermined(a: seq<int>, b: seq<int>)
    requires Ascending(a) && Ascending(b)
    requires forall k :: k in a <==> k in b
    ensures a == b
  {
    assert a != [] ==> a[0] in a;
    assert b != [] ==> b[0] in b;
    if a != [] && b != [] {
      assert a[0] in b && b[0] in a;
      assert a[0] == b[0];
      forall k ensures k in a[1..] <==> k in b[1..] {
        assert k in a <==> k == a[0] || k in a[1..];
        assert k in b <==> k == b[0] || k in b[1..];
      }
      AscendingIsDetermined(a[1..], b[1..]);
    }
  }

  /** Strictly ascending integers between bounds are at most as many as the bounds allow. */
  lemma {:induction false} AscendingIsShort(ks: seq<int>, lo: int, hi: int)
    requires Ascending(ks) && lo <= hi + 1
    requires forall k :: k in ks ==> lo <= k <= hi
    ensures |ks| <= hi - lo + 1
  {
    if ks != [] {
      assert ks[0] in ks;
      forall k | k in ks[1..] ensures ks[0] + 1 <= k <= hi {
        assert k in ks;
      }
      AscendingIsShort(ks[1..], ks[0] + 1, hi);
    }
  }

  /** An ascending list that has all integers between bounds is at least as long. */
  lemma {:induction false} AscendingIsLong(ks: seq<int>, lo: int, hi: int)
    requires Ascending(ks) && lo <= hi && forall k :: lo <= k <= hi ==> k in ks
    ensures |ks| >= hi - lo + 1
    decreases hi - lo
  {
    if lo < hi {
      assert hi in ks;
      var j :| 0 <= j < |ks| && ks[j] == hi;
      forall k | lo <= k <= hi - 1 ensures k in ks[..j] {
        assert k in ks;
        var i :| 0 <= i < |ks| && ks[i] == k;
        assert i < j;
      }
      AscendingIsLong(ks[..j], lo, hi - 1);
    } else {
      assert lo in ks;
    }
  }

  lemma {:induction false} SelectionAscends(key: int -> int, k: int, ks: seq<int>)
    requires Ascending(ks)
    ensures Ascending(WithKey(key, k, ks))
    decreases |ks|
  {
    if ks != [] {
      SelectionAscends(key, k, ks[1..]);
      var r := WithKey(key, k, ks[1..]);
      forall i | 0 <= i < |r| ensures ks[0] < r[i] {
        assert r[i] in ks[1..];
      }
    }
  }

  /** When every group of `ks` has one row, the group sizes add up to the number of keys. */
  lemma {:induction false} OnesOfGroups<T, K>(key: T -> K, s: seq<T>, ks: seq<K>)
    requires forall i :: 0 <= i < |ks| ==> |WithKey(key, ks[i], s)| == 1
    ensures SumOfGroups(One, key, s, ks) == |ks| as real
    decreases |ks|
  {
    if ks != [] {
      SumOfOnes(One, WithKey(key, ks[0], s));
      OnesOfGroups(key, s, ks[1..]);
    }
  }
}
