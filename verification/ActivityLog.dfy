// The activity log and offset paging through it while it grows and is pruned.
module ActivityLog {
  import opened Text

  /** The columns the queries only carry along. */
  datatype Data = Data(
    message: string, username: Option<string>, ipAddress: Option<string>, metadata: Option<string>)

  datatype Entry = Entry(id: nat, kind: string, data: Data, createdAt: string)

  datatype Log = Log(entries: seq<Entry>, nextId: nat)

  const PAGE: nat := 25

  // ----- Queries -------------------------------------------------------------

  /** The WHERE clause of a page: no filter for the empty type. */
  predicate Wanted(e: Entry, kind: string) {
    kind == "" || e.kind == kind
  }

  function Matching(es: seq<Entry>, kind: string): (r: seq<Entry>)
    ensures |r| <= |es|
  {
    if es == [] then []
    else if Wanted(es[0], kind) then [es[0]] + Matching(es[1..], kind)
    else Matching(es[1..], kind)
  }

  function Reverse<T>(s: seq<T>): (r: seq<T>)
    ensures |r| == |s| && forall i :: 0 <= i < |s| ==> r[i] == s[|s| - 1 - i]
  {
    seq(|s|, i requires 0 <= i < |s| => s[|s| - 1 - i])
  }

  /** LIMIT and OFFSET. */
  function Slice<T>(s: seq<T>, offset: nat, limit: nat): seq<T> {
    if offset >= |s| then []
    else if offset + limit >= |s| then s[offset..]
    else s[offset..offset + limit]
  }

  /** activityRepository.list: clamped, newest id first. */
  function List(es: seq<Entry>, limit: int, offset: int, kind: string): seq<Entry> {
    var lim: nat := if limit < 1 then 1 else if limit > 500 then 500 else limit;
    var off: nat := if offset < 0 then 0 else offset;
    Slice(Reverse(Matching(es, kind)), off, lim)
  }

  function Count(es: seq<Entry>, kind: string): nat {
    |Matching(es, kind)|
  }

  /** The rows a filter lets through, newest first. */
  function Newest(es: seq<Entry>, kind: string): seq<Entry> {
    Reverse(Matching(es, kind))
  }

  /** One load of the pager. */
  function Page(es: seq<Entry>, kind: string, offset: nat): seq<Entry> {
    List(es, PAGE, offset, kind)
  }

  predicate NextDisabled(es: seq<Entry>, kind: string, offset: nat) {
    offset + PAGE >= Count(es, kind)
  }

  // ----- Changes -------------------------------------------------------------

  /** A change of the log: a row with its created_at text, or a deletion by cutoff text. */
  datatype Event = Record(kind: string, data: Data, stamp: string) | Prune(cutoff: string)

  /** DELETE FROM activity_log WHERE created_at < cutoff. */
  function WithoutOlder(es: seq<Entry>, cutoff: string): (r: seq<Entry>)
    ensures |r| <= |es|
  {
    if es == [] then []
    else if Less(es[0].createdAt, cutoff) then WithoutOlder(es[1..], cutoff)
    else [es[0]] + WithoutOlder(es[1..], cutoff)
  }

  function Apply(l: Log, ev: Event): Log {
    match ev
    case Record(kind, data, stamp) => Log(l.entries + [Entry(l.nextId, kind, data, stamp)], l.nextId + 1)
    case Prune(cutoff) => l.(entries := WithoutOlder(l.entries, cutoff))
  }

  class ActivityRepository {
    var log: Log

    constructor ()
      ensures log == Log([], 1)
    {
      log := Log([], 1);
    }

    /** INSERT with the database's clock text, then read the row back. */
    method Create(kind: string, data: Data, stamp: string) returns (e: Entry)
      modifies this
      ensures log == Apply(old(log), Record(kind, data, stamp))
      ensures log.entries == old(log).entries + [e] && log.nextId == old(log).nextId + 1
      ensures e == Entry(old(log).nextId, kind, data, stamp) && e in log.entries
    {
      e := Entry(log.nextId, kind, data, stamp);
      log := Log(log.entries + [e], log.nextId + 1);
    }

    method DeleteOlderThan(cutoff: string) returns (changes: nat)
      modifies this
      ensures log == Apply(old(log), Prune(cutoff))
      ensures changes == |old(log).entries| - |log.entries|
    {
      var kept := WithoutOlder(log.entries, cutoff);
      changes := |log.entries| - |kept|;
      log := log.(entries := kept);
    }
  }

  lemma {:induction false} WithoutOlderMembers(es: seq<Entry>, cutoff: string, e: Entry)
    ensures e in WithoutOlder(es, cutoff) <==> e in es && !Less(e.createdAt, cutoff)
    decreases |es|
  {
    if es != [] {
      WithoutOlderMembers(es[1..], cutoff, e);
    }
  }

  /** Pruning keeps exactly the rows whose text is not before the cutoff's. */
  lemma PruneKeeps(l: Log, cutoff: string, e: Entry)
    ensures e in Apply(l, Prune(cutoff)).entries <==> e in l.entries && !Less(e.createdAt, cutoff)
  {
    WithoutOlderMembers(l.entries, cutoff, e);
  }

  // ----- What a filter sees of a change --------------------------------------

  lemma MatchingCons(e: Entry, s: seq<Entry>, kind: string)
    ensures Matching([e] + s, kind) == (if Wanted(e, kind) then [e] else []) + Matching(s, kind)
  {
    assert ([e] + s)[0] == e && ([e] + s)[1..] == s;
  }

  lemma {:induction false} MatchingConcat(a: seq<Entry>, b: seq<Entry>, kind: string)
    ensures Matching(a + b, kind) == Matching(a, kind) + Matching(b, kind)
    decreases |a|
  {
    if a == [] {
      assert a + b == b;
    } else {
      MatchingConcat(a[1..], b, kind);
      MatchingCons(a[0], a[1..], kind);
      MatchingCons(a[0], a[1..] + b, kind);
      assert a == [a[0]] + a[1..];
      ConcatAssoc([a[0]], a[1..], b);
      ConcatAssoc(if Wanted(a[0], kind) then [a[0]] else [], Matching(a[1..], kind), Matching(b, kind));
    }
  }

  lemma {:induction false} MatchingMembers(es: seq<Entry>, kind: string, e: Entry)
    ensures e in Matching(es, kind) <==> e in es && Wanted(e, kind)
    decreases |es|
  {
    if es != [] {
      MatchingMembers(es[1..], kind, e);
    }
  }

  lemma {:induction false} MatchingPruned(es: seq<Entry>, kind: string, cutoff: string)
    ensures Matching(WithoutOlder(es, cutoff), kind) == WithoutOlder(Matching(es, kind), cutoff)
    decreases |es|
  {
    if es != [] {
      MatchingPruned(es[1..], kind, cutoff);
      MatchingCons(es[0], WithoutOlder(es[1..], cutoff), kind);
      if Wanted(es[0], kind) {
        assert Matching(es, kind)[1..] == Matching(es[1..], kind);
      }
    }
  }

  lemma MatchingRecorded(l: Log, kind: string, ev: Event)
    requires ev.Record?
    ensures var e := Entry(l.nextId, ev.kind, ev.data, ev.stamp);
      Matching(Apply(l, ev).entries, kind) == Matching(l.entries, kind) + (if Wanted(e, kind) then [e] else [])
  {
    var e := Entry(l.nextId, ev.kind, ev.data, ev.stamp);
    MatchingConcat(l.entries, [e], kind);
    MatchingCons(e, [], kind);
    assert [e] + [] == [e];
  }

  // ----- Ids -----------------------------------------------------------------

  ghost predicate Ascending(es: seq<Entry>) {
    forall i, j :: 0 <= i < j < |es| ==> es[i].id < es[j].id
  }

  ghost predicate Below(es: seq<Entry>, nextId: nat) {
    forall e :: e in es ==> e.id < nextId
  }

  ghost predicate IdsAscend(l: Log) {
    Ascending(l.entries) && Below(l.entries, l.nextId)
  }

  lemma {:induction false} MatchingAscends(es: seq<Entry>, kind: string)
    requires Ascending(es)
    ensures Ascending(Matching(es, kind))
    decreases |es|
  {
    if es != [] {
      MatchingAscends(es[1..], kind);
      var rest := Matching(es[1..], kind);
      forall j | 0 <= j < |rest| ensures es[0].id < rest[j].id {
        MatchingMembers(es[1..], kind, rest[j]);
      }
    }
  }

  lemma MatchingBelow(es: seq<Entry>, kind: string, nextId: nat)
    requires Below(es, nextId)
    ensures Below(Matching(es, kind), nextId)
  {
    forall e | e in Matching(es, kind) ensures e.id < nextId {
      MatchingMembers(es, kind, e);
    }
  }

  lemma {:induction false} PrunedAscends(es: seq<Entry>, cutoff: string)
    requires Ascending(es)
    ensures Ascending(WithoutOlder(es, cutoff))
    decreases |es|
  {
    if es != [] {
      PrunedAscends(es[1..], cutoff);
      var rest := WithoutOlder(es[1..], cutoff);
      forall j | 0 <= j < |rest| ensures es[0].id < rest[j].id {
        WithoutOlderMembers(es[1..], cutoff, rest[j]);
      }
    }
  }

  /** No change of the log disturbs the order of ids. */
  lemma ApplyKeepsIds(l: Log, ev: Event)
    requires IdsAscend(l)
    ensures IdsAscend(Apply(l, ev)) && l.nextId <= Apply(l, ev).nextId
  {
    match ev
    case Record(_, _, _) =>
      forall i | 0 <= i < |l.entries| ensures l.entries[i].id < l.nextId {
        assert l.entries[i] in l.entries;
      }
    case Prune(cutoff) =>
      PrunedAscends(l.entries, cutoff);
      forall e | e in WithoutOlder(l.entries, cutoff) ensures e.id < l.nextId {
        WithoutOlderMembers(l.entries, cutoff, e);
      }
  }

  // ----- Prunings that cut the old end ---------------------------------------

  /** Whoever is removed, everyone older goes too. */
  predicate CutsOldEnd(fs: seq<Entry>, cutoff: string) {
    forall i, j :: 0 <= i < j < |fs| && Less(fs[j].createdAt, cutoff) ==> Less(fs[i].createdAt, cutoff)
  }

  lemma {:induction false} NothingOlder(fs: seq<Entry>, cutoff: string)
    requires forall e :: e in fs ==> !Less(e.createdAt, cutoff)
    ensures WithoutOlder(fs, cutoff) == fs
    decreases |fs|
  {
    if fs != [] {
      assert fs[0] in fs;
      NothingOlder(fs[1..], cutoff);
    }
  }

  lemma {:induction false} OldEndIsBlock(fs: seq<Entry>, cutoff: string) returns (k: nat)
    requires CutsOldEnd(fs, cutoff)
    ensures k <= |fs| && WithoutOlder(fs, cutoff) == fs[k..]
    decreases |fs|
  {
    if fs == [] {
      k := 0;
    } else if Less(fs[0].createdAt, cutoff) {
      var j := OldEndIsBlock(fs[1..], cutoff);
      k := j + 1;
    } else {
      k := 0;
      forall e | e in fs ensures !Less(e.createdAt, cutoff) {
        var i :| 0 <= i < |fs| && fs[i] == e;
      }
      NothingOlder(fs, cutoff);
    }
  }

  /** `gs` is `fs` without its `k` oldest entries and with newer ones added, from `nextId`. */
  ghost predicate LaterBy(fs: seq<Entry>, gs: seq<Entry>, k: nat, nextId: nat) {
    && k <= |fs| && |fs| - k <= |gs|
    && gs[..|fs| - k] == fs[k..]
    && forall j :: |fs| - k <= j < |gs| ==> gs[j].id >= nextId
  }

  lemma LaterTransitive(a: seq<Entry>, b: seq<Entry>, c: seq<Entry>, k: nat, j: nat, m: nat, n: nat) returns (t: nat)
    requires LaterBy(a, b, k, m) && LaterBy(b, c, j, n) && m <= n
    ensures LaterBy(a, c, t, m)
  {
    var kept := |a| - k;
    if j <= kept {
      t := k + j;
      assert c[..kept - j] == c[..|b| - j][..kept - j] == b[j..][..kept - j];
      assert b[j..][..kept - j] == b[..kept][j..] == a[k..][j..] == a[t..];
      LaterIds(a, b, c, k, j, m, n, kept - j);
    } else {
      t := |a|;
      LaterIds(a, b, c, k, j, m, n, 0);
    }
  }

  /** Entries of `c` past the survivors of `a` are newer than `a`. */
  lemma LaterIds(a: seq<Entry>, b: seq<Entry>, c: seq<Entry>, k: nat, j: nat, m: nat, n: nat, from: nat)
    requires LaterBy(a, b, k, m) && LaterBy(b, c, j, n) && m <= n
    requires from + j >= |a| - k
    ensures forall i :: from <= i < |c| ==> c[i].id >= m
  {
    forall i | from <= i < |c| ensures c[i].id >= m {
      if i < |b| - j {
        assert c[i] == c[..|b| - j][i] == b[j..][i] == b[i + j];
      }
    }
  }

  lemma SameIsLater(fs: seq<Entry>, nextId: nat)
    ensures LaterBy(fs, fs, 0, nextId)
  {
    assert fs[..|fs|] == fs[0..];
  }

  lemma ApplyIsLater(l: Log, kind: string, ev: Event) returns (k: nat)
    requires ev.Prune? ==> CutsOldEnd(Matching(l.entries, kind), ev.cutoff)
    ensures LaterBy(Matching(l.entries, kind), Matching(Apply(l, ev).entries, kind), k, l.nextId)
  {
    var fs := Matching(l.entries, kind);
    match ev
    case Record(_, _, _) =>
      k := 0;
      MatchingRecorded(l, kind, ev);
      assert Matching(Apply(l, ev).entries, kind)[..|fs|] == fs[0..];
    case Prune(cutoff) =>
      MatchingPruned(l.entries, kind, cutoff);
      k := OldEndIsBlock(fs, cutoff);
  }

  // ----- What happens between two page loads ---------------------------------

  function Evolve(l: Log, evs: seq<Event>): Log
    decreases |evs|
  {
    if evs == [] then l else Evolve(Apply(l, evs[0]), evs[1..])
  }

  /** Every pruning, when it happens, cuts the old end of what the filter sees. */
  predicate PrunesOldEnd(l: Log, kind: string, evs: seq<Event>)
    decreases |evs|
  {
    evs == [] ||
    ((evs[0].Prune? ==> CutsOldEnd(Matching(l.entries, kind), evs[0].cutoff))
     && PrunesOldEnd(Apply(l, evs[0]), kind, evs[1..]))
  }

  lemma {:induction false} EvolveKeepsIds(l: Log, evs: seq<Event>)
    requires IdsAscend(l)
    ensures IdsAscend(Evolve(l, evs)) && l.nextId <= Evolve(l, evs).nextId
    decreases |evs|
  {
    if evs != [] {
      ApplyKeepsIds(l, evs[0]);
      EvolveKeepsIds(Apply(l, evs[0]), evs[1..]);
    }
  }

  lemma {:induction false} EvolveIsLater(l: Log, kind: string, evs: seq<Event>) returns (k: nat)
    requires IdsAscend(l) && PrunesOldEnd(l, kind, evs)
    ensures LaterBy(Matching(l.entries, kind), Matching(Evolve(l, evs).entries, kind), k, l.nextId)
    decreases |evs|
  {
    var fs := Matching(l.entries, kind);
    if evs == [] {
      k := 0;
      SameIsLater(fs, l.nextId);
    } else {
      var m := Apply(l, evs[0]);
      ApplyKeepsIds(l, evs[0]);
      var j := ApplyIsLater(l, kind, evs[0]);
      var n := EvolveIsLater(m, kind, evs[1..]);
      k := LaterTransitive(fs, Matching(m.entries, kind), Matching(Evolve(l, evs).entries, kind),
                           j, n, l.nextId, m.nextId);
    }
  }

  // ----- Where an entry stands in the pages ----------------------------------

  /** The entry at `i` is shown on the page that covers its rank from the top, ... */
  lemma ShownOnPage(es: seq<Entry>, kind: string, i: nat, offset: nat)
    requires i < |Matching(es, kind)| && offset <= |Matching(es, kind)| - 1 - i < offset + PAGE
    ensures Matching(es, kind)[i] in Page(es, kind, offset)
  {
    var fs := Matching(es, kind);
    var rank := |fs| - 1 - i;
    assert Newest(es, kind)[rank] == fs[i];
    var page := Slice(Newest(es, kind), offset, PAGE);
    assert page[rank - offset] == fs[i];
  }

  /** ... and on no other. */
  lemma ShownNowhereElse(es: seq<Entry>, kind: string, i: nat, offset: nat)
    requires Ascending(es) && i < |Matching(es, kind)|
    requires !(offset <= |Matching(es, kind)| - 1 - i < offset + PAGE)
    ensures Matching(es, kind)[i] !in Page(es, kind, offset)
  {
    var fs := Matching(es, kind);
    MatchingAscends(es, kind);
    SliceMembers(Newest(es, kind), offset, PAGE, fs[i]);
    forall p | offset <= p < offset + PAGE && p < |fs| ensures Newest(es, kind)[p] != fs[i] {
      DifferentIds(fs, |fs| - 1 - p, i);
    }
  }

  /** The rows a filter lets through that stand above `e`. */
  ghost function Above(es: seq<Entry>, kind: string, e: Entry): set<Entry> {
    set x | x in es && (kind == "" || x.kind == kind) && x.id > e.id
  }

  lemma {:induction false} SetOfAscending(fs: seq<Entry>)
    requires Ascending(fs)
    ensures |set x | x in fs| == |fs|
    decreases |fs|
  {
    if fs != [] {
      SetOfAscending(fs[1..]);
      assert (set x | x in fs) == {fs[0]} + (set x | x in fs[1..]);
    }
  }

  lemma AboveCount(es: seq<Entry>, kind: string, i: nat)
    requires Ascending(es) && i < |Matching(es, kind)|
    ensures |Above(es, kind, Matching(es, kind)[i])| == |Matching(es, kind)| - 1 - i
  {
    var fs := Matching(es, kind);
    MatchingAscends(es, kind);
    var newer := fs[i + 1..];
    forall x ensures x in Above(es, kind, fs[i]) <==> x in newer {
      MatchingMembers(es, kind, x);
    }
    assert Above(es, kind, fs[i]) == set x | x in newer;
    SetOfAscending(newer);
  }

  lemma ListRank(es: seq<Entry>, limit: nat, offset: nat, kind: string, i: nat)
    requires Ascending(es) && i < |Matching(es, kind)|
    ensures var fs := Matching(es, kind);
      fs[i] in Slice(Newest(es, kind), offset, limit) <==> offset <= |fs| - 1 - i < offset + limit
  {
    var fs := Matching(es, kind);
    MatchingAscends(es, kind);
    SliceMembers(Newest(es, kind), offset, limit, fs[i]);
    assert Newest(es, kind)[|fs| - 1 - i] == fs[i];
    forall p | 0 <= p < |fs| && Newest(es, kind)[p] == fs[i] ensures p == |fs| - 1 - i {
      SameId(fs, |fs| - 1 - p, i);
    }
  }

  /** A list holds the rows the filter lets through that have at least `offset` and fewer than
      `offset + limit` such rows above them, newest first, after clamping both numbers. */
  lemma ListIsByRank(l: Log, limit: int, offset: int, kind: string)
    requires IdsAscend(l)
    ensures var page := List(l.entries, limit, offset, kind);
      var least := if offset < 0 then 0 else offset;
      var most := if limit < 1 then 1 else if limit > 500 then 500 else limit;
      && (forall e :: e in page <==>
            && e in l.entries && (kind == "" || e.kind == kind)
            && least <= |Above(l.entries, kind, e)| < least + most)
      && (forall i, j :: 0 <= i < j < |page| ==> page[i].id > page[j].id)
  {
    var fs, page := Matching(l.entries, kind), List(l.entries, limit, offset, kind);
    var least: nat := if offset < 0 then 0 else offset;
    var most: nat := if limit < 1 then 1 else if limit > 500 then 500 else limit;
    forall e ensures e in page <==>
        e in l.entries && (kind == "" || e.kind == kind) && least <= |Above(l.entries, kind, e)| < least + most {
      MatchingMembers(l.entries, kind, e);
      if e in fs {
        var i :| 0 <= i < |fs| && fs[i] == e;
        AboveCount(l.entries, kind, i);
        ListRank(l.entries, most, least, kind, i);
      } else {
        SliceMembers(Newest(l.entries, kind), least, most, e);
        ReverseMembers(fs, e);
      }
    }
    MatchingAscends(l.entries, kind);
    ReverseDescends(fs);
    SliceAt(Newest(l.entries, kind), least, most);
  }

  lemma SliceAt<T>(s: seq<T>, offset: nat, limit: nat)
    ensures var r := Slice(s, offset, limit);
      (r == [] || offset + |r| <= |s|) && forall i :: 0 <= i < |r| ==> r[i] == s[offset + i]
  {
  }

  lemma DifferentIds(fs: seq<Entry>, i: nat, j: nat)
    requires Ascending(fs) && i < |fs| && j < |fs| && i != j
    ensures fs[i] != fs[j]
  {
  }

  lemma SameId(fs: seq<Entry>, i: nat, j: nat)
    requires Ascending(fs) && i < |fs| && j < |fs| && fs[i] == fs[j]
    ensures i == j
  {
  }

  lemma SliceMembers<T>(s: seq<T>, offset: nat, limit: nat, x: T)
    ensures x in Slice(s, offset, limit) <==> exists p :: offset <= p < offset + limit && p < |s| && s[p] == x
  {
    var r := Slice(s, offset, limit);
    if x in r {
      var q :| 0 <= q < |r| && r[q] == x;
      assert s[offset + q] == x;
    }
    if p :| offset <= p < offset + limit && p < |s| && s[p] == x {
      assert r[p - offset] == x;
    }
  }

  lemma Survivor(fs: seq<Entry>, gs: seq<Entry>, k: nat, nextId: nat, e: Entry) returns (j: nat)
    requires LaterBy(fs, gs, k, nextId) && e.id < nextId && e in gs
    ensures k + j < |fs| && j < |gs| && gs[j] == e == fs[k + j]
  {
    j :| j < |gs| && gs[j] == e;
    assert gs[j] == gs[..|fs| - k][j] == fs[k..][j];
  }

  // ----- The walk ------------------------------------------------------------

  /** The log after all batches of changes. */
  function Final(l: Log, batches: seq<seq<Event>>): Log
    decreases |batches|
  {
    if batches == [] then l else Final(Evolve(l, batches[0]), batches[1..])
  }

  /** The pages loaded at offsets 25n, 25(n + 1), ..., with one batch of changes after each
      load but the last. */
  function Pages(l: Log, batches: seq<seq<Event>>, kind: string, n: nat): seq<seq<Entry>>
    decreases |batches|
  {
    [Page(l.entries, kind, PAGE * n)]
    + if batches == [] then [] else Pages(Evolve(l, batches[0]), batches[1..], kind, n + 1)
  }

  predicate AllPruneOldEnd(l: Log, kind: string, batches: seq<seq<Event>>)
    decreases |batches|
  {
    batches == [] || (PrunesOldEnd(l, kind, batches[0]) && AllPruneOldEnd(Evolve(l, batches[0]), kind, batches[1..]))
  }

  lemma {:induction false} FinalIsLater(l: Log, kind: string, batches: seq<seq<Event>>) returns (k: nat)
    requires IdsAscend(l) && AllPruneOldEnd(l, kind, batches)
    ensures LaterBy(Matching(l.entries, kind), Matching(Final(l, batches).entries, kind), k, l.nextId)
    decreases |batches|
  {
    var fs := Matching(l.entries, kind);
    if batches == [] {
      k := 0;
      SameIsLater(fs, l.nextId);
    } else {
      var m := Evolve(l, batches[0]);
      EvolveKeepsIds(l, batches[0]);
      var j := EvolveIsLater(l, kind, batches[0]);
      var n := FinalIsLater(m, kind, batches[1..]);
      k := LaterTransitive(fs, Matching(m.entries, kind), Matching(Final(l, batches).entries, kind),
                           j, n, l.nextId, m.nextId);
    }
  }

  ghost predicate Shown(pages: seq<seq<Entry>>, e: Entry) {
    exists p :: p in pages && e in p
  }

  lemma {:induction false} WalkFrom(l: Log, batches: seq<seq<Event>>, kind: string, n: nat, i: nat)
    requires IdsAscend(l) && AllPruneOldEnd(l, kind, batches)
    requires i < |Matching(l.entries, kind)| && PAGE * n <= |Matching(l.entries, kind)| - 1 - i
    requires Matching(l.entries, kind)[i] in Matching(Final(l, batches).entries, kind)
    requires NextDisabled(Final(l, batches).entries, kind, PAGE * (n + |batches|))
    ensures Shown(Pages(l, batches, kind, n), Matching(l.entries, kind)[i])
    decreases |batches|
  {
    var fs := Matching(l.entries, kind);
    if |fs| - 1 - i < PAGE * n + PAGE {
      ShownOnPage(l.entries, kind, i, PAGE * n);
      ShownFirst(l, batches, kind, n, fs[i]);
    } else {
      assert batches != [];
      var j := NextPosition(l, batches, kind, i);
      EvolveKeepsIds(l, batches[0]);
      WalkFrom(Evolve(l, batches[0]), batches[1..], kind, n + 1, j);
      ShownLater(l, batches, kind, n, fs[i]);
    }
  }

  lemma ShownFirst(l: Log, batches: seq<seq<Event>>, kind: string, n: nat, e: Entry)
    requires e in Page(l.entries, kind, PAGE * n)
    ensures Shown(Pages(l, batches, kind, n), e)
  {
    var pages := Pages(l, batches, kind, n);
    assert pages[0] == Page(l.entries, kind, PAGE * n) && pages[0] in pages;
  }

  lemma ShownLater(l: Log, batches: seq<seq<Event>>, kind: string, n: nat, e: Entry)
    requires batches != [] && Shown(Pages(Evolve(l, batches[0]), batches[1..], kind, n + 1), e)
    ensures Shown(Pages(l, batches, kind, n), e)
  {
    var later := Pages(Evolve(l, batches[0]), batches[1..], kind, n + 1);
    var p :| p in later && e in p;
    assert Pages(l, batches, kind, n) == [Page(l.entries, kind, PAGE * n)] + later;
  }

  /** Where a surviving entry stands at the next load: no nearer to the top. */
  lemma NextPosition(l: Log, batches: seq<seq<Event>>, kind: string, i: nat) returns (j: nat)
    requires IdsAscend(l) && batches != [] && AllPruneOldEnd(l, kind, batches)
    requires i < |Matching(l.entries, kind)|
    requires Matching(l.entries, kind)[i] in Matching(Final(l, batches).entries, kind)
    ensures var fs, gs := Matching(l.entries, kind), Matching(Evolve(l, batches[0]).entries, kind);
      j < |gs| && gs[j] == fs[i] && |fs| - 1 - i <= |gs| - 1 - j
  {
    var m := Evolve(l, batches[0]);
    var fs, gs := Matching(l.entries, kind), Matching(m.entries, kind);
    MatchingBelow(l.entries, kind, l.nextId);
    MatchingAscends(l.entries, kind);
    assert fs[i] in fs;
    EvolveKeepsIds(l, batches[0]);
    var k := EvolveIsLater(l, kind, batches[0]);
    var f := FinalIsLater(m, kind, batches[1..]);
    var at := Survivor(gs, Matching(Final(l, batches).entries, kind), f, m.nextId, fs[i]);
    assert gs[f + at] in gs;
    j := Survivor(fs, gs, k, l.nextId, fs[i]);
    SameId(fs, k + j, i);
  }

  /** Paging from the top until Next is disabled shows every matching entry that was there
      at the start and was not pruned, whatever is recorded between the loads and under
      whatever stamps, as long as each pruning cuts the old end of what the filter sees. */
  lemma WalkNeverSkips(l: Log, batches: seq<seq<Event>>, kind: string, e: Entry)
    requires IdsAscend(l) && AllPruneOldEnd(l, kind, batches)
    requires e in l.entries && (kind == "" || e.kind == kind) && e in Final(l, batches).entries
    requires NextDisabled(Final(l, batches).entries, kind, PAGE * |batches|)
    ensures Shown(Pages(l, batches, kind, 0), e)
  {
    MatchingMembers(l.entries, kind, e);
    MatchingMembers(Final(l, batches).entries, kind, e);
    var i :| 0 <= i < |Matching(l.entries, kind)| && Matching(l.entries, kind)[i] == e;
    WalkFrom(l, batches, kind, 0, i);
  }

  predicate RecordsOnly(evs: seq<Event>) {
    forall ev :: ev in evs ==> ev.Record?
  }

  lemma {:induction false} RecordsPruneNothing(l: Log, kind: string, evs: seq<Event>)
    requires RecordsOnly(evs)
    ensures PrunesOldEnd(l, kind, evs)
    decreases |evs|
  {
    if evs != [] {
      assert evs[0] in evs;
      RecordsPruneNothing(Apply(l, evs[0]), kind, evs[1..]);
    }
  }

  lemma {:induction false} AllRecordsPruneNothing(l: Log, kind: string, batches: seq<seq<Event>>)
    requires forall evs :: evs in batches ==> RecordsOnly(evs)
    ensures AllPruneOldEnd(l, kind, batches)
    decreases |batches|
  {
    if batches != [] {
      assert batches[0] in batches;
      RecordsPruneNothing(l, kind, batches[0]);
      AllRecordsPruneNothing(Evolve(l, batches[0]), kind, batches[1..]);
    }
  }

  lemma {:induction false} RecordsKeep(l: Log, evs: seq<Event>, e: Entry)
    requires RecordsOnly(evs) && e in l.entries
    ensures e in Evolve(l, evs).entries
    decreases |evs|
  {
    if evs != [] {
      assert evs[0] in evs;
      RecordsKeep(Apply(l, evs[0]), evs[1..], e);
    }
  }

  lemma {:induction false} AllRecordsKeep(l: Log, batches: seq<seq<Event>>, e: Entry)
    requires e in l.entries && forall evs :: evs in batches ==> RecordsOnly(evs)
    ensures e in Final(l, batches).entries
    decreases |batches|
  {
    if batches != [] {
      assert batches[0] in batches;
      RecordsKeep(l, batches[0], e);
      AllRecordsKeep(Evolve(l, batches[0]), batches[1..], e);
    }
  }

  /** While nothing is pruned, the walk skips nothing, whatever is recorded and however it is
      stamped. */
  lemma RecordingNeverSkips(l: Log, batches: seq<seq<Event>>, kind: string, e: Entry)
    requires IdsAscend(l) && e in l.entries && (kind == "" || e.kind == kind)
    requires forall evs :: evs in batches ==> RecordsOnly(evs)
    requires NextDisabled(Final(l, batches).entries, kind, PAGE * |batches|)
    ensures Shown(Pages(l, batches, kind, 0), e)
  {
    AllRecordsPruneNothing(l, kind, batches);
    AllRecordsKeep(l, batches, e);
    WalkNeverSkips(l, batches, kind, e);
  }

  // ----- Stamps that do not go back ------------------------------------------

  ghost predicate StampsAscend(es: seq<Entry>, top: string) {
    && (forall i, j :: 0 <= i < j < |es| ==> !Less(es[j].createdAt, es[i].createdAt))
    && (forall i :: 0 <= i < |es| ==> !Less(top, es[i].createdAt))
  }

  lemma NotLessSteps(s: string, t: string, u: string)
    requires !Less(s, t) && !Less(t, u)
    ensures !Less(s, u)
  {
    LessTotal(s, t);
    LessTotal(t, u);
    if Less(s, u) && t != u {
      LessTransitive(s, u, t);
    }
  }

  lemma LessThenNot(s: string, t: string, u: string)
    requires Less(s, t) && !Less(s, u)
    ensures Less(u, t)
  {
    LessTotal(s, u);
    if s != u {
      LessTransitive(u, s, t);
    }
  }

  lemma OrderedIsOldEnd(fs: seq<Entry>, top: string, cutoff: string)
    requires StampsAscend(fs, top)
    ensures CutsOldEnd(fs, cutoff)
  {
    forall i, j | 0 <= i < j < |fs| && Less(fs[j].createdAt, cutoff) ensures Less(fs[i].createdAt, cutoff) {
      LessThenNot(fs[j].createdAt, cutoff, fs[i].createdAt);
    }
  }

  lemma {:induction false} MatchingOrdered(es: seq<Entry>, kind: string, top: string)
    requires StampsAscend(es, top)
    ensures StampsAscend(Matching(es, kind), top)
    decreases |es|
  {
    if es != [] {
      MatchingOrdered(es[1..], kind, top);
      var rest := Matching(es[1..], kind);
      forall j | 0 <= j < |rest| ensures !Less(rest[j].createdAt, es[0].createdAt) {
        MatchingMembers(es[1..], kind, rest[j]);
        var i :| 0 <= i < |es[1..]| && es[1..][i] == rest[j];
        assert es[i + 1] == rest[j];
      }
    }
  }

  /** The latest stamp after the events, when it was `top` before. */
  function TopAfter(top: string, evs: seq<Event>): string
    decreases |evs|
  {
    if evs == [] then top else TopAfter(if evs[0].Record? then evs[0].stamp else top, evs[1..])
  }

  /** Stamps of new rows never go back behind `top`. */
  predicate Clocked(top: string, evs: seq<Event>)
    decreases |evs|
  {
    evs == [] || (if evs[0].Record? then !Less(evs[0].stamp, top) && Clocked(evs[0].stamp, evs[1..])
                  else Clocked(top, evs[1..]))
  }

  predicate AllClocked(top: string, batches: seq<seq<Event>>)
    decreases |batches|
  {
    batches == [] || (Clocked(top, batches[0]) && AllClocked(TopAfter(top, batches[0]), batches[1..]))
  }

  lemma RecordKeepsOrder(l: Log, top: string, ev: Event)
    requires StampsAscend(l.entries, top) && ev.Record? && !Less(ev.stamp, top)
    ensures StampsAscend(Apply(l, ev).entries, ev.stamp)
  {
    forall i | 0 <= i < |l.entries| ensures !Less(ev.stamp, l.entries[i].createdAt) {
      NotLessSteps(ev.stamp, top, l.entries[i].createdAt);
    }
    LessTotal(ev.stamp, ev.stamp);
  }

  lemma PruneKeepsOrder(l: Log, top: string, cutoff: string)
    requires StampsAscend(l.entries, top)
    ensures StampsAscend(Apply(l, Prune(cutoff)).entries, top)
  {
    OrderedIsOldEnd(l.entries, top, cutoff);
    var k := OldEndIsBlock(l.entries, cutoff);
  }

  lemma {:induction false} ClockedPrunesOldEnd(l: Log, kind: string, top: string, evs: seq<Event>)
    requires StampsAscend(l.entries, top) && Clocked(top, evs)
    ensures PrunesOldEnd(l, kind, evs) && StampsAscend(Evolve(l, evs).entries, TopAfter(top, evs))
    decreases |evs|
  {
    if evs != [] {
      match evs[0] {
        case Record(_, _, stamp) =>
          RecordKeepsOrder(l, top, evs[0]);
          ClockedPrunesOldEnd(Apply(l, evs[0]), kind, stamp, evs[1..]);
        case Prune(cutoff) =>
          PruneKeepsOrder(l, top, cutoff);
          MatchingOrdered(l.entries, kind, top);
          OrderedIsOldEnd(Matching(l.entries, kind), top, cutoff);
          ClockedPrunesOldEnd(Apply(l, evs[0]), kind, top, evs[1..]);
      }
    }
  }

  lemma {:induction false} AllClockedPruneOldEnd(l: Log, kind: string, top: string, batches: seq<seq<Event>>)
    requires StampsAscend(l.entries, top) && AllClocked(top, batches)
    ensures AllPruneOldEnd(l, kind, batches)
    decreases |batches|
  {
    if batches != [] {
      ClockedPrunesOldEnd(l, kind, top, batches[0]);
      AllClockedPruneOldEnd(Evolve(l, batches[0]), kind, TopAfter(top, batches[0]), batches[1..]);
    }
  }

  /** If stamps do not go back, prunings with any cutoffs may run as well. */
  lemma ClockedWalkNeverSkips(l: Log, top: string, batches: seq<seq<Event>>, kind: string, e: Entry)
    requires IdsAscend(l) && StampsAscend(l.entries, top) && AllClocked(top, batches)
    requires e in l.entries && (kind == "" || e.kind == kind) && e in Final(l, batches).entries
    requires NextDisabled(Final(l, batches).entries, kind, PAGE * |batches|)
    ensures Shown(Pages(l, batches, kind, 0), e)
  {
    AllClockedPruneOldEnd(l, kind, top, batches);
    WalkNeverSkips(l, batches, kind, e);
  }

  // ----- An unchanged log ----------------------------------------------------

  /** "Page x / pages". */
  function PageCount(total: nat): nat {
    var pages := (total + PAGE - 1) / PAGE;
    if pages < 1 then 1 else pages
  }

  function Joined<T>(page: nat -> seq<T>, n: nat): seq<T> {
    if n == 0 then [] else Joined(page, n - 1) + page(n - 1)
  }

  function FirstPages(es: seq<Entry>, kind: string, n: nat): seq<Entry> {
    Joined((i: nat) => Page(es, kind, PAGE * i), n)
  }

  function Take<T>(s: seq<T>, n: nat): seq<T> {
    if n <= |s| then s[..n] else s
  }

  lemma SliceExtends<T>(s: seq<T>, offset: nat, limit: nat)
    ensures Take(s, offset) + Slice(s, offset, limit) == Take(s, offset + limit)
  {
  }

  lemma {:induction false} JoinedIs<T>(page: nat -> seq<T>, whole: nat -> seq<T>, n: nat)
    requires whole(0) == []
    requires forall i: nat {:trigger page(i)} :: whole(i) + page(i) == whole(i + 1)
    ensures Joined(page, n) == whole(n)
  {
    if n > 0 {
      JoinedIs(page, whole, n - 1);
      assert whole(n - 1) + page(n - 1) == whole(n);
    }
  }

  lemma PageExtends(es: seq<Entry>, kind: string, i: nat)
    ensures Take(Newest(es, kind), PAGE * i) + Page(es, kind, PAGE * i) == Take(Newest(es, kind), PAGE * (i + 1))
  {
    SliceExtends(Newest(es, kind), PAGE * i, PAGE);
  }

  lemma PagesAreAPrefix(es: seq<Entry>, kind: string, n: nat)
    ensures FirstPages(es, kind, n) == Take(Newest(es, kind), PAGE * n)
  {
    var page, whole := (i: nat) => Page(es, kind, PAGE * i), (i: nat) => Take(Newest(es, kind), PAGE * i);
    forall i: nat ensures whole(i) + page(i) == whole(i + 1) {
      PageExtends(es, kind, i);
    }
    JoinedIs(page, whole, n);
  }

  lemma NextUntilLastPage(total: nat, i: nat)
    ensures PAGE * i + PAGE >= total <==> i + 1 >= PageCount(total)
  {
  }

  lemma ReverseMembers(s: seq<Entry>, e: Entry)
    ensures e in Reverse(s) <==> e in s
  {
    if e in s {
      var i :| 0 <= i < |s| && s[i] == e;
      assert Reverse(s)[|s| - 1 - i] == e;
    }
  }

  lemma ReverseDescends(s: seq<Entry>)
    requires Ascending(s)
    ensures forall i, j :: 0 <= i < j < |s| ==> Reverse(s)[i].id > Reverse(s)[j].id
  {
  }

  lemma AllPages(es: seq<Entry>, kind: string)
    ensures FirstPages(es, kind, PageCount(Count(es, kind))) == Reverse(Matching(es, kind))
  {
    PagesAreAPrefix(es, kind, PageCount(Count(es, kind)));
  }

  /** On an unchanged log the pages, shown until Next is disabled, are the whole filtered log
      in strictly descending id, in max(1, ceil(total / 25)) pages. */
  lemma PagesAreWholeLog(l: Log, kind: string)
    requires IdsAscend(l)
    ensures var n := PageCount(Count(l.entries, kind));
      var all := FirstPages(l.entries, kind, n);
      && (forall i: nat :: NextDisabled(l.entries, kind, PAGE * i) <==> i + 1 >= n)
      && (forall e :: e in all <==> e in l.entries && (kind == "" || e.kind == kind))
      && (forall i, j :: 0 <= i < j < |all| ==> all[i].id > all[j].id)
  {
    var matching := Matching(l.entries, kind);
    AllPages(l.entries, kind);
    MatchingAscends(l.entries, kind);
    ReverseDescends(matching);
    forall i: nat ensures NextDisabled(l.entries, kind, PAGE * i) <==> i + 1 >= PageCount(|matching|) {
      NextUntilLastPage(|matching|, i);
    }
    forall e ensures e in Reverse(matching) <==> e in l.entries && (kind == "" || e.kind == kind) {
      MatchingMembers(l.entries, kind, e);
      ReverseMembers(matching, e);
    }
  }

  // ----- The pager -----------------------------------------------------------

  /** The activity view: offset, filter and the state of its two buttons. */
  class Pager {
    var offset: nat
    var kind: string
    var items: seq<Entry>
    var prevDisabled: bool
    var nextDisabled: bool

    ghost predicate Valid()
      reads this
    {
      offset % PAGE == 0 && (prevDisabled <==> offset == 0)
    }

    ghost predicate Shows(es: seq<Entry>)
      reads this
    {
      items == Page(es, kind, offset) && nextDisabled == NextDisabled(es, kind, offset)
    }

    constructor (es: seq<Entry>)
      ensures Valid() && Shows(es) && offset == 0 && kind == ""
    {
      offset, kind := 0, "";
      items, prevDisabled, nextDisabled := Page(es, "", 0), true, NextDisabled(es, "", 0);
    }

    method Load(es: seq<Entry>)
      requires offset % PAGE == 0
      modifies this
      ensures Valid() && Shows(es) && offset == old(offset) && kind == old(kind)
    {
      items := List(es, PAGE, offset, kind);
      prevDisabled := offset <= 0;
      nextDisabled := offset + PAGE >= Count(es, kind);
    }

    /** A click on Next, which a disabled button does not deliver. */
    method Next(es: seq<Entry>)
      requires Valid() && !nextDisabled
      modifies this
      ensures Valid() && Shows(es) && offset == old(offset) + PAGE && kind == old(kind)
    {
      offset := offset + PAGE;
      Load(es);
    }

    method Previous(es: seq<Entry>)
      requires Valid()
      modifies this
      ensures Valid() && kind == old(kind)
      ensures old(offset) == 0 ==> offset == 0 && items == old(items)
      ensures old(offset) > 0 ==> Shows(es) && offset == old(offset) - PAGE
    {
      if offset > 0 {
        offset := if offset > PAGE then offset - PAGE else 0;
        Load(es);
      }
    }

    method Filter(newKind: string, es: seq<Entry>)
      modifies this
      ensures Valid() && Shows(es) && offset == 0 && kind == newKind
    {
      kind, offset := newKind, 0;
      Load(es);
    }
  }

}
