// Why the pager needs prunings to cut the old end: any other pruning makes some walk skip an
// entry that was there throughout.
module ActivitySkips {
  import opened Text
  import opened ActivityLog

  // ----- Walks with one pruning ----------------------------------------------

  /** `n` page turns during which nothing happens. */
  function Idle(n: nat): (batches: seq<seq<Event>>)
    ensures |batches| == n && forall i :: 0 <= i < n ==> batches[i] == []
  {
    seq(n, _ => [])
  }

  lemma IdleCons(n: nat, more: seq<seq<Event>>)
    requires n > 0
    ensures (Idle(n) + more)[0] == [] && (Idle(n) + more)[1..] == Idle(n - 1) + more
  {
  }

  lemma {:induction false} IdleFinal(l: Log, n: nat, more: seq<seq<Event>>)
    ensures Final(l, Idle(n) + more) == Final(l, more)
  {
    if n == 0 {
      assert Idle(n) + more == more;
    } else {
      IdleCons(n, more);
      IdleFinal(l, n - 1, more);
    }
  }

  lemma {:induction false} IdlePrunes(l: Log, kind: string, n: nat, more: seq<seq<Event>>)
    ensures AllPruneOldEnd(l, kind, Idle(n) + more) <==> AllPruneOldEnd(l, kind, more)
  {
    if n == 0 {
      assert Idle(n) + more == more;
    } else {
      IdleCons(n, more);
      IdlePrunes(l, kind, n - 1, more);
    }
  }

  /** Entry `e` is not on page `m`. */
  predicate Off(l: Log, kind: string, e: Entry, m: nat) {
    e !in Page(l.entries, kind, PAGE * m)
  }

  /** Page `m` is the last one. */
  predicate LastPage(l: Log, kind: string, m: nat) {
    NextDisabled(l.entries, kind, PAGE * m)
  }

  function Turned(l: Log, kind: string, from: nat, n: nat): (pages: seq<seq<Entry>>)
    ensures |pages| == n && forall i :: 0 <= i < n ==> pages[i] == Page(l.entries, kind, PAGE * (from + i))
  {
    seq(n, i requires 0 <= i < n => Page(l.entries, kind, PAGE * (from + i)))
  }

  lemma TurnedCons(l: Log, kind: string, from: nat, n: nat)
    requires n > 0
    ensures Turned(l, kind, from, n) == [Page(l.entries, kind, PAGE * from)] + Turned(l, kind, from + 1, n - 1)
  {
  }

  lemma IdleTurn(l: Log, kind: string, n: nat, more: seq<seq<Event>>, from: nat)
    requires n > 0
    ensures Pages(l, Idle(n) + more, kind, from) ==
      [Page(l.entries, kind, PAGE * from)] + Pages(l, Idle(n - 1) + more, kind, from + 1)
  {
    IdleCons(n, more);
  }

  lemma {:induction false} IdlePages(l: Log, kind: string, n: nat, more: seq<seq<Event>>, from: nat)
    ensures Pages(l, Idle(n) + more, kind, from) == Turned(l, kind, from, n) + Pages(l, more, kind, from + n)
    decreases n
  {
    if n == 0 {
      assert Idle(n) + more == more;
    } else {
      IdleTurn(l, kind, n, more, from);
      TurnedCons(l, kind, from, n);
      IdlePages(l, kind, n - 1, more, from + 1);
      ConcatAssoc([Page(l.entries, kind, PAGE * from)],
                  Turned(l, kind, from + 1, n - 1), Pages(l, more, kind, from + n));
    }
  }

  lemma IdleShows(l: Log, kind: string, n: nat, more: seq<seq<Event>>, from: nat, e: Entry)
    requires forall m :: from <= m < from + n ==> Off(l, kind, e, m)
    requires !Shown(Pages(l, more, kind, from + n), e)
    ensures !Shown(Pages(l, Idle(n) + more, kind, from), e)
  {
    IdlePages(l, kind, n, more, from);
    var turned, rest := Turned(l, kind, from, n), Pages(l, more, kind, from + n);
    forall p | p in turned ensures e !in p {
      var i :| 0 <= i < n && turned[i] == p;
      assert Off(l, kind, e, from + i);
    }
    NotIn(turned, rest, e);
  }

  lemma NotIn(a: seq<seq<Entry>>, b: seq<seq<Entry>>, e: Entry)
    requires (forall p :: p in a ==> e !in p) && !Shown(b, e)
    ensures !Shown(a + b, e)
  {
  }

  lemma NotShownYet(l: Log, batches: seq<seq<Event>>, kind: string, n: nat, e: Entry)
    requires batches != [] && Off(l, kind, e, n)
    requires !Shown(Pages(Evolve(l, batches[0]), batches[1..], kind, n + 1), e)
    ensures !Shown(Pages(l, batches, kind, n), e)
  {
    var later := Pages(Evolve(l, batches[0]), batches[1..], kind, n + 1);
    forall p | p in Pages(l, batches, kind, n) ensures e !in p {
      assert p == Page(l.entries, kind, PAGE * n) || p in later;
    }
  }

  /** Next is enabled at every load but the last, and disabled there: a walk as the buttons
      allow it. */
  predicate Clickable(l: Log, batches: seq<seq<Event>>, kind: string, n: nat)
    decreases |batches|
  {
    if batches == [] then LastPage(l, kind, n)
    else !LastPage(l, kind, n) && Clickable(Evolve(l, batches[0]), batches[1..], kind, n + 1)
  }

  lemma {:induction false} IdleClicks(l: Log, kind: string, n: nat, more: seq<seq<Event>>, from: nat)
    requires forall m :: from <= m < from + n ==> !LastPage(l, kind, m)
    requires Clickable(l, more, kind, from + n)
    ensures Clickable(l, Idle(n) + more, kind, from)
    decreases n
  {
    if n == 0 {
      assert Idle(n) + more == more;
    } else {
      IdleCons(n, more);
      IdleClicks(l, kind, n - 1, more, from + 1);
    }
  }

  // ----- Filling the pages ---------------------------------------------------

  const NOTE := Data("", None, None, None)

  /** `q` new rows that the filter lets through, stamped `stamp`. */
  function Fill(kind: string, stamp: string, q: nat): (evs: seq<Event>)
    ensures |evs| == q && forall i :: 0 <= i < q ==> evs[i] == NewRow(kind, stamp)
  {
    seq(q, _ => NewRow(kind, stamp))
  }

  function NewRow(kind: string, stamp: string): Event {
    Record(if kind == "" then "logout" else kind, NOTE, stamp)
  }

  lemma {:induction false} Filled(l: Log, kind: string, stamp: string, q: nat)
    requires IdsAscend(l)
    ensures var fs, gs := Matching(l.entries, kind), Matching(Evolve(l, Fill(kind, stamp, q)).entries, kind);
      && |gs| == |fs| + q && gs[..|fs|] == fs
      && (forall i :: |fs| <= i < |gs| ==> gs[i].createdAt == stamp)
      && IdsAscend(Evolve(l, Fill(kind, stamp, q)))
    decreases q
  {
    var evs := Fill(kind, stamp, q);
    if q > 0 {
      assert evs[1..] == Fill(kind, stamp, q - 1);
      ApplyKeepsIds(l, evs[0]);
      MatchingRecorded(l, kind, evs[0]);
      Filled(Apply(l, evs[0]), kind, stamp, q - 1);
      FilledPrefix(l, kind, stamp, q);
    }
  }

  lemma FilledPrefix(l: Log, kind: string, stamp: string, q: nat)
    requires q > 0
    requires var m := Apply(l, NewRow(kind, stamp));
      var fs, gs := Matching(m.entries, kind), Matching(Evolve(m, Fill(kind, stamp, q - 1)).entries, kind);
      |gs| == |fs| + (q - 1) && gs[..|fs|] == fs
    ensures var m := Apply(l, NewRow(kind, stamp));
      var fs, gs := Matching(l.entries, kind), Matching(Evolve(m, Fill(kind, stamp, q - 1)).entries, kind);
      |gs| == |fs| + q && gs[..|fs|] == fs && gs[|fs|].createdAt == stamp
  {
    var m := Apply(l, NewRow(kind, stamp));
    var fs, mid := Matching(l.entries, kind), Matching(m.entries, kind);
    var gs := Matching(Evolve(m, Fill(kind, stamp, q - 1)).entries, kind);
    MatchingRecorded(l, kind, NewRow(kind, stamp));
    assert mid[..|fs|] == fs && gs[..|fs|] == gs[..|mid|][..|fs|];
    assert gs[|fs|] == gs[..|mid|][|fs|] == mid[|fs|];
  }

  // ----- How far an entry moves up -------------------------------------------

  lemma WithoutOlderCons(e: Entry, s: seq<Entry>, cutoff: string)
    ensures WithoutOlder([e] + s, cutoff) == (if Less(e.createdAt, cutoff) then [] else [e]) + WithoutOlder(s, cutoff)
  {
    assert ([e] + s)[0] == e && ([e] + s)[1..] == s;
  }

  lemma {:induction false} WithoutOlderConcat(a: seq<Entry>, b: seq<Entry>, cutoff: string)
    ensures WithoutOlder(a + b, cutoff) == WithoutOlder(a, cutoff) + WithoutOlder(b, cutoff)
    decreases |a|
  {
    if a == [] {
      assert a + b == b;
    } else {
      WithoutOlderConcat(a[1..], b, cutoff);
      WithoutOlderCons(a[0], a[1..], cutoff);
      WithoutOlderCons(a[0], a[1..] + b, cutoff);
      assert a == [a[0]] + a[1..];
      ConcatAssoc([a[0]], a[1..], b);
      ConcatAssoc(if Less(a[0].createdAt, cutoff) then [] else [a[0]],
                  WithoutOlder(a[1..], cutoff), WithoutOlder(b, cutoff));
    }
  }

  lemma {:induction false} PruneShortens(fs: seq<Entry>, cutoff: string, i: nat)
    requires i < |fs| && Less(fs[i].createdAt, cutoff)
    ensures |WithoutOlder(fs, cutoff)| < |fs|
    decreases |fs|
  {
    if i > 0 {
      PruneShortens(fs[1..], cutoff, i - 1);
    }
  }

  /** If a newer entry is removed, a kept entry moves up. */
  lemma MovesUp(fs: seq<Entry>, cutoff: string, i: nat, j: nat) returns (n: nat)
    requires i < j < |fs| && !Less(fs[i].createdAt, cutoff) && Less(fs[j].createdAt, cutoff)
    ensures var gs := WithoutOlder(fs, cutoff);
      n < |gs| && gs[n] == fs[i] && |gs| - 1 - n < |fs| - 1 - i
  {
    var before, after := fs[..i], fs[i + 1..];
    assert fs == before + ([fs[i]] + after);
    WithoutOlderConcat(before, [fs[i]] + after, cutoff);
    assert ([fs[i]] + after)[1..] == after;
    assert after[j - i - 1] == fs[j];
    PruneShortens(after, cutoff, j - i - 1);
    n := |WithoutOlder(before, cutoff)|;
  }

  // ----- The skipped entry ---------------------------------------------------

  /** The walk: `before` page turns, the pruning, `after` more page turns. */
  function Walk(cutoff: string, before: nat, after: nat): seq<seq<Event>> {
    Idle(before) + ([[Prune(cutoff)]] + Idle(after))
  }

  /** From `l`, with `q` rows recorded first, this walk up to a disabled Next never shows
      entry `e` of `l`, although the filter lets it through and it is there to the end. */
  ghost predicate Skips(l: Log, kind: string, cutoff: string, stamp: string, q: nat, before: nat, after: nat,
                        e: Entry) {
    var start, batches := Evolve(l, Fill(kind, stamp, q)), Walk(cutoff, before, after);
    && e in l.entries && (kind == "" || e.kind == kind) && e in start.entries && e in Final(start, batches).entries
    && Clickable(start, batches, kind, 0)
    && !Shown(Pages(start, batches, kind, 0), e)
  }

  lemma EvolveOne(l: Log, ev: Event)
    ensures Evolve(l, [ev]) == Apply(l, ev)
  {
    assert [ev][1..] == [];
    assert Evolve(Apply(l, ev), [ev][1..]) == Apply(l, ev);
  }

  lemma AfterPrune(l: Log, cutoff: string, after: nat)
    ensures var batches := [[Prune(cutoff)]] + Idle(after);
      && batches[0] == [Prune(cutoff)] && batches[1..] == Idle(after)
      && Evolve(l, batches[0]) == Apply(l, Prune(cutoff))
  {
    var batches := [[Prune(cutoff)]] + Idle(after);
    assert batches[0] == [Prune(cutoff)] && batches[1..] == Idle(after);
    EvolveOne(l, Prune(cutoff));
  }

  lemma WalkFinal(l: Log, cutoff: string, before: nat, after: nat)
    ensures Final(l, Walk(cutoff, before, after)) == Apply(l, Prune(cutoff))
  {
    var batches := [[Prune(cutoff)]] + Idle(after);
    IdleFinal(l, before, batches);
    AfterPrune(l, cutoff, after);
    IdleFinal(Apply(l, Prune(cutoff)), after, []);
    assert Idle(after) + [] == Idle(after);
  }

  /** Page turns at the end: only the pages up to the last one. */
  lemma TurnsToLast(l: Log, kind: string, from: nat) returns (after: nat)
    ensures Clickable(l, Idle(after), kind, from)
  {
    var last := PageCount(Count(l.entries, kind));
    after := if from + 1 >= last then 0 else last - 1 - from;
    forall m: nat ensures LastPage(l, kind, m) <==> m + 1 >= last {
      NextUntilLastPage(Count(l.entries, kind), m);
    }
    IdleClicks(l, kind, after, [], from);
    assert Idle(after) + [] == Idle(after);
  }

  /** An entry above the page boundary is not on any page below it. */
  lemma NeverBelow(l: Log, kind: string, i: nat, from: nat, after: nat)
    requires IdsAscend(l) && i < |Matching(l.entries, kind)|
    requires |Matching(l.entries, kind)| - 1 - i < PAGE * from
    ensures !Shown(Pages(l, Idle(after), kind, from), Matching(l.entries, kind)[i])
  {
    var e := Matching(l.entries, kind)[i];
    forall m | from <= m <= from + after ensures Off(l, kind, e, m) {
      assert PAGE * from <= PAGE * m;
      ShownNowhereElse(l.entries, kind, i, PAGE * m);
    }
    assert Off(l, kind, e, from + after);
    assert Pages(l, [], kind, from + after) == [Page(l.entries, kind, PAGE * (from + after))];
    IdleShows(l, kind, after, [], from, e);
    assert Idle(after) + [] == Idle(after);
  }

  /** An entry first in line for page `before + 1` is on none of the pages up to there. */
  lemma NotBefore(l: Log, kind: string, i: nat, before: nat)
    requires IdsAscend(l) && i < |Matching(l.entries, kind)|
    requires |Matching(l.entries, kind)| - 1 - i == PAGE * (before + 1)
    ensures forall m :: 0 <= m <= before ==> Off(l, kind, Matching(l.entries, kind)[i], m) && !LastPage(l, kind, m)
  {
    forall m | 0 <= m <= before ensures Off(l, kind, Matching(l.entries, kind)[i], m) && !LastPage(l, kind, m) {
      assert PAGE * m + PAGE <= PAGE * (before + 1);
      ShownNowhereElse(l.entries, kind, i, PAGE * m);
    }
  }

  /** A walk from its two parts, before and after the pruning. */
  lemma WalkParts(l: Log, kind: string, cutoff: string, before: nat, after: nat, e: Entry)
    requires forall m :: 0 <= m <= before ==> Off(l, kind, e, m) && !LastPage(l, kind, m)
    requires Clickable(Apply(l, Prune(cutoff)), Idle(after), kind, before + 1)
    requires !Shown(Pages(Apply(l, Prune(cutoff)), Idle(after), kind, before + 1), e)
    ensures Clickable(l, Walk(cutoff, before, after), kind, 0)
    ensures !Shown(Pages(l, Walk(cutoff, before, after), kind, 0), e)
  {
    var batches := [[Prune(cutoff)]] + Idle(after);
    AfterPrune(l, cutoff, after);
    NotShownYet(l, batches, kind, before, e);
    IdleShows(l, kind, before, batches, 0, e);
    IdleClicks(l, kind, before, batches, 0);
  }

  /** The pruning moves the kept entry above the page boundary. */
  lemma Overtaken(l: Log, kind: string, cutoff: string, i: nat, j: nat) returns (n: nat)
    requires i < j < |Matching(l.entries, kind)|
    requires !Less(Matching(l.entries, kind)[i].createdAt, cutoff)
    requires Less(Matching(l.entries, kind)[j].createdAt, cutoff)
    ensures var fs, gs := Matching(l.entries, kind), Matching(Apply(l, Prune(cutoff)).entries, kind);
      n < |gs| && gs[n] == fs[i] && |gs| - 1 - n < |fs| - 1 - i
  {
    MatchingPruned(l.entries, kind, cutoff);
    n := MovesUp(Matching(l.entries, kind), cutoff, i, j);
  }

  /** After the pruning the kept entry stands on a page already left. */
  lemma LeftBehind(m: Log, kind: string, n: nat, before: nat) returns (after: nat)
    requires IdsAscend(m) && n < |Matching(m.entries, kind)|
    requires |Matching(m.entries, kind)| - 1 - n < PAGE * (before + 1)
    ensures Clickable(m, Idle(after), kind, before + 1)
    ensures !Shown(Pages(m, Idle(after), kind, before + 1), Matching(m.entries, kind)[n])
  {
    after := TurnsToLast(m, kind, before + 1);
    NeverBelow(m, kind, n, before + 1, after);
  }

  lemma WalkSkips(l: Log, kind: string, cutoff: string, i: nat, j: nat, before: nat) returns (after: nat)
    requires IdsAscend(l) && i < j < |Matching(l.entries, kind)|
    requires |Matching(l.entries, kind)| - 1 - i == PAGE * (before + 1)
    requires !Less(Matching(l.entries, kind)[i].createdAt, cutoff)
    requires Less(Matching(l.entries, kind)[j].createdAt, cutoff)
    ensures Clickable(l, Walk(cutoff, before, after), kind, 0)
    ensures !Shown(Pages(l, Walk(cutoff, before, after), kind, 0), Matching(l.entries, kind)[i])
  {
    ApplyKeepsIds(l, Prune(cutoff));
    var n := Overtaken(l, kind, cutoff, i, j);
    after := LeftBehind(Apply(l, Prune(cutoff)), kind, n, before);
    NotBefore(l, kind, i, before);
    WalkParts(l, kind, cutoff, before, after, Matching(l.entries, kind)[i]);
  }

  /** A pruning that keeps an entry older than one it removes: with enough rows recorded
      first, under any stamps, a walk up to a disabled Next skips the kept entry. */
  lemma OtherPruningSkips(l: Log, kind: string, cutoff: string, stamp: string)
    returns (q: nat, before: nat, after: nat, e: Entry)
    requires IdsAscend(l) && !CutsOldEnd(Matching(l.entries, kind), cutoff)
    ensures Skips(l, kind, cutoff, stamp, q, before, after, e)
  {
    var fs := Matching(l.entries, kind);
    var i, j :| 0 <= i < j < |fs| && Less(fs[j].createdAt, cutoff) && !Less(fs[i].createdAt, cutoff);
    e := fs[i];
    before := (|fs| - 1 - i) / PAGE;
    q := PAGE * (before + 1) - (|fs| - 1 - i);
    var start := Evolve(l, Fill(kind, stamp, q));
    Filled(l, kind, stamp, q);
    var gs := Matching(start.entries, kind);
    assert gs[i] == gs[..|fs|][i] && gs[j] == gs[..|fs|][j];
    after := WalkSkips(start, kind, cutoff, i, j, before);
    WalkFinal(start, cutoff, before, after);
    MatchingMembers(l.entries, kind, e);
    MatchingMembers(start.entries, kind, e);
    WithoutOlderMembers(start.entries, cutoff, e);
  }

  lemma {:induction false} ClickableEnds(l: Log, batches: seq<seq<Event>>, kind: string, n: nat)
    requires Clickable(l, batches, kind, n)
    ensures NextDisabled(Final(l, batches).entries, kind, PAGE * (n + |batches|))
    decreases |batches|
  {
    if batches != [] {
      ClickableEnds(Evolve(l, batches[0]), batches[1..], kind, n + 1);
    }
  }

  lemma WalkCutsOldEnd(l: Log, kind: string, cutoff: string, before: nat, after: nat)
    requires CutsOldEnd(Matching(l.entries, kind), cutoff)
    ensures AllPruneOldEnd(l, kind, Walk(cutoff, before, after))
  {
    var batches, m := [[Prune(cutoff)]] + Idle(after), Apply(l, Prune(cutoff));
    AfterPrune(l, cutoff, after);
    IdlePrunes(m, kind, after, []);
    assert Idle(after) + [] == Idle(after);
    var evs := [Prune(cutoff)];
    assert evs[1..] == [];
    assert PrunesOldEnd(m, kind, evs[1..]);
    IdlePrunes(l, kind, before, batches);
  }

  lemma FilledCutsOldEnd(fs: seq<Entry>, gs: seq<Entry>, cutoff: string, stamp: string)
    requires CutsOldEnd(fs, cutoff) && !Less(stamp, cutoff)
    requires |fs| <= |gs| && gs[..|fs|] == fs && forall i :: |fs| <= i < |gs| ==> gs[i].createdAt == stamp
    ensures CutsOldEnd(gs, cutoff)
  {
    forall i, j | 0 <= i < j < |gs| && Less(gs[j].createdAt, cutoff) ensures Less(gs[i].createdAt, cutoff) {
      assert gs[i] == gs[..|fs|][i] && gs[j] == gs[..|fs|][j];
    }
  }

  /** The exact condition, for any log, filter and cutoff, and new rows that the pruning
      keeps: some walk with the pruning between two loads skips an entry that was there
      throughout, if and only if the pruning keeps an entry older than one it removes. */
  lemma PruningSkipsWhen(l: Log, kind: string, cutoff: string, stamp: string)
    requires IdsAscend(l) && !Less(stamp, cutoff)
    ensures (exists q: nat, before: nat, after: nat, e :: Skips(l, kind, cutoff, stamp, q, before, after, e)) <==>
      !CutsOldEnd(Matching(l.entries, kind), cutoff)
  {
    if CutsOldEnd(Matching(l.entries, kind), cutoff) {
      forall q: nat, before: nat, after: nat, e ensures !Skips(l, kind, cutoff, stamp, q, before, after, e) {
        SafePruningSkipsNothing(l, kind, cutoff, stamp, q, before, after, e);
      }
    } else {
      var q, before, after, e := OtherPruningSkips(l, kind, cutoff, stamp);
    }
  }

  lemma SafePruningSkipsNothing(l: Log, kind: string, cutoff: string, stamp: string, q: nat, before: nat,
                                after: nat, e: Entry)
    requires IdsAscend(l) && !Less(stamp, cutoff) && CutsOldEnd(Matching(l.entries, kind), cutoff)
    ensures !Skips(l, kind, cutoff, stamp, q, before, after, e)
  {
    var start, batches := Evolve(l, Fill(kind, stamp, q)), Walk(cutoff, before, after);
    Filled(l, kind, stamp, q);
    FilledCutsOldEnd(Matching(l.entries, kind), Matching(start.entries, kind), cutoff, stamp);
    WalkCutsOldEnd(start, kind, cutoff, before, after);
    var there := e in start.entries && e in Final(start, batches).entries;
    if Clickable(start, batches, kind, 0) && Wanted(e, kind) && there {
      ClickableEnds(start, batches, kind, 0);
      WalkNeverSkips(start, batches, kind, e);
    }
  }

  // ----- A clock that goes back ----------------------------------------------

  /** 26 rows stamped `late` and a newest one stamped `early`. */
  function BackdatedLog(early: string, late: string): (l: Log)
    ensures |l.entries| == 27
    ensures forall i :: 0 <= i < 27 ==>
      l.entries[i] == Entry(i + 1, "logout", NOTE, if i == 26 then early else late)
  {
    Log(seq(27, i requires 0 <= i < 27 => Entry(i + 1, "logout", NOTE, if i == 26 then early else late)), 28)
  }

  lemma {:induction false} MatchingAll(es: seq<Entry>)
    ensures Matching(es, "") == es
  {
    if es != [] {
      MatchingAll(es[1..]);
    }
  }

  /** Pruning removes the newest row between two loads, the second row moves up onto the page
      already left, and the walk never shows it. */
  lemma BackdatedRowHidesAnother(early: string, late: string, cutoff: string) returns (after: nat)
    requires Less(early, cutoff) && !Less(late, cutoff)
    ensures var l, e := BackdatedLog(early, late), BackdatedLog(early, late).entries[1];
      && IdsAscend(l) && e in Final(l, Walk(cutoff, 0, after)).entries
      && Clickable(l, Walk(cutoff, 0, after), "", 0)
      && !Shown(Pages(l, Walk(cutoff, 0, after), "", 0), e)
  {
    var l := BackdatedLog(early, late);
    forall e | e in l.entries ensures e.id < l.nextId {
      var i :| 0 <= i < 27 && l.entries[i] == e;
    }
    MatchingAll(l.entries);
    after := WalkSkips(l, "", cutoff, 1, 26, 0);
    WalkFinal(l, cutoff, 0, after);
    WithoutOlderMembers(l.entries, cutoff, l.entries[1]);
  }
}
