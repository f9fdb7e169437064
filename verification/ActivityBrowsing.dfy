// The pager object over a repository that changes between its loads: what a user who clicks
// Next to the end has seen.
module ActivityBrowsing {
  import opened ActivityLog

  lemma {:induction false} FinalSnoc(l: Log, batches: seq<seq<Event>>, evs: seq<Event>)
    ensures Final(l, batches + [evs]) == Evolve(Final(l, batches), evs)
    decreases |batches|
  {
    var all := batches + [evs];
    if batches == [] {
      assert all[1..] == [];
    } else {
      assert all[0] == batches[0] && all[1..] == batches[1..] + [evs];
      FinalSnoc(Evolve(l, batches[0]), batches[1..], evs);
    }
  }

  lemma OnePage(l: Log, kind: string, n: nat)
    ensures Pages(l, [], kind, n) == [Page(l.entries, kind, PAGE * n)]
  {
  }

  lemma {:induction false} PagesSnoc(l: Log, batches: seq<seq<Event>>, evs: seq<Event>, kind: string, n: nat)
    ensures Pages(l, batches + [evs], kind, n) ==
      Pages(l, batches, kind, n) + [Page(Final(l, batches + [evs]).entries, kind, PAGE * (n + |batches| + 1))]
    decreases |batches|
  {
    var all := batches + [evs];
    if batches == [] {
      assert all[1..] == [];
      OnePage(l, kind, n);
      OnePage(Evolve(l, evs), kind, n + 1);
    } else {
      assert all[0] == batches[0] && all[1..] == batches[1..] + [evs];
      PagesSnoc(Evolve(l, batches[0]), batches[1..], evs, kind, n + 1);
    }
  }

  method Perform(repository: ActivityRepository, evs: seq<Event>)
    modifies repository
    ensures repository.log == Evolve(old(repository.log), evs)
  {
    var i := 0;
    while i < |evs|
      invariant 0 <= i <= |evs|
      invariant Evolve(repository.log, evs[i..]) == Evolve(old(repository.log), evs)
    {
      match evs[i] {
        case Record(kind, data, stamp) => var e := repository.Create(kind, data, stamp);
        case Prune(cutoff) => var changes := repository.DeleteOlderThan(cutoff);
      }
      i := i + 1;
    }
  }

  /** Clicks Next until it is disabled, with one batch of changes before each click. */
  method Browse(pager: Pager, repository: ActivityRepository, batches: seq<seq<Event>>)
    returns (seen: seq<seq<Entry>>, turns: nat)
    requires pager.Valid() && pager.offset == 0 && pager.Shows(repository.log.entries)
    modifies pager, repository
    ensures turns <= |batches| && (turns < |batches| ==> pager.nextDisabled)
    ensures repository.log == Final(old(repository.log), batches[..turns])
    ensures pager.Valid() && pager.Shows(repository.log.entries)
    ensures pager.offset == PAGE * turns && pager.kind == old(pager.kind)
    ensures seen == Pages(old(repository.log), batches[..turns], pager.kind, 0)
  {
    turns := 0;
    seen := [pager.items];
    while turns < |batches| && !pager.nextDisabled
      invariant turns <= |batches|
      invariant repository.log == Final(old(repository.log), batches[..turns])
      invariant pager.Valid() && pager.Shows(repository.log.entries)
      invariant pager.offset == PAGE * turns && pager.kind == old(pager.kind)
      invariant seen == Pages(old(repository.log), batches[..turns], pager.kind, 0)
    {
      assert batches[..turns + 1] == batches[..turns] + [batches[turns]];
      FinalSnoc(old(repository.log), batches[..turns], batches[turns]);
      PagesSnoc(old(repository.log), batches[..turns], batches[turns], pager.kind, 0);
      Perform(repository, batches[turns]);
      pager.Next(repository.log.entries);
      seen := seen + [pager.items];
      turns := turns + 1;
    }
  }

  /** What such a user has seen when Next is disabled: every entry that was there when the
      view was opened and still is, if each pruning cut the old end. */
  method BrowseToEnd(pager: Pager, repository: ActivityRepository, batches: seq<seq<Event>>)
    returns (seen: seq<seq<Entry>>, turns: nat)
    requires pager.Valid() && pager.offset == 0 && pager.Shows(repository.log.entries)
    requires IdsAscend(repository.log)
    modifies pager, repository
    ensures turns <= |batches| && (turns < |batches| ==> pager.nextDisabled)
    ensures pager.nextDisabled && AllPruneOldEnd(old(repository.log), pager.kind, batches[..turns]) ==>
      forall e | e in old(repository.log).entries && e in repository.log.entries ::
        pager.kind == "" || e.kind == pager.kind ==> Shown(seen, e)
  {
    ghost var l := repository.log;
    seen, turns := Browse(pager, repository, batches);
    if pager.nextDisabled && AllPruneOldEnd(l, pager.kind, batches[..turns]) {
      forall e | e in l.entries && e in repository.log.entries && (pager.kind == "" || e.kind == pager.kind)
        ensures Shown(seen, e)
      {
        WalkNeverSkips(l, batches[..turns], pager.kind, e);
      }
    }
  }
}
