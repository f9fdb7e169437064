// The activity log against real time: rows are stamped by SQLite's datetime('now'), and
// pruning computes its cutoff text from the server's clock.
module ActivityTime {
  import opened Text
  import opened Calendar
  import opened ActivityLog
  import opened ActivitySkips
  import Retention

  const DAY_MS: nat := Retention.DAY_MS

  /** The instant, in ms, lies in the years 0000 to 9999. */
  predicate Writable(ms: int) {
    InRange(ms / 1000)
  }

  /** The log after pruning with the text of instant `ms`. */
  function Pruned(l: Log, ms: int): Log
    requires Writable(ms)
  {
    Apply(l, Prune(CutoffText(ms)))
  }

  /** activityService.prune(days) at `nowMs`. */
  method PruneAt(repository: ActivityRepository, nowMs: int, days: nat) returns (changes: nat)
    requires Writable(nowMs - days * DAY_MS)
    modifies repository
    ensures repository.log == Pruned(old(repository.log), nowMs - days * DAY_MS)
    ensures changes == |old(repository.log).entries| - |repository.log.entries|
  {
    var cutoff := CutoffText(nowMs - days * DAY_MS);
    changes := repository.DeleteOlderThan(cutoff);
  }

  /** The activity log keeps at least 30 days. */
  const MIN_ACTIVITY_DAYS: nat := 30

  function ActivityDays(retentionDays: nat): (days: nat)
    ensures days >= MIN_ACTIVITY_DAYS && days >= 4 * retentionDays
    ensures days == MIN_ACTIVITY_DAYS || days == 4 * retentionDays
  {
    if retentionDays * 4 > MIN_ACTIVITY_DAYS then retentionDays * 4 else MIN_ACTIVITY_DAYS
  }

  /** When the sweep of activity entries cuts. */
  function ActivityCutoff(nowMs: int, retentionDays: nat): int {
    nowMs - ActivityDays(retentionDays) * DAY_MS
  }

  /** The whole sweep: metrics past the retention window, then activity past four times that
      window or 30 days, whichever is longer. The clock is read twice. */
  method RunRetention(table: Retention.MetricsTable, repository: ActivityRepository, now: nat, later: int,
                      retentionDays: nat)
    returns (metricsRemoved: nat, activityRemoved: nat)
    requires Writable(ActivityCutoff(later, retentionDays))
    modifies table, repository
    ensures table.rows == Retention.Apply(old(table.rows), Retention.Sweep(now, retentionDays))
    ensures metricsRemoved == |old(table.rows)| - |table.rows|
    ensures repository.log == Pruned(old(repository.log), ActivityCutoff(later, retentionDays))
    ensures activityRemoved == |old(repository.log).entries| - |repository.log.entries|
  {
    metricsRemoved := table.RunRetention(now, retentionDays);
    activityRemoved := PruneAt(repository, later, ActivityDays(retentionDays));
  }

  lemma SparedFrom(l: Log, ms: int, e: Entry, sec: int)
    requires Writable(ms) && InRange(sec) && e in l.entries && e.createdAt == SqlText(sec) && sec * 1000 >= ms
    ensures e in Pruned(l, ms).entries
  {
    PruneIsByTime(l, ms, e, sec);
  }

  lemma CutoffIsEarly(nowMs: int, retentionDays: nat)
    ensures ActivityCutoff(nowMs, retentionDays) <= nowMs - 30 * DAY_MS
    ensures ActivityCutoff(nowMs, retentionDays) <= nowMs - 4 * (retentionDays * DAY_MS)
  {
  }

  /** A sweep never removes activity of the last 30 days, nor of the last four retention
      windows. */
  lemma SweepSparesRecent(l: Log, nowMs: int, retentionDays: nat, e: Entry, sec: int)
    requires Writable(ActivityCutoff(nowMs, retentionDays)) && InRange(sec)
    requires e in l.entries && e.createdAt == SqlText(sec)
    requires sec * 1000 >= nowMs - 30 * DAY_MS || sec * 1000 >= nowMs - 4 * (retentionDays * DAY_MS)
    ensures e in Pruned(l, ActivityCutoff(nowMs, retentionDays)).entries
  {
    CutoffIsEarly(nowMs, retentionDays);
    SparedFrom(l, ActivityCutoff(nowMs, retentionDays), e, sec);
  }

  /** Whether a sweep removes an entry is decided by its age alone: it goes if and only if
      its second is before both 30 days and four retention windows ago. */
  lemma SweepIsByAge(l: Log, nowMs: int, retentionDays: nat, e: Entry, sec: int)
    requires Writable(ActivityCutoff(nowMs, retentionDays)) && InRange(sec)
    requires e in l.entries && e.createdAt == SqlText(sec)
    ensures e in Pruned(l, ActivityCutoff(nowMs, retentionDays)).entries <==>
      sec >= nowMs / 1000 - 30 * 86_400 || sec >= nowMs / 1000 - 4 * (retentionDays * 86_400)
  {
    PruneIsByTime(l, ActivityCutoff(nowMs, retentionDays), e, sec);
    CutoffSecond(nowMs, retentionDays);
  }

  lemma CutoffSecond(nowMs: int, retentionDays: nat)
    ensures var long := 4 * retentionDays;
      ActivityCutoff(nowMs, retentionDays) / 1000 == nowMs / 1000 - (if long > 30 then long else 30) * 86_400
  {
    var days := if 4 * retentionDays > 30 then 4 * retentionDays else 30;
    assert nowMs - days * DAY_MS == nowMs + 1000 * (-(days * 86_400));
  }

  /** Comparing texts in the DELETE removes exactly the rows from an earlier second than the
      cutoff instant `ms`; rows of the cutoff's own second stay. */
  lemma PruneIsByTime(l: Log, ms: int, e: Entry, sec: int)
    requires Writable(ms) && InRange(sec)
    requires e in l.entries && e.createdAt == SqlText(sec)
    ensures e in Pruned(l, ms).entries <==> sec >= ms / 1000
  {
    TextBeforeCutoff(ms, sec);
    PruneKeeps(l, CutoffText(ms), e);
  }

  lemma TextBeforeCutoff(ms: int, sec: int)
    requires InRange(ms / 1000) && InRange(sec)
    ensures Less(SqlText(sec), CutoffText(ms)) <==> sec < ms / 1000
  {
    CutoffIsSqlText(ms);
    TextOrderIsTimeOrder(sec, ms / 1000);
  }

  // ----- A clock that does not go back gives stamps that do not go back -------

  /** Rows recorded at `now`, or a pruning with any cutoff text. */
  datatype Timed = Recorded(kind: string, data: Data, now: int) | Pruned(cutoff: string)

  predicate Ticking(clock: int, ts: seq<Timed>)
    decreases |ts|
  {
    ts == [] ||
    (if ts[0].Recorded? then clock <= ts[0].now && InRange(ts[0].now) && Ticking(ts[0].now, ts[1..])
     else Ticking(clock, ts[1..]))
  }

  function ClockAfter(clock: int, ts: seq<Timed>): int
    decreases |ts|
  {
    if ts == [] then clock else ClockAfter(if ts[0].Recorded? then ts[0].now else clock, ts[1..])
  }

  function StampedWith(text: int -> string, ts: seq<Timed>): (evs: seq<Event>)
    ensures |evs| == |ts|
  {
    if ts == [] then []
    else
      [if ts[0].Recorded? then Record(ts[0].kind, ts[0].data, text(ts[0].now)) else Prune(ts[0].cutoff)]
      + StampedWith(text, ts[1..])
  }

  ghost predicate Monotone(text: int -> string) {
    forall a, b :: InRange(a) && InRange(b) && a <= b ==> !Less(text(b), text(a))
  }

  lemma {:induction false} TickingIsClocked(text: int -> string, clock: int, ts: seq<Timed>)
    requires Monotone(text) && InRange(clock) && Ticking(clock, ts)
    ensures Clocked(text(clock), StampedWith(text, ts))
    ensures InRange(ClockAfter(clock, ts))
    ensures TopAfter(text(clock), StampedWith(text, ts)) == text(ClockAfter(clock, ts))
    decreases |ts|
  {
    if ts != [] {
      var evs := StampedWith(text, ts);
      assert evs[1..] == StampedWith(text, ts[1..]);
      TickingIsClocked(text, if ts[0].Recorded? then ts[0].now else clock, ts[1..]);
    }
  }

  predicate AllTicking(clock: int, tss: seq<seq<Timed>>)
    decreases |tss|
  {
    tss == [] || (Ticking(clock, tss[0]) && AllTicking(ClockAfter(clock, tss[0]), tss[1..]))
  }

  function AllStamped(text: int -> string, tss: seq<seq<Timed>>): (batches: seq<seq<Event>>)
    ensures |batches| == |tss|
  {
    if tss == [] then [] else [StampedWith(text, tss[0])] + AllStamped(text, tss[1..])
  }

  lemma {:induction false} AllTickingIsClocked(text: int -> string, clock: int, tss: seq<seq<Timed>>)
    requires Monotone(text) && InRange(clock) && AllTicking(clock, tss)
    ensures AllClocked(text(clock), AllStamped(text, tss))
    decreases |tss|
  {
    if tss != [] {
      TickingIsClocked(text, clock, tss[0]);
      AllTickingIsClocked(text, ClockAfter(clock, tss[0]), tss[1..]);
      var batches := AllStamped(text, tss);
      assert batches[0] == StampedWith(text, tss[0]) && batches[1..] == AllStamped(text, tss[1..]);
    }
  }

  /** SQLite's clock text; outside the years 0000 to 9999 any text. */
  function Stamper(): int -> string {
    (sec: int) => if InRange(sec) then SqlText(sec) else ""
  }

  lemma StamperIsMonotone()
    ensures Monotone(Stamper())
  {
    forall a, b | InRange(a) && InRange(b) && a <= b ensures !Less(Stamper()(b), Stamper()(a)) {
      TextOrderIsTimeOrder(b, a);
    }
  }

  /** Under a clock that does not go back the pager's guarantee holds: between the loads any
      rows may be recorded, in time order, and any prunings may run. */
  lemma ClockMakesWalkComplete(l: Log, clock: int, tss: seq<seq<Timed>>, kind: string, e: Entry)
    requires InRange(clock) && AllTicking(clock, tss)
    requires IdsAscend(l) && StampsAscend(l.entries, Stamper()(clock))
    requires e in l.entries && (kind == "" || e.kind == kind)
    requires var end := Final(l, AllStamped(Stamper(), tss)).entries;
      e in end && NextDisabled(end, kind, PAGE * |tss|)
    ensures Shown(Pages(l, AllStamped(Stamper(), tss), kind, 0), e)
  {
    StamperIsMonotone();
    AllTickingIsClocked(Stamper(), clock, tss);
    ClockedWalkNeverSkips(l, Stamper()(clock), AllStamped(Stamper(), tss), kind, e);
  }

  /** With real stamps: the clock stood at `jumped`, before the cutoff instant `ms`, when the
      newest row was written (1970, say, on a machine without a battery), and is right again.
      Pruning then removes that row first and the pager skips a row of today. */
  lemma ClockJumpHidesEntry(today: int, ms: int, jumped: int) returns (after: nat)
    requires InRange(today) && Writable(ms) && InRange(jumped) && jumped < ms / 1000 <= today
    ensures var l, walk := BackdatedLog(SqlText(jumped), SqlText(today)), Walk(CutoffText(ms), 0, after);
      && IdsAscend(l) && l.entries[1] in Final(l, walk).entries
      && Clickable(l, walk, "", 0) && !Shown(Pages(l, walk, "", 0), l.entries[1])
  {
    TextBeforeCutoff(ms, jumped);
    TextBeforeCutoff(ms, today);
    after := BackdatedRowHidesAnother(SqlText(jumped), SqlText(today), CutoffText(ms));
  }
}
