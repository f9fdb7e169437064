// The collector's interval timers and the persisted settings they follow. Numbers are
// reals; reading a stored text is a parameter, as Number() is.
module CollectorTimers {
  import opened Text
  import opened Runs

  const KEY_INTERVAL := "metricsIntervalSeconds"
  const KEY_RETENTION := "metricsRetentionDays"
  const RETENTION_INTERVAL_MS: real := 3600000.0

  /** Environment defaults, and Number() where it gives a finite value. */
  datatype Config = Config(intervalMs: real, retentionDays: real, number: string -> Option<real>)

  /** Number() reads back what String() wrote. */
  ghost predicate ReadsNumerals(c: Config) {
    forall n: nat :: c.number(Dec(n)) == Some(n as real)
  }

  type Settings = map<string, string>

  function Get(s: Settings, key: string): Option<string> {
    if key in s then Some(s[key]) else None
  }

  // ----- Two readers of the settings -----------------------------------------

  /** metrics.service: numberSetting. */
  function NumberSetting(c: Config, s: Settings, key: string, fallback: real): real {
    match Get(s, key)
    case None => fallback
    case Some(raw) =>
      match c.number(raw)
      case Some(n) => n
      case None => fallback
  }

  function EffectiveIntervalMs(c: Config, s: Settings): real {
    NumberSetting(c, s, KEY_INTERVAL, c.intervalMs / 1000.0) * 1000.0
  }

  function EffectiveRetentionDays(c: Config, s: Settings): real {
    NumberSetting(c, s, KEY_RETENTION, c.retentionDays)
  }

  /** settings.controller: toNumberOr. */
  function ToNumberOr(c: Config, raw: Option<string>, fallback: real): real {
    if raw.None? then fallback
    else
      var parsed := c.number(raw.value);
      if parsed.Some? then parsed.value else fallback
  }

  datatype View = View(intervalSeconds: real, retentionDays: real)

  function ReadSettings(c: Config, s: Settings): View {
    View(ToNumberOr(c, Get(s, KEY_INTERVAL), c.intervalMs / 1000.0),
         ToNumberOr(c, Get(s, KEY_RETENTION), c.retentionDays))
  }

  // ----- Timers --------------------------------------------------------------

  /** Module variables, the live interval timers with their periods, and the settings. */
  datatype State = State(
    collectTimer: Option<nat>, retentionTimer: Option<nat>, live: map<nat, real>, made: nat, settings: Settings)

  datatype Event = Start | Stop | Reschedule | Update(interval: Option<nat>, retention: Option<nat>)

  function OnStart(c: Config, s: State): State {
    if s.collectTimer.Some? then s
    else
      s.(collectTimer := Some(s.made), retentionTimer := Some(s.made + 1), made := s.made + 2,
         live := s.live[s.made := EffectiveIntervalMs(c, s.settings)][s.made + 1 := RETENTION_INTERVAL_MS])
  }

  function Cleared(live: map<nat, real>, t: Option<nat>): map<nat, real> {
    if t.Some? then live - {t.value} else live
  }

  function OnStop(s: State): State {
    s.(live := Cleared(Cleared(s.live, s.collectTimer), s.retentionTimer), collectTimer := None, retentionTimer := None)
  }

  function OnReschedule(c: Config, s: State): State {
    if s.collectTimer.None? then s
    else
      s.(live := (s.live - {s.collectTimer.value})[s.made := EffectiveIntervalMs(c, s.settings)],
         collectTimer := Some(s.made), made := s.made + 1)
  }

  function Saved(s: Settings, key: string, value: Option<nat>): Settings {
    if value.Some? then s[key := Dec(value.value)] else s
  }

  /** updateSettings: the given fields are stored; a new interval reschedules. */
  function OnUpdate(c: Config, s: State, interval: Option<nat>, retention: Option<nat>): State {
    var t := s.(settings := Saved(Saved(s.settings, KEY_INTERVAL, interval), KEY_RETENTION, retention));
    if interval.Some? then OnReschedule(c, t) else t
  }

  function Step(c: Config): (State, Event) -> State {
    (s: State, e: Event) =>
      match e
      case Start => OnStart(c, s)
      case Stop => OnStop(s)
      case Reschedule => OnReschedule(c, s)
      case Update(interval, retention) => OnUpdate(c, s, interval, retention)
  }

  function Initial(settings: Settings): State {
    State(None, None, map[], 0, settings)
  }

  /** The live timers are exactly the two held ones, with their periods, or there are none. */
  ghost predicate TimersOk(c: Config, s: State) {
    match (s.collectTimer, s.retentionTimer)
    case (Some(a), Some(b)) =>
      && a != b && a < s.made && b < s.made
      && s.live == map[a := EffectiveIntervalMs(c, s.settings), b := RETENTION_INTERVAL_MS]
    case (None, None) => s.live == map[]
    case _ => false
  }

  lemma StepKeepsTimers(c: Config, s: State, e: Event)
    requires TimersOk(c, s)
    ensures TimersOk(c, Step(c)(s, e))
  {
    match e
    case Start => StartKeeps(c, s);
    case Stop => StopKeeps(c, s);
    case Reschedule =>
      RescheduleKeeps(c, s, s.settings);
      assert s.(settings := s.settings) == s;
    case Update(interval, retention) => UpdateKeeps(c, s, interval, retention);
  }

  // ----- When they run -------------------------------------------------------

  /** The last start or stop of the first `n` events was a start. */
  predicate Running(es: seq<Event>, n: nat)
    requires n <= |es|
  {
    n > 0 && (es[n - 1].Start? || (!es[n - 1].Stop? && Running(es, n - 1)))
  }

  /** The collector's timers run exactly from a start to the next stop. */
  lemma {:induction false} TimersRunWhen(c: Config, settings: Settings, es: seq<Event>, n: nat)
    requires n <= |es|
    ensures After(Step(c), Initial(settings), es, n).collectTimer.Some? <==> Running(es, n)
  {
    if n > 0 {
      TimersRunWhen(c, settings, es, n - 1);
      RunsAfterStep(c, After(Step(c), Initial(settings), es, n - 1), es[n - 1]);
    }
  }

  lemma RunsAfterStep(c: Config, s: State, e: Event)
    ensures Step(c)(s, e).collectTimer.Some? <==> e.Start? || (!e.Stop? && s.collectTimer.Some?)
  {
    match e
    case Start => assert Step(c)(s, e) == OnStart(c, s);
    case Stop => assert Step(c)(s, e) == OnStop(s);
    case Reschedule => assert Step(c)(s, e) == OnReschedule(c, s);
    case Update(interval, retention) => assert Step(c)(s, e) == OnUpdate(c, s, interval, retention);
  }

  /** Without a readable setting the configured defaults apply. */
  lemma DefaultsApply(c: Config, s: Settings)
    ensures (KEY_INTERVAL in s ==> c.number(s[KEY_INTERVAL]).None?) ==> EffectiveIntervalMs(c, s) == c.intervalMs
    ensures (KEY_RETENTION in s ==> c.number(s[KEY_RETENTION]).None?) ==>
      EffectiveRetentionDays(c, s) == c.retentionDays
  {
  }

  lemma KeysDiffer()
    ensures KEY_INTERVAL != KEY_RETENTION
  {
    assert |KEY_INTERVAL| != |KEY_RETENTION|;
  }

  lemma StartKeeps(c: Config, s: State)
    requires TimersOk(c, s)
    ensures TimersOk(c, OnStart(c, s))
  {
  }

  lemma StopKeeps(c: Config, s: State)
    requires TimersOk(c, s)
    ensures TimersOk(c, OnStop(s)) && OnStop(s).live == map[]
  {
  }

  /** Rescheduling brings the timers up to date with any settings. */
  lemma RescheduleKeeps(c: Config, s: State, settings: Settings)
    requires TimersOk(c, s)
    ensures TimersOk(c, OnReschedule(c, s.(settings := settings)))
  {
  }

  lemma UpdateKeeps(c: Config, s: State, interval: Option<nat>, retention: Option<nat>)
    requires TimersOk(c, s)
    ensures TimersOk(c, OnUpdate(c, s, interval, retention))
  {
    var settings := Saved(Saved(s.settings, KEY_INTERVAL, interval), KEY_RETENTION, retention);
    if interval.Some? {
      RescheduleKeeps(c, s, settings);
    } else {
      KeysDiffer();
      assert Get(settings, KEY_INTERVAL) == Get(s.settings, KEY_INTERVAL);
      assert EffectiveIntervalMs(c, settings) == EffectiveIntervalMs(c, s.settings);
    }
  }

  /** Over any run of starts, stops, reschedules and settings updates, from any stored
      settings: both timers are held or neither, the live timers are exactly the held ones,
      the collect timer's period is the effective persisted interval, and the settings page
      reports what the collector uses. */
  lemma TimersFollowSettings(c: Config, settings: Settings, es: seq<Event>, n: nat)
    requires n <= |es|
    ensures var s := After(Step(c), Initial(settings), es, n);
      && (s.collectTimer.Some? <==> s.retentionTimer.Some?)
      && (forall t :: t in s.live <==> s.collectTimer == Some(t) || s.retentionTimer == Some(t))
      && (s.collectTimer.Some? ==>
            && s.retentionTimer.Some? && s.live[s.retentionTimer.value] == 60.0 * 60.0 * 1000.0
            && s.live[s.collectTimer.value] == EffectiveIntervalMs(c, s.settings)
            && s.live[s.collectTimer.value] == ReadSettings(c, s.settings).intervalSeconds * 1000.0)
      && ReadSettings(c, s.settings).retentionDays == EffectiveRetentionDays(c, s.settings)
  {
    forall s, e | TimersOk(c, s) ensures TimersOk(c, Step(c)(s, e)) {
      StepKeepsTimers(c, s, e);
    }
    Keeps(Step(c), s => TimersOk(c, s), Initial(settings), es, n);
  }

  /** A saved interval is in force at once if the collector runs, and is what is reported. */
  lemma UpdateTakesEffect(c: Config, s: State, n: nat, retention: Option<nat>)
    requires TimersOk(c, s) && ReadsNumerals(c)
    ensures var t := OnUpdate(c, s, Some(n), retention);
      && ReadSettings(c, t.settings).intervalSeconds == n as real
      && (retention.Some? ==> ReadSettings(c, t.settings).retentionDays == retention.value as real)
      && (t.collectTimer.Some? <==> s.collectTimer.Some?)
      && (t.collectTimer.Some? ==> t.live[t.collectTimer.value] == n as real * 1000.0)
  {
    KeysDiffer();
    var settings := Saved(Saved(s.settings, KEY_INTERVAL, Some(n)), KEY_RETENTION, retention);
    RescheduleKeeps(c, s, settings);
    assert c.number(Dec(n)) == Some(n as real);
    assert Get(settings, KEY_INTERVAL) == Some(Dec(n));
  }

  // ----- The service ---------------------------------------------------------

  class MetricsService {
    const config: Config
    var collectTimer: Option<nat>
    var retentionTimer: Option<nat>
    var live: map<nat, real>
    var made: nat
    var settings: Settings

    function Now(): State
      reads this
    {
      State(collectTimer, retentionTimer, live, made, settings)
    }

    ghost predicate Valid()
      reads this
    {
      TimersOk(config, Now())
    }

    constructor (config: Config, settings: Settings)
      ensures this.config == config && Now() == Initial(settings) && Valid()
    {
      this.config, this.settings := config, settings;
      collectTimer, retentionTimer, live, made := None, None, map[], 0;
    }

    method SetInterval(ms: real) returns (t: nat)
      modifies this
      ensures t == old(made) && Now() == old(Now()).(live := old(live)[t := ms], made := old(made) + 1)
    {
      t := made;
      live := live[t := ms];
      made := made + 1;
    }

    method Start()
      requires Valid()
      modifies this
      ensures Valid() && Now() == OnStart(config, old(Now()))
    {
      StartKeeps(config, Now());
      if collectTimer.Some? {
        return;
      }
      var c := SetInterval(EffectiveIntervalMs(config, settings));
      collectTimer := Some(c);
      var r := SetInterval(RETENTION_INTERVAL_MS);
      retentionTimer := Some(r);
    }

    method Reschedule()
      modifies this
      ensures Now() == OnReschedule(config, old(Now()))
    {
      if collectTimer.None? {
        return;
      }
      live := live - {collectTimer.value};
      var t := SetInterval(EffectiveIntervalMs(config, settings));
      collectTimer := Some(t);
    }

    method Stop()
      requires Valid()
      modifies this
      ensures Valid() && Now() == OnStop(old(Now())) && live == map[]
    {
      StopKeeps(config, Now());
      if collectTimer.Some? {
        live := live - {collectTimer.value};
        collectTimer := None;
      }
      if retentionTimer.Some? {
        live := live - {retentionTimer.value};
        retentionTimer := None;
      }
    }

    /** settingsRepository.set: insert or overwrite. */
    method Set(key: string, value: string)
      modifies this
      ensures Now() == old(Now()).(settings := old(settings)[key := value])
    {
      settings := settings[key := value];
    }

    method UpdateSettings(interval: Option<nat>, retention: Option<nat>) returns (view: View)
      requires Valid()
      modifies this
      ensures Valid() && Now() == OnUpdate(config, old(Now()), interval, retention)
      ensures view == ReadSettings(config, settings)
    {
      UpdateKeeps(config, Now(), interval, retention);
      if interval.Some? {
        Set(KEY_INTERVAL, Dec(interval.value));
      }
      if retention.Some? {
        Set(KEY_RETENTION, Dec(retention.value));
      }
      if interval.Some? {
        Reschedule();
      }
      view := ReadSettings(config, settings);
    }
  }
}
