/**
 The notification service: saved configurations and their cache, the bounded
 volatile queue, the last results, and the active locale. Every function below
 is one section of code that holds one of the service's mutexes.
 */
module Notifications {
  import opened Options
  import opened Text

  const QUEUE_LIMIT: nat := 32
  const COALESCE_SECONDS: nat := 10
  const SUPPORTED_LOCALES: set<string> := {"en", "ja", "zh-CN", "zh-TW", "ko", "es", "de", "fr", "pt-BR"}

  datatype EventKind = Started | Stopped | Crashed | Test

  datatype Events = Events(started: bool, stopped: bool, crashed: bool) {
    predicate Contains(event: EventKind) {
      match event
      case Started => started
      case Stopped => stopped
      case Crashed => crashed
      case Test => true
    }
  }

  datatype MentionMode = Role | Here | Everyone

  datatype Mentions = Mentions(enabled: bool, mode: MentionMode, roleId: string) {
    predicate Valid(requireTarget: bool) {
      var id := Trim(roleId);
      && (id == "" || (17 <= |id| <= 22 && forall i :: 0 <= i < |id| ==> IsDigit(id[i])))
      && !(requireTarget && enabled && mode == Role && id == "")
    }
  }

  /** Generations are fresh identifiers; counting them upwards lets "older" be said. */
  datatype Config = Config(url: string, enabled: bool, events: Events, mentions: Mentions,
                           generation: nat, binding: Option<string>)

  datatype Job = Job(serverId: string, event: EventKind, generation: nat, locale: string, localeGeneration: nat)

  datatype ActiveLocale = ActiveLocale(locale: string, generation: nat, ready: bool)

  datatype Result = Result(generation: nat, text: string)

  datatype Service = Service(configs: map<string, Config>, results: map<string, Result>, queue: seq<Job>,
                             locale: ActiveLocale)

  /** The jobs that belong to other servers. */
  function Without(queue: seq<Job>, id: string): (kept: seq<Job>)
    ensures |kept| <= |queue|
    ensures forall job :: job in kept <==> job in queue && job.serverId != id
  {
    if queue == [] then []
    else
      var last := queue[|queue| - 1];
      Without(queue[..|queue| - 1], id) + if last.serverId == id then [] else [last]
  }

  function RecordResult(v: Service, id: string, generation: nat, text: string): Service {
    if id in v.configs && v.configs[id].generation == generation
    then v.(results := v.results[id := Result(generation, text)]) else v
  }

  function RecordJobResult(v: Service, id: string, generation: nat, localeGeneration: nat, text: string): Service {
    if v.locale.ready && v.locale.generation == localeGeneration then RecordResult(v, id, generation, text) else v
  }

  function Push(v: Service, job: Job): Service {
    if |v.queue| >= QUEUE_LIMIT then v else v.(queue := v.queue + [job])
  }

  /** The configuration a call goes by: the cached one, or else the saved one. */
  function Found(v: Service, secrets: map<string, Config>, id: string): Option<Config> {
    if id in v.configs then Some(v.configs[id]) else if id in secrets then Some(secrets[id]) else None
  }

  function Cache(v: Service, id: string, config: Option<Config>): Service {
    if config.Some? then v.(configs := v.configs[id := config.value]) else v
  }

  /** Once it was read a configuration is cached. */
  function Cached(v: Service, secrets: map<string, Config>, id: string): Service { Cache(v, id, Found(v, secrets, id)) }

  /** A saved configuration takes the jobs and the result of the one before with it. */
  function AfterSave(v: Service, id: string, config: Config): Service {
    Service(v.configs[id := config], v.results - {id}, Without(v.queue, id), v.locale)
  }

  function WithDisabled(v: Service, id: string, disabled: Config): Service {
    RecordResult(AfterSave(v, id, disabled), id, disabled.generation, "cancelled")
  }

  /** A reading that was cached makes no difference to what is saved over it. */
  lemma SavedOverCached(v: Service, secrets: map<string, Config>, id: string, config: Config)
    ensures AfterSave(Cached(v, secrets, id), id, config) == AfterSave(v, id, config)
  {
    if Found(v, secrets, id).Some? {
      assert v.configs[id := Found(v, secrets, id).value][id := config] == v.configs[id := config];
    }
  }

  /** Disabling shows as cancelled and leaves no job of the server. */
  lemma DisabledIsFinal(v: Service, id: string, disabled: Config)
    ensures var w := WithDisabled(v, id, disabled);
      Without(w.queue, id) == w.queue && LastResult(w, id) == "cancelled"
  {
    PurgeTwice(v.queue, id);
  }

  type Recent = map<string, (EventKind, nat)>

  /** Was the same event queued for this server moments ago? */
  predicate Coalesces(recent: Recent, id: string, event: EventKind, now: nat) {
    id in recent && recent[id].0 == event && now - recent[id].1 < COALESCE_SECONDS
  }

  predicate Subscribed(config: Config, event: EventKind) { config.enabled && config.events.Contains(event) }

  /** What queueing a job for this event leaves behind; v has the configuration cached already. */
  function Enqueued(v: Service, recent: Recent, config: Option<Config>, id: string, event: EventKind, now: nat)
    : (Service, Recent)
  {
    if config.None? || !Subscribed(config.value, event) then (v, recent)
    else if !v.locale.ready then (RecordResult(v, id, config.value.generation, "locale_not_ready"), recent)
    else if Coalesces(recent, id, event, now) then (v, recent)
    else if |v.queue| >= QUEUE_LIMIT then
      (RecordJobResult(v, id, config.value.generation, v.locale.generation, "queue_full"), recent[id := (event, now)])
    else
      (Push(v, Job(id, event, config.value.generation, v.locale.locale, v.locale.generation)),
       recent[id := (event, now)])
  }

  /** The configuration asks for this event: delivery is on, and so is the switch of the event; a test has none. */
  predicate AsksFor(config: Config, event: EventKind) {
    && config.enabled
    && (event == Started ==> config.events.started)
    && (event == Stopped ==> config.events.stopped)
    && (event == Crashed ==> config.events.crashed)
  }

  /**
   The queue grows exactly for an event that an enabled configuration asks for,
   in a known locale, that was not queued in the last ten seconds, while there
   is room for 32 jobs.
   */
  lemma QueueGrowsExactly(v: Service, recent: Recent, config: Option<Config>, id: string, event: EventKind, now: nat)
    ensures var (w, later) := Enqueued(v, recent, config, id, event, now);
      var due := config.Some? && AsksFor(config.value, event) && v.locale.ready
                 && !(id in recent && recent[id].0 == event && now < recent[id].1 + 10);
      && (w.queue != v.queue <==> due && |v.queue| < 32)
      && (w.queue != v.queue ==>
            w == v.(queue := v.queue + [Job(id, event, config.value.generation, v.locale.locale, v.locale.generation)]))
      && later == (if due then recent[id := (event, now)] else recent)
      && (|v.queue| <= 32 ==> |w.queue| <= 32)
  {
  }

  /** What is reported where an event asked for cannot be queued, and that nothing is reported otherwise. */
  lemma EnqueueReports(v: Service, recent: Recent, config: Config, id: string, event: EventKind, now: nat)
    requires id in v.configs && v.configs[id] == config
    ensures var w := Enqueued(v, recent, Some(config), id, event, now).0;
      var again := id in recent && recent[id].0 == event && now < recent[id].1 + 10;
      LastResult(w, id) ==
        if !AsksFor(config, event) then LastResult(v, id)
        else if !v.locale.ready then "locale_not_ready"
        else if !again && |v.queue| >= 32 then "queue_full"
        else LastResult(v, id)
  {
  }

  /** A job's result shows exactly while its locale and its configuration are the live ones. */
  lemma JobResultShows(v: Service, id: string, generation: nat, localeGeneration: nat, text: string)
    ensures var w := RecordJobResult(v, id, generation, localeGeneration, text);
      var live := v.locale.ready && v.locale.generation == localeGeneration
                  && id in v.configs && v.configs[id].generation == generation;
      && LastResult(w, id) == (if live then text else LastResult(v, id))
      && w == v.(results := w.results) && (forall other | other != id :: LastResult(w, other) == LastResult(v, other))
  {
  }

  /** A reading goes by the cache, then by the store, and is the same the next time. */
  lemma ReadingStays(v: Service, secrets: map<string, Config>, id: string)
    ensures var w := Cached(v, secrets, id);
      && (id in v.configs ==> Found(v, secrets, id) == Some(v.configs[id]) && w == v)
      && (id !in v.configs && id in secrets ==>
            Found(v, secrets, id) == Some(secrets[id]) && w == v.(configs := v.configs[id := secrets[id]]))
      && (id !in v.configs && id !in secrets ==> Found(v, secrets, id) == None && w == v)
      && Found(w, secrets, id) == Found(v, secrets, id)
  {
    if id in v.configs {
      assert v.configs[id := v.configs[id]] == v.configs;
    }
  }

  /** A save is the live configuration at once, with nothing to show; other servers notice nothing. */
  lemma SaveShows(v: Service, id: string, config: Config)
    ensures var w := AfterSave(v, id, config);
      && w.configs == v.configs[id := config] && w.locale == v.locale && LastResult(w, id) == "not_sent"
      && (forall job :: job in w.queue <==> job in v.queue && job.serverId != id)
      && (forall other | other != id :: LastResult(w, other) == LastResult(v, other))
  {
  }

  /** Does one of the jobs belong to the live configuration of this server? */
  predicate Waiting(v: Service, jobs: seq<Job>, id: string) {
    id in v.configs && exists job <- jobs :: job.serverId == id && job.generation == v.configs[id].generation
  }

  /** The results after every drained job has been reported as cancelled. */
  function CancelWaiting(v: Service, jobs: seq<Job>): map<string, Result> {
    map id | id in v.results.Keys + v.configs.Keys && (id in v.results || Waiting(v, jobs, id)) ::
      if Waiting(v, jobs, id) then Result(v.configs[id].generation, "cancelled") else v.results[id]
  }

  /** The results after every test still reported as queued has been cancelled. */
  function CancelQueued(v: Service): map<string, Result> {
    map id | id in v.results ::
      if id in v.configs && v.results[id] == Result(v.configs[id].generation, "queued")
      then Result(v.configs[id].generation, "cancelled") else v.results[id]
  }

  /** An effective change of the locale, once everything that was waiting has been withdrawn. */
  function LocaleChanged(v: Service, locale: string, newest: nat): Service {
    var w := v.(locale := ActiveLocale(locale, newest, true), queue := [], results := CancelWaiting(v, v.queue));
    w.(results := CancelQueued(w))
  }

  /** What is withdrawn by a change of the locale shows as cancelled; every other result stays. */
  lemma LocaleChangedShows(v: Service, locale: string, newest: nat, id: string)
    ensures var w := LocaleChanged(v, locale, newest);
      var withdrawn :=
        (id in v.configs && exists job <- v.queue :: job.serverId == id && job.generation == v.configs[id].generation)
        || (id in v.configs && id in v.results && v.results[id] == Result(v.configs[id].generation, "queued"));
      && w.configs == v.configs && w.queue == [] && w.locale == ActiveLocale(locale, newest, true)
      && (id in w.results <==> id in v.results || withdrawn)
      && (id in w.results ==>
            w.results[id] == if withdrawn then Result(v.configs[id].generation, "cancelled") else v.results[id])
      && LastResult(w, id) == (if withdrawn then "cancelled" else LastResult(v, id)) != "queued"
  {
  }

  lemma WaitingNext(v: Service, jobs: seq<Job>, job: Job, id: string)
    ensures Waiting(v, jobs + [job], id) <==>
      Waiting(v, jobs, id) || (id in v.configs && job.serverId == id && job.generation == v.configs[id].generation)
  {
    var more := jobs + [job];
    assert more[|jobs|] == job;
    assert forall i | 0 <= i < |jobs| :: more[i] == jobs[i];
  }

  /** Reporting one more job as cancelled. */
  lemma CancelWaitingNext(v: Service, jobs: seq<Job>, job: Job)
    ensures var before := v.(results := CancelWaiting(v, jobs));
      RecordResult(before, job.serverId, job.generation, "cancelled") == v.(results := CancelWaiting(v, jobs + [job]))
  {
    hide Waiting;
    forall id ensures Waiting(v, jobs + [job], id) <==>
      Waiting(v, jobs, id) || (id in v.configs && job.serverId == id && job.generation == v.configs[id].generation)
    {
      WaitingNext(v, jobs, job, id);
    }
    var before := v.(results := CancelWaiting(v, jobs));
    assert RecordResult(before, job.serverId, job.generation, "cancelled").results == CancelWaiting(v, jobs + [job]);
  }

  lemma CancelWaitingReads(v: Service, w: Service, jobs: seq<Job>)
    requires v.configs == w.configs && v.results == w.results
    ensures CancelWaiting(v, jobs) == CancelWaiting(w, jobs)
  {
    assert forall id :: Waiting(v, jobs, id) == Waiting(w, jobs, id);
  }

  lemma CancelWaitingNone(v: Service)
    ensures CancelWaiting(v, []) == v.results
  {
  }

  /** The last result of a server, if it belongs to the live configuration. */
  function LastResult(v: Service, id: string): string {
    if id in v.configs && id in v.results && v.results[id].generation == v.configs[id].generation
    then v.results[id].text else "not_sent"
  }

  /**
   What saving new notification settings makes of the present configuration;
   None where the command refuses.
   */
  function Decide(config: Config, enabled: bool, events: Events, mentions: Mentions, confirmed: bool,
                  generation: nat, binding: Option<string>): Option<Config> {
    var mentionsChanged := mentions != config.mentions;
    var eventAdded := (!config.events.started && events.started) || (!config.events.stopped && events.stopped)
                      || (!config.events.crashed && events.crashed);
    if !mentions.Valid(enabled) || ((enabled || mentionsChanged || eventAdded) && !confirmed) then None
    else Some(Config(config.url, enabled && !mentionsChanged, events, mentions, generation, binding))
  }

  /** A destination may be left enabled only with a valid target. */
  predicate Sound(config: Config) { config.enabled ==> config.mentions.Valid(true) }

  /** Seventeen to twenty-two digits. */
  predicate RoleNumber(id: string) { 17 <= |id| <= 22 && forall i | 0 <= i < |id| :: id[i] in "0123456789" }

  /** What may be saved as a mention, and what may be switched on with it. */
  lemma MentionsExactly(mentions: Mentions)
    ensures var id := Trim(mentions.roleId);
      && (mentions.Valid(false) <==> id == "" || RoleNumber(id))
      && (mentions.Valid(true) <==>
            (id == "" && !(mentions.enabled && mentions.mode.Role?)) || RoleNumber(id))
  {
    var id := Trim(mentions.roleId);
    forall i | 0 <= i < |id| ensures IsDigit(id[i]) <==> id[i] in "0123456789" {
      if IsDigit(id[i]) {
        assert "0123456789"[id[i] as int - '0' as int] == id[i];
      }
    }
  }

  /**
   Delivery is only on after a confirmed request that asked for it and left the
   mention target alone; without confirmation nothing is widened. A request is
   refused exactly for bad mentions, or where it needs the confirmation it lacks.
   */
  lemma DeliveryNeedsConfirmation(config: Config, enabled: bool, events: Events, mentions: Mentions, confirmed: bool,
                                  generation: nat, binding: Option<string>)
    ensures var d := Decide(config, enabled, events, mentions, confirmed, generation, binding);
      var added := (events.started && !config.events.started) || (events.stopped && !config.events.stopped)
                   || (events.crashed && !config.events.crashed);
      && (d.None? <==> !mentions.Valid(enabled)
                       || (!confirmed && (enabled || mentions != config.mentions || added)))
      && (d.Some? ==>
            && Sound(d.value)
            && d.value == Config(config.url, d.value.enabled, events, mentions, generation, binding)
            && (d.value.enabled <==> enabled && confirmed && mentions == config.mentions)
            && (!confirmed ==> d.value.mentions == config.mentions && !added))
  {
  }

  /** The service object: the mutable fields, and the commands run one at a time. */
  class DiscordService {
    var secrets: map<string, Config>  // the operating system's credential store
    var configurations: map<string, Config>
    var results: map<string, Result>
    var queue: seq<Job>
    var recent: Recent
    var activeLocale: ActiveLocale

    constructor (secrets: map<string, Config>)
      ensures this.secrets == secrets && recent == map[]
      ensures View() == Service(map[], map[], [], ActiveLocale("ja", 0, false))
    {
      this.secrets := secrets;
      configurations, results, queue, recent := map[], map[], [], map[];
      activeLocale := ActiveLocale("ja", 0, false);
    }

    ghost function View(): Service
      reads this
    {
      Service(configurations, results, queue, activeLocale)
    }

    /** The cached configuration, or else the saved one, which is then cached. */
    method ReadConfig(id: string) returns (config: Option<Config>)
      modifies this`configurations
      ensures config == Found(old(View()), secrets, id) && View() == Cached(old(View()), secrets, id)
    {
      if id in configurations {
        return Some(configurations[id]);
      }
      if id in secrets {
        configurations := configurations[id := secrets[id]];
        return Some(secrets[id]);
      }
      return None;
    }

    method Purge(id: string)
      modifies this`queue
      ensures queue == Without(old(queue), id)
    {
      var kept := [];
      var i := 0;
      while i < |queue|
        invariant 0 <= i <= |queue| && kept == Without(queue[..i], id)
      {
        assert queue[..i + 1][..i] == queue[..i];
        if queue[i].serverId != id {
          kept := kept + [queue[i]];
        }
        i := i + 1;
      }
      assert queue[..|queue|] == queue;
      queue := kept;
    }

    method Record(id: string, generation: nat, text: string)
      modifies this`results
      ensures View() == RecordResult(old(View()), id, generation, text)
    {
      if id in configurations && configurations[id].generation == generation {
        results := results[id := Result(generation, text)];
      }
    }

    method RecordJob(id: string, generation: nat, localeGeneration: nat, text: string)
      modifies this`results
      ensures View() == RecordJobResult(old(View()), id, generation, localeGeneration, text)
    {
      if activeLocale.ready && activeLocale.generation == localeGeneration {
        Record(id, generation, text);
      }
    }

    /** Saving drops the jobs and the result of the configuration it replaces; a failed write changes nothing. */
    method Save(id: string, config: Config, writes: bool) returns (saved: bool)
      modifies this
      ensures saved == writes
      ensures !saved ==> View() == old(View()) && secrets == old(secrets) && recent == old(recent)
      ensures saved ==>
        && secrets == old(secrets)[id := config]
        && View() == AfterSave(old(View()), id, config)
        && recent == old(recent) - {id}
    {
      if !writes {
        return false;
      }
      secrets := secrets[id := config];
      configurations := configurations[id := config];
      Purge(id);
      recent := recent - {id};
      results := results - {id};
      return true;
    }

    /** Saves a configuration with delivery off, and reports what was under way as cancelled. */
    method SaveDisabled(id: string, disabled: Config, writes: bool) returns (saved: bool)
      modifies this
      ensures saved == writes
      ensures !saved ==> View() == old(View()) && secrets == old(secrets) && recent == old(recent)
      ensures saved ==> View() == WithDisabled(old(View()), id, disabled)
      ensures saved ==> secrets == old(secrets)[id := disabled] && recent == old(recent) - {id}
    {
      saved := Save(id, disabled, writes);
      if saved {
        Record(id, disabled.generation, "cancelled");
      }
    }

    /** Turns delivery off under a fresh generation. */
    method Disable(id: string, newest: nat, writes: bool) returns (config: Option<Config>)
      modifies this
      ensures config == Found(old(View()), old(secrets), id)
      ensures config.None? ==>
        View() == old(View()).(queue := Without(old(queue), id)) && secrets == old(secrets) && recent == old(recent)
      ensures config.Some? && !writes ==>
        View() == Cached(old(View()), secrets, id) && secrets == old(secrets) && recent == old(recent)
      ensures config.Some? && writes ==>
        var disabled := config.value.(enabled := false, generation := newest);
        && secrets == old(secrets)[id := disabled] && recent == old(recent) - {id}
        && View() == WithDisabled(old(View()), id, disabled)
    {
      config := ReadConfig(id);
      if config.Some? {
        var disabled := config.value.(enabled := false, generation := newest);
        SavedOverCached(old(View()), secrets, id, disabled);
        DisabledIsFinal(old(View()), id, disabled);
        var saved := SaveDisabled(id, disabled, writes);
        if !saved {
          return;
        }
      }
      Purge(id);
    }

    method CancelJobs(jobs: seq<Job>)
      modifies this`results
      ensures results == CancelWaiting(old(View()), jobs)
    {
      ghost var v := View();
      CancelWaitingNone(v);
      for i := 0 to |jobs|
        invariant View() == v.(results := CancelWaiting(v, jobs[..i]))
      {
        CancelWaitingNext(v, jobs[..i], jobs[i]);
        assert jobs[..i + 1] == jobs[..i] + [jobs[i]];
        Record(jobs[i].serverId, jobs[i].generation, "cancelled");
      }
      assert jobs[..|jobs|] == jobs;
    }

    method CancelTests()
      modifies this`results
      ensures results == CancelQueued(old(View()))
    {
      ghost var before := results;
      var ids := configurations.Keys;
      while ids != {}
        invariant ids <= configurations.Keys && results.Keys == before.Keys
        invariant forall id | id in results ::
          results[id] == if id in configurations && id !in ids
                            && before[id] == Result(configurations[id].generation, "queued")
                         then Result(configurations[id].generation, "cancelled") else before[id]
      {
        var id :| id in ids;
        if id in results && results[id] == Result(configurations[id].generation, "queued") {
          results := results[id := Result(configurations[id].generation, "cancelled")];
        }
        ids := ids - {id};
      }
    }

    /** A new locale gets a fresh generation, empties the queue and withdraws what was waiting. */
    method SetLocale(locale: string, newest: nat) returns (ok: bool)
      modifies this
      ensures ok == (locale in SUPPORTED_LOCALES)
      ensures secrets == old(secrets) && configurations == old(configurations)
      ensures !ok || (old(activeLocale).ready && old(activeLocale).locale == locale) ==>
        View() == old(View()) && recent == old(recent)
      ensures ok && !(old(activeLocale).ready && old(activeLocale).locale == locale) ==>
        View() == LocaleChanged(old(View()), locale, newest) && recent == map[]
    {
      if locale !in SUPPORTED_LOCALES {
        return false;
      }
      if activeLocale.ready && activeLocale.locale == locale {
        return true;
      }
      hide CancelWaiting, CancelQueued;
      activeLocale := ActiveLocale(locale, newest, true);
      var cancelled := queue;
      queue := [];
      recent := map[];
      CancelWaitingReads(old(View()), View(), cancelled);
      CancelJobs(cancelled);
      CancelTests();
      return true;
    }

    /** Queues a job for an enabled, subscribed event, or reports why it cannot. */
    method Enqueue(id: string, event: EventKind, now: nat)
      modifies this
      ensures secrets == old(secrets)
      ensures var config, before := Found(old(View()), old(secrets), id), Cached(old(View()), old(secrets), id);
        (View(), recent) == Enqueued(before, old(recent), config, id, event, now)
    {
      var read := ReadConfig(id);
      if read.None? || !read.value.enabled || !read.value.events.Contains(event) {
        return;
      }
      var config := read.value;
      if !activeLocale.ready {
        Record(id, config.generation, "locale_not_ready");
        return;
      }
      if id in recent && recent[id].0 == event && now - recent[id].1 < COALESCE_SECONDS {
        return;
      }
      recent := recent[id := (event, now)];
      if |queue| >= QUEUE_LIMIT {
        RecordJob(id, config.generation, activeLocale.generation, "queue_full");
        return;
      }
      queue := queue + [Job(id, event, config.generation, activeLocale.locale, activeLocale.generation)];
    }
  }

  lemma {:induction false} WithoutIsShort(queue: seq<Job>, id: string)
    ensures |Without(queue, id)| <= |queue|
  {
    if queue != [] {
      WithoutIsShort(queue[..|queue| - 1], id);
    }
  }

  lemma {:induction false} PurgeTwice(queue: seq<Job>, id: string)
    ensures Without(Without(queue, id), id) == Without(queue, id)
  {
    if queue != [] {
      var rest, last := queue[..|queue| - 1], queue[|queue| - 1];
      PurgeTwice(rest, id);
      if last.serverId != id {
        assert (Without(rest, id) + [last])[..|Without(rest, id)|] == Without(rest, id);
      } else {
        assert Without(queue, id) == Without(rest, id);
      }
    }
  }
}
