/**
 Two more properties of the running service: what the result shown for a server
 says, and that what is enabled has a valid target.
 */
module NotificationState {
  import opened Options
  import opened Text
  import opened Notifications
  import opened NotificationDispatch

  predicate LiveFor(v: Service, id: string, r: Result) { id in v.configs && v.configs[id].generation == r.generation }

  /** Has this server's result been recorded on the way from v to w? */
  predicate Recorded(v: Service, w: Service, id: string) {
    id in w.results && (id !in v.results || w.results[id] != v.results[id])
  }

  ghost predicate OnlyLive(v: Service, w: Service) {
    forall id | Recorded(v, w, id) :: LiveFor(v, id, w.results[id])
  }

  lemma SectionRecordsLive(s: State, section: Section)
    ensures OnlyLive(s.service, Run1(s, section).service)
  {
  }

  lemma CallRecordsLive(call: Call, v: Service, secrets: map<string, Config>, coalesced: bool)
    ensures OnlyLive(v, Next(call, v, secrets, coalesced).service)
  {
  }

  lemma WorkerRecordsLive(s: State, move: WorkerMove)
    ensures OnlyLive(s.service, WorkAt(s, move).service)
  {
  }

  /** Whatever step is taken, a result is recorded only for the configuration that is live. */
  lemma StepRecordsLive(s: State, step: Step)
    ensures OnlyLive(s.service, Do(s, step).service)
  {
    match step
    case Open(_, _) =>
    case Advance(i, coalesced) =>
      if i < |s.calls| {
        CallRecordsLive(s.calls[i], s.service, s.secrets, coalesced);
      }
    case Issue(_) =>
    case Execute(succeeds) =>
      if s.program != [] {
        SectionRecordsLive(s.(program := s.program[1..]), s.program[0]);
      }
    case Work(move) => WorkerRecordsLive(s, move);
  }

  /** After n steps this result was recorded, and its generation was the live one. */
  predicate RecordedAt(s: State, steps: seq<Step>, n: nat, id: string, r: Result)
    requires n < |steps|
  {
    LiveFor(Run(s, steps[..n]).service, id, r)
    && id in Run(s, steps[..n + 1]).service.results && Run(s, steps[..n + 1]).service.results[id] == r
  }

  /** Every result there is was recorded at some moment for the configuration that was live at that moment. */
  lemma {:induction false} ResultsWereLive(s: State, steps: seq<Step>, id: string)
    requires s.service.results == map[] && id in Run(s, steps).service.results
    ensures exists n | 0 <= n < |steps| :: RecordedAt(s, steps, n, id, Run(s, steps).service.results[id])
    decreases |steps|
  {
    var before, r := steps[..|steps| - 1], Run(s, steps).service.results[id];
    StepRecordsLive(Run(s, before), steps[|steps| - 1]);
    assert steps[..|steps|] == steps;
    if Recorded(Run(s, before).service, Run(s, steps).service, id) {
      assert RecordedAt(s, steps, |steps| - 1, id, r);
    } else {
      ResultsWereLive(s, before, id);
      var n :| 0 <= n < |before| && RecordedAt(s, before, n, id, r);
      assert before[..n] == steps[..n] && before[..n + 1] == steps[..n + 1];
      assert RecordedAt(s, steps, n, id, r);
    }
  }

  /** So the result shown for a server was recorded while the configuration that is live now was live. */
  lemma ShownResultIsOfLiveConfig(s: State, steps: seq<Step>, id: string)
    requires s.service.results == map[] && LastResult(Run(s, steps).service, id) != "not_sent"
    ensures var v := Run(s, steps).service;
      && id in v.configs && id in v.results && v.results[id].generation == v.configs[id].generation
      && exists n | 0 <= n < |steps| :: RecordedAt(s, steps, n, id, v.results[id])
  {
    ResultsWereLive(s, steps, id);
  }

  // ---------------------------------------------------------------- enabled configurations

  predicate SectionSound(section: Section) {
    section.WriteSecret? || section.InsertConfig? ==> Sound(section.config)
  }

  predicate CallSound(call: Call) {
    (call.Loaded? && call.saved.Some? ==> Sound(call.saved.value)) && (call.Configured? ==> Sound(call.config))
  }

  ghost predicate MapSound(configs: map<string, Config>) { forall id | id in configs :: Sound(configs[id]) }

  /** Wherever a configuration is, if it is enabled it has a valid target to mention. */
  ghost predicate AllSound(s: State) {
    && MapSound(s.service.configs) && MapSound(s.secrets)
    && (forall i | 0 <= i < |s.calls| :: CallSound(s.calls[i]))
    && (forall i | 0 <= i < |s.program| :: SectionSound(s.program[i]))
  }

  lemma DisabledIsSound(config: Config)
    requires !config.enabled
    ensures Sound(config)
  {
  }

  lemma DecidedIsSound(config: Config, enabled: bool, events: Events, mentions: Mentions, confirmed: bool,
                       generation: nat, binding: Option<string>)
    ensures var d := Decide(config, enabled, events, mentions, confirmed, generation, binding);
      d.Some? ==> Sound(d.value)
  {
    DeliveryNeedsConfirmation(config, enabled, events, mentions, confirmed, generation, binding);
  }

  ghost predicate ProgramSound(program: seq<Section>) { forall i | 0 <= i < |program| :: SectionSound(program[i]) }

  lemma SavingIsSound(id: string, config: Config, report: bool)
    requires Sound(config)
    ensures ProgramSound(Saving(id, config, report))
  {
  }

  lemma CommandIsSound(s: State, command: Command)
    ensures ProgramSound(Program(s, command))
  {
    match command
    case SaveDestination(id, url, mentions, binding) =>
      var config := Config(url, false, Events(true, true, true), mentions, s.next, binding);
      DisabledIsSound(config);
      SavingIsSound(id, config, false);
    case SetNotifications(id, enabled, events, mentions, confirmed, binding) =>
      if Read(s, id).Some? {
        var config := Read(s, id).value;
        DecidedIsSound(config, enabled, events, mentions, confirmed, s.next, binding);
        var d := Decide(config, enabled, events, mentions, confirmed, s.next, binding);
        if d.Some? {
          SavingIsSound(id, d.value, config.enabled || mentions != config.mentions);
        }
      }
    case DisableServer(id) => DisablingIsSound(s, id);
    case DeleteDestination(_) =>
    case SetLocale(_) =>
  }

  lemma DisablingIsSound(s: State, id: string)
    ensures ProgramSound(Disabling(s, id))
  {
    if Read(s, id).Some? {
      var config := Read(s, id).value.(enabled := false, generation := s.next);
      DisabledIsSound(config);
      SavingIsSound(id, config, true);
    }
  }

  lemma SoundSection(s: State, section: Section)
    requires AllSound(s) && SectionSound(section)
    ensures AllSound(Run1(s, section))
  {
  }

  lemma SoundNext(call: Call, v: Service, secrets: map<string, Config>, coalesced: bool)
    requires CallSound(call) && MapSound(v.configs) && MapSound(secrets)
    ensures var o := Next(call, v, secrets, coalesced); CallSound(o.call) && MapSound(o.service.configs)
  {
    hide Sound, Subscribed;
  }

  lemma SoundAdvance(s: State, i: nat, coalesced: bool)
    requires AllSound(s) && i < |s.calls|
    ensures AllSound(AdvanceAt(s, i, coalesced))
  {
    hide Next, CallSound, MapSound, SectionSound;
    SoundNext(s.calls[i], s.service, s.secrets, coalesced);
  }

  /** Only a configuration that was read may have been added to the cache. */
  predicate CachedAtMost(s: State, t: State, id: string) {
    t.service.configs == s.service.configs || t.service.configs == Cache(s.service, id, Read(s, id)).configs
  }

  lemma SoundFrame(s: State, t: State, id: string)
    requires AllSound(s) && CachedAtMost(s, t, id)
    requires t.secrets == s.secrets && t.calls == s.calls && ProgramSound(t.program)
    ensures AllSound(t)
  {
  }

  lemma ProgramIsSound(s: State)
    requires AllSound(s)
    ensures ProgramSound(s.program)
  {
  }

  function ServerOf(worker: Worker): string { if worker.Authorising? then worker.job.serverId else "" }

  /** A worker's move touches the store and the calls not at all, the cache as a read does. */
  lemma WorkFrame(s: State, move: WorkerMove)
    ensures var t, id := WorkAt(s, move), ServerOf(s.worker);
      && t.secrets == s.secrets && t.calls == s.calls && CachedAtMost(s, t, id)
      && (t.program == s.program || t.program == Disabling(s, id))
  {
    hide PopAt, AcquireAt, AuthoriseAt, AnswerAt, FinishAt, Read, Disabling;
    WorkAside(s, move);
    if Plain(move) {
      WorkApart(s, move);
    } else if move.Authorise? && s.worker.Authorising? {
      AuthoriseAside(s, move.known, move.bound, move.urlValid);
    }
  }

  lemma SoundWork(s: State, move: WorkerMove)
    requires AllSound(s)
    ensures AllSound(WorkAt(s, move))
  {
    hide AllSound, CachedAtMost, WorkAt, Disabling, ServerOf;
    var t, id := WorkAt(s, move), ServerOf(s.worker);
    assert ProgramSound(s.program) by { ProgramIsSound(s); }
    WorkFrame(s, move);
    DisablingIsSound(s, id);
    SoundFrame(s, t, id);
  }

  lemma SoundIssue(s: State, command: Command)
    requires AllSound(s) && s.lock.Free?
    ensures AllSound(IssueAt(s, command))
  {
    CommandIsSound(s, command);
    SoundFrame(s, IssueAt(s, command), if ReadsConfig(command) then command.id else "");
  }

  lemma SoundRest(s: State)
    requires AllSound(s) && s.program != []
    ensures AllSound(s.(program := s.program[1..])) && AllSound(s.(program := [])) && SectionSound(s.program[0])
  {
    hide SectionSound, MapSound, CallSound;
  }

  lemma SoundRelease(s: State)
    requires AllSound(s)
    ensures AllSound(Release(s))
  {
    hide SectionSound, MapSound, CallSound;
  }

  lemma SoundExecute(s: State, succeeds: bool)
    requires AllSound(s) && s.program != []
    ensures AllSound(ExecuteAt(s, succeeds))
  {
    hide AllSound, Release, Run1, SectionSound;
    SoundRest(s);
    SoundRelease(s.(program := []));
    SoundSection(s.(program := s.program[1..]), s.program[0]);
    SoundRelease(Run1(s.(program := s.program[1..]), s.program[0]));
  }

  lemma SoundOpen(s: State, call: Call)
    requires AllSound(s) && CallSound(call)
    ensures AllSound(s.(calls := s.calls + [call]))
  {
    hide CallSound, MapSound, SectionSound;
  }

  lemma SoundStep(s: State, step: Step)
    requires AllSound(s)
    ensures AllSound(Do(s, step))
  {
    hide AllSound, AdvanceAt, IssueAt, ExecuteAt, WorkAt;
    match step
    case Open(id, event) => SoundOpen(s, Asked(id, event));
    case Advance(i, coalesced) =>
      if i < |s.calls| {
        SoundAdvance(s, i, coalesced);
      }
    case Issue(command) =>
      if s.lock.Free? {
        SoundIssue(s, command);
      }
    case Execute(succeeds) =>
      if s.program != [] {
        SoundExecute(s, succeeds);
      }
    case Work(move) => SoundWork(s, move);
  }

  /** In every reachable state what is enabled has a valid target, provided what was saved before had one. */
  lemma EnabledHasTarget(s: State, steps: seq<Step>, id: string)
    requires Initial(s) && MapSound(s.secrets)
    ensures var v := Run(s, steps).service;
      id in v.configs && v.configs[id].enabled ==>
        var mentions := v.configs[id].mentions;
        RoleNumber(Trim(mentions.roleId)) || (Trim(mentions.roleId) == "" && !(mentions.enabled && mentions.mode.Role?))
  {
    SoundRun(s, steps);
    var v := Run(s, steps).service;
    if id in v.configs {
      MentionsExactly(v.configs[id].mentions);
    }
  }

  lemma {:induction false} SoundRun(s: State, steps: seq<Step>)
    requires Initial(s) && MapSound(s.secrets)
    ensures AllSound(Run(s, steps))
  {
    if steps != [] {
      SoundRun(s, steps[..|steps| - 1]);
      SoundStep(Run(s, steps[..|steps| - 1]), steps[|steps| - 1]);
    }
  }
}
