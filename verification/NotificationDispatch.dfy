/**
 Commands, event sources and the delivery worker around the notification
 service, as a transition system. The dispatch lock has one holder at a time;
 its holder runs a program of sections, while calls without the lock read
 configurations and queue jobs between any two of those sections. A step that
 is not enabled leaves the state alone, so every sequence of steps is a run.
 */
module NotificationDispatch {
  import opened Options
  import opened Notifications

  const MAX_ATTEMPTS: nat := 3

  /** One section that the holder of the dispatch lock still has to run. */
  datatype Section =
    | WriteSecret(id: string, config: Config)
    | InsertConfig(id: string, config: Config)
    | DeleteSecret(id: string)
    | RemoveConfig(id: string)
    | PurgeQueue(id: string)
    | ForgetResult(id: string)
    | Report(id: string, generation: nat, text: string)
    | Complete(id: string)
    | ActivateLocale(locale: string, generation: nat)
    | DrainQueue
    | CancelReported
    | CompleteLocale

  /** A call that does not hold the lock: it reads a configuration and may queue a job. */
  datatype Call =
    | Asked(id: string, event: Option<EventKind>)
    | Missed(id: string, event: Option<EventKind>)
    | Loaded(id: string, event: Option<EventKind>, saved: Option<Config>)
    | Configured(id: string, event: Option<EventKind>, config: Config)
    | Drafted(job: Job)
    | Overflowed(job: Job)
    | Queued(id: string, generation: nat)
    | Returned

  datatype Worker =
    | Idle
    | Trying(job: Job, attempt: nat)
    | Authorising(job: Job, attempt: nat)   // holds the lock, the locale was current
    | Withdrawing(job: Job)                 // holds the lock, the server is being disabled
    | Posting(job: Job, attempt: nat)       // holds the lock, the request is under way
    | Finishing(job: Job, text: string)

  datatype Lock = Free | HeldByCommand | HeldByWorker

  datatype Event =
    | Posted(ticket: nat, attempt: nat, job: Job, config: Config, saved: Option<Config>, locale: ActiveLocale)
    | Completed(id: string, fence: nat)
    | LocaleCompleted(fence: nat)

  datatype State = State(
    service: Service,
    secrets: map<string, Config>,
    lock: Lock,
    program: seq<Section>,
    calls: seq<Call>,
    worker: Worker,
    ticket: nat,   // jobs taken from the queue so far
    next: nat,     // the next generation to be given out
    clean: bool,   // no save or delete has overtaken a read of the saved configuration
    log: seq<Event>)

  datatype Command =
    | SaveDestination(id: string, url: string, mentions: Mentions, binding: Option<string>)
    | SetNotifications(id: string, enabled: bool, events: Events, mentions: Mentions, confirmed: bool,
                       binding: Option<string>)
    | DisableServer(id: string)
    | DeleteDestination(id: string)
    | SetLocale(locale: string)

  datatype Reply = Delivered | Refused(reason: string) | RetryLater(acceptable: bool)

  datatype WorkerMove =
    | Pop
    | Expire
    | Acquire
    | Disqualify
    | Authorise(known: bool, bound: bool, urlValid: bool)
    | Answer(reply: Reply)
    | Finish

  datatype Step =
    | Open(id: string, event: Option<EventKind>)
    | Advance(i: nat, coalesced: bool)
    | Issue(command: Command)
    | Execute(succeeds: bool)
    | Work(move: WorkerMove)

  /** The configuration a lock holder reads: cached, or saved; nobody else writes the store meanwhile. */
  function Read(s: State, id: string): Option<Config> { Found(s.service, s.secrets, id) }

  function Saving(id: string, config: Config, report: bool): seq<Section> {
    [WriteSecret(id, config), InsertConfig(id, config), PurgeQueue(id), ForgetResult(id)]
    + (if report then [Report(id, config.generation, "cancelled")] else []) + [Complete(id)]
  }

  function Deleting(id: string): seq<Section> {
    [DeleteSecret(id), RemoveConfig(id), PurgeQueue(id), ForgetResult(id), Complete(id)]
  }

  function Disabling(s: State, id: string): seq<Section> {
    match Read(s, id)
    case Some(config) => Saving(id, config.(enabled := false, generation := s.next), true)
    case None => [PurgeQueue(id)]
  }

  /** The sections a command runs once it holds the lock; none when it is refused. */
  function Program(s: State, command: Command): seq<Section> {
    match command
    case SaveDestination(id, url, mentions, binding) =>
      if mentions.Valid(false)
      then Saving(id, Config(url, false, Events(true, true, true), mentions, s.next, binding), false) else []
    case SetNotifications(id, enabled, events, mentions, confirmed, binding) =>
      (match Read(s, id)
       case None => []
       case Some(config) =>
         var decision := Decide(config, enabled, events, mentions, confirmed, s.next, binding);
         if decision.None? then []
         else Saving(id, decision.value, config.enabled || mentions != config.mentions))
    case DisableServer(id) => Disabling(s, id)
    case DeleteDestination(id) => Deleting(id)
    case SetLocale(locale) =>
      if locale !in SUPPORTED_LOCALES || (s.service.locale.ready && s.service.locale.locale == locale) then []
      else [ActivateLocale(locale, s.next), DrainQueue, CancelReported, CompleteLocale]
  }

  predicate ReadsConfig(command: Command) { command.SetNotifications? || command.DisableServer? }

  function IssueAt(s: State, command: Command): State
    requires s.lock.Free?
  {
    var v := if ReadsConfig(command) then Cache(s.service, command.id, Read(s, command.id)) else s.service;
    var program := Program(s, command);
    s.(service := v, program := program, next := s.next + 1,
       lock := if program == [] then Free else HeldByCommand)
  }

  predicate Carries(call: Call, id: string) { call.Loaded? && call.id == id && call.saved.Some? }

  /** Is a read of this server's saved configuration still waiting to be cached? */
  predicate ReadInFlight(calls: seq<Call>, id: string) {
    exists i | 0 <= i < |calls| :: Carries(calls[i], id)
  }

  /** One section; the reports that draining the queue calls for run before the rest of the program. */
  function Run1(s: State, section: Section): State {
    var v := s.service;
    match section
    case WriteSecret(id, config) =>
      s.(secrets := s.secrets[id := config], clean := s.clean && !ReadInFlight(s.calls, id))
    case InsertConfig(id, config) => s.(service := v.(configs := v.configs[id := config]))
    case DeleteSecret(id) => s.(secrets := s.secrets - {id}, clean := s.clean && !ReadInFlight(s.calls, id))
    case RemoveConfig(id) => s.(service := v.(configs := v.configs - {id}))
    case PurgeQueue(id) => s.(service := v.(queue := Without(v.queue, id)))
    case ForgetResult(id) => s.(service := v.(results := v.results - {id}))
    case Report(id, generation, text) => s.(service := RecordResult(v, id, generation, text))
    case Complete(id) =>
      s.(log := s.log + [Completed(id, if id in s.secrets then s.secrets[id].generation else s.next)])
    case ActivateLocale(locale, generation) =>
      s.(service := v.(locale := ActiveLocale(locale, generation, true)))
    case DrainQueue =>
      s.(service := v.(queue := []),
         program := seq(|v.queue|, i requires 0 <= i < |v.queue| =>
                          Report(v.queue[i].serverId, v.queue[i].generation, "cancelled")) + s.program)
    case CancelReported => s.(service := v.(results := CancelQueued(v)))
    case CompleteLocale => s.(log := s.log + [LocaleCompleted(v.locale.generation)])
  }

  /** The holder gives the lock back when its program is done. */
  function Release(s: State): State {
    if s.program != [] then s
    else if s.worker.Withdrawing? then
      s.(lock := Free, worker := Finishing(s.worker.job, "qualification_required"))
    else s.(lock := Free)
  }

  /** A write or delete that fails ends its command. */
  function ExecuteAt(s: State, succeeds: bool): State
    requires s.program != []
  {
    var section := s.program[0];
    if !succeeds && (section.WriteSecret? || section.DeleteSecret?) then Release(s.(program := []))
    else Release(Run1(s.(program := s.program[1..]), section))
  }

  /** A test notification is reported as queued whatever became of its job. */
  function Afterwards(job: Job): Call {
    if job.event == Test then Queued(job.serverId, job.generation) else Returned
  }

  datatype Outcome = Outcome(call: Call, service: Service)

  /** The next section of a call; `coalesced` says that the same event was queued moments ago. */
  function Next(call: Call, v: Service, secrets: map<string, Config>, coalesced: bool): Outcome {
    match call
    case Asked(id, event) =>
      Outcome(if id in v.configs then Configured(id, event, v.configs[id]) else Missed(id, event), v)
    case Missed(id, event) =>
      Outcome(Loaded(id, event, if id in secrets then Some(secrets[id]) else None), v)
    case Loaded(id, event, saved) =>
      Outcome(if saved.Some? then Configured(id, event, saved.value) else Returned, Cache(v, id, saved))
    case Configured(id, event, config) =>
      if event.None? || !Subscribed(config, event.value) then Outcome(Returned, v)
      else if !v.locale.ready then Outcome(Returned, RecordResult(v, id, config.generation, "locale_not_ready"))
      else Outcome(Drafted(Job(id, event.value, config.generation, v.locale.locale, v.locale.generation)), v)
    case Drafted(job) =>
      if coalesced then Outcome(Afterwards(job), v)
      else if |v.queue| >= QUEUE_LIMIT then Outcome(Overflowed(job), v)
      else Outcome(Afterwards(job), Push(v, job))
    case Overflowed(job) =>
      Outcome(Afterwards(job), RecordJobResult(v, job.serverId, job.generation, job.localeGeneration, "queue_full"))
    case Queued(id, generation) => Outcome(Returned, RecordResult(v, id, generation, "queued"))
    case Returned => Outcome(Returned, v)
  }

  function AdvanceAt(s: State, i: nat, coalesced: bool): State
    requires i < |s.calls|
  {
    var o := Next(s.calls[i], s.service, s.secrets, coalesced);
    s.(calls := s.calls[i := o.call], service := o.service)
  }

  /** Is the job one that this configuration still asks for? */
  predicate Wants(config: Config, job: Job) {
    Subscribed(config, job.event) && config.generation == job.generation
  }

  /** Why an authorised worker does not post; None if it does. */
  function Refusal(config: Option<Config>, job: Job, known: bool, bound: bool, urlValid: bool): Option<string> {
    if !known || config.None? || !bound || !Wants(config.value, job) then Some("cancelled")
    else if !config.value.mentions.Valid(true) then Some("mention_configuration_invalid")
    else if !urlValid then Some("delivery_failed")
    else None
  }

  function SavedFor(s: State, id: string): Option<Config> {
    if id in s.secrets then Some(s.secrets[id]) else None
  }

  function AuthoriseAt(s: State, known: bool, bound: bool, urlValid: bool): State
    requires s.worker.Authorising?
  {
    var job, config := s.worker.job, Read(s, s.worker.job.serverId);
    var t := s.(service := Cache(s.service, job.serverId, if known then config else None));
    match Refusal(config, job, known, bound, urlValid)
    case Some(text) => t.(lock := Free, worker := Finishing(job, text))
    case None =>
      t.(worker := Posting(job, s.worker.attempt),
         log := s.log + [Posted(s.ticket, s.worker.attempt, job, config.value, SavedFor(s, job.serverId),
                                s.service.locale)])
  }

  function AnswerAt(s: State, reply: Reply): State
    requires s.worker.Posting?
  {
    var job, attempt := s.worker.job, s.worker.attempt;
    s.(lock := Free,
       worker := match reply
                 case Delivered => Finishing(job, "sent")
                 case Refused(reason) => Finishing(job, reason)
                 case RetryLater(acceptable) =>
                   if acceptable && attempt + 1 < MAX_ATTEMPTS then Trying(job, attempt + 1)
                   else Finishing(job, "rate_limited"))
  }

  /** An idle worker takes the oldest job. */
  function PopAt(s: State): State {
    var v := s.service;
    if !s.worker.Idle? || v.queue == [] then s
    else s.(service := v.(queue := v.queue[1..]), worker := Trying(v.queue[0], 0), ticket := s.ticket + 1)
  }

  function AcquireAt(s: State): State {
    var locale := s.service.locale;
    if !s.worker.Trying? || !s.lock.Free? then s
    else if locale.ready && locale.generation == s.worker.job.localeGeneration
    then s.(lock := HeldByWorker, worker := Authorising(s.worker.job, s.worker.attempt))
    else s.(worker := Finishing(s.worker.job, "cancelled"))
  }

  function DisqualifyAt(s: State): State
    requires s.worker.Authorising?
  {
    var id := s.worker.job.serverId;
    s.(service := Cache(s.service, id, Read(s, id)), program := Disabling(s, id), next := s.next + 1,
       worker := Withdrawing(s.worker.job))
  }

  function FinishAt(s: State): State
    requires s.worker.Finishing?
  {
    var job := s.worker.job;
    s.(service := RecordJobResult(s.service, job.serverId, job.generation, job.localeGeneration, s.worker.text),
       worker := Idle)
  }

  function WorkAt(s: State, move: WorkerMove): State {
    match move
    case Pop => PopAt(s)
    case Expire => if s.worker.Trying? then s.(worker := Finishing(s.worker.job, "expired")) else s
    case Acquire => AcquireAt(s)
    case Disqualify => if s.worker.Authorising? then DisqualifyAt(s) else s
    case Authorise(known, bound, urlValid) =>
      if s.worker.Authorising? then AuthoriseAt(s, known, bound, urlValid) else s
    case Answer(reply) => if s.worker.Posting? then AnswerAt(s, reply) else s
    case Finish => if s.worker.Finishing? then FinishAt(s) else s
  }

  function Do(s: State, step: Step): State {
    match step
    case Open(id, event) => s.(calls := s.calls + [Asked(id, event)])
    case Advance(i, coalesced) => if i < |s.calls| then AdvanceAt(s, i, coalesced) else s
    case Issue(command) => if s.lock.Free? then IssueAt(s, command) else s
    case Execute(succeeds) => if s.program == [] then s else ExecuteAt(s, succeeds)
    case Work(move) => WorkAt(s, move)
  }

  /** The application starts with whatever configurations were saved before; their generations are all used. */
  function Init(secrets: map<string, Config>, next: nat): State {
    State(Service(map[], map[], [], ActiveLocale("ja", 0, false)), secrets, Free, [], [], Idle, 0, next, true, [])
  }

  function Run(s: State, steps: seq<Step>): State {
    if steps == [] then s else Do(Run(s, steps[..|steps| - 1]), steps[|steps| - 1])
  }

  // ---------------------------------------------------------------- what the worker leaves alone

  /** Neither what is saved, nor a call, nor the locale has changed, and no job has been queued. */
  predicate Aside(s: State, t: State) {
    && t.secrets == s.secrets && t.calls == s.calls && t.clean == s.clean && t.service.locale == s.service.locale
    && (t.service.queue == s.service.queue
        || (s.service.queue != [] && t.service.queue == s.service.queue[1..]))
  }

  /** What an authorised worker does not reach either. */
  predicate Apart(s: State, t: State) {
    Aside(s, t) && t.program == s.program && t.next == s.next && t.service.configs == s.service.configs
    && t.log == s.log
  }

  predicate Plain(move: WorkerMove) { !move.Authorise? && !move.Disqualify? }

  lemma WorkApart(s: State, move: WorkerMove)
    requires Plain(move)
    ensures Apart(s, WorkAt(s, move))
  {
  }

  lemma AuthoriseAside(s: State, known: bool, bound: bool, urlValid: bool)
    requires s.worker.Authorising?
    ensures var t, id := AuthoriseAt(s, known, bound, urlValid), s.worker.job.serverId;
      && Aside(s, t) && t.program == s.program && t.next == s.next
      && t.service == Cache(s.service, id, if known then Read(s, id) else None)
  {
    hide Refusal, Read, SavedFor;
  }

  lemma DisqualifyAside(s: State)
    requires s.worker.Authorising?
    ensures Aside(s, DisqualifyAt(s)) && DisqualifyAt(s).log == s.log
  {
    hide Read, Disabling;
  }

  lemma WorkAside(s: State, move: WorkerMove)
    ensures Aside(s, WorkAt(s, move))
  {
    hide Aside, PopAt, AcquireAt, DisqualifyAt, AuthoriseAt, AnswerAt, FinishAt;
    assert Aside(s, s) by { AsideSelf(s); }
    if Plain(move) {
      WorkApart(s, move);
    } else if s.worker.Authorising? {
      if move.Authorise? {
        AuthoriseAside(s, move.known, move.bound, move.urlValid);
      } else {
        DisqualifyAside(s);
      }
    }
  }

  lemma AsideSelf(s: State)
    ensures Aside(s, s)
  {
  }

  // ---------------------------------------------------------------- the lock and its programs

  predicate Commits(section: Section) {
    section.WriteSecret? || section.InsertConfig? || section.DeleteSecret? || section.RemoveConfig?
    || section.ActivateLocale?
  }

  ghost predicate PlainFrom(program: seq<Section>, k: nat) {
    forall i | k <= i < |program| :: !Commits(program[i])
  }

  /** Only the first two sections of a program change what is saved and cached, and they belong together. */
  ghost predicate Shaped(s: State) {
    s.program != [] ==>
      match s.program[0]
      case WriteSecret(id, config) =>
        |s.program| > 1 && s.program[1] == InsertConfig(id, config) && PlainFrom(s.program, 2)
      case DeleteSecret(id) => |s.program| > 1 && s.program[1] == RemoveConfig(id) && PlainFrom(s.program, 2)
      case InsertConfig(id, config) => id in s.secrets && s.secrets[id] == config && PlainFrom(s.program, 1)
      case RemoveConfig(id) => id !in s.secrets && PlainFrom(s.program, 1)
      case _ => PlainFrom(s.program, 1)
  }

  predicate WorkerHolds(worker: Worker) { worker.Authorising? || worker.Withdrawing? || worker.Posting? }

  ghost predicate LockHeld(s: State) {
    && (s.lock.Free? ==> s.program == [])
    && (s.lock.HeldByCommand? ==> s.program != [])
    && (s.lock.HeldByWorker? <==> WorkerHolds(s.worker))
    && (s.worker.Withdrawing? <==> s.lock.HeldByWorker? && s.program != [])
    && Shaped(s)
  }

  lemma SavingShaped(s: State, id: string, config: Config, report: bool)
    ensures Shaped(s.(program := Saving(id, config, report))) && Saving(id, config, report) != []
  {
    var p := Saving(id, config, report);
    assert forall k | 2 <= k < |p| :: !Commits(p[k]);
  }

  lemma LockIssue(s: State, command: Command)
    requires LockHeld(s) && s.lock.Free?
    ensures LockHeld(IssueAt(s, command))
  {
    var t := IssueAt(s, command);
    if t.program != [] && t.program[0].WriteSecret? {
      SavingShaped(s, t.program[0].id, t.program[0].config, |t.program| == 6);
    }
  }

  lemma TailPlain(program: seq<Section>, k: nat)
    requires program != [] && PlainFrom(program, k + 1)
    ensures PlainFrom(program[1..], k)
  {
    assert forall i | k <= i < |program| - 1 :: program[1..][i] == program[i + 1];
  }

  /** The program that is left after one section keeps the shape. */
  lemma ShapeAfter(s: State, section: Section)
    requires s.program != [] && s.program[0] == section && Shaped(s)
    ensures Shaped(Run1(s.(program := s.program[1..]), section))
  {
    var t := Run1(s.(program := s.program[1..]), section);
    if section.WriteSecret? || section.DeleteSecret? {
      TailPlain(s.program, 1);
    } else {
      TailPlain(s.program, 0);
      assert section.DrainQueue? ==> PlainFrom(t.program, 0);
    }
    assert t.program != [] && !Commits(t.program[0]) ==> PlainFrom(t.program, 1);
  }

  lemma LockExecute(s: State, succeeds: bool)
    requires LockHeld(s) && s.program != []
    ensures LockHeld(ExecuteAt(s, succeeds))
  {
    ShapeAfter(s, s.program[0]);
    var t := Run1(s.(program := s.program[1..]), s.program[0]);
    assert t.worker == s.worker && t.lock == s.lock;
  }

  lemma LockWork(s: State, move: WorkerMove)
    requires LockHeld(s)
    ensures LockHeld(WorkAt(s, move))
  {
    if move.Disqualify? && s.worker.Authorising? {
      var t := WorkAt(s, move);
      if t.program[0].WriteSecret? {
        SavingShaped(s, t.program[0].id, t.program[0].config, true);
      }
    }
  }

  lemma LockStep(s: State, step: Step)
    requires LockHeld(s)
    ensures LockHeld(Do(s, step))
  {
    match step
    case Open(_, _) =>
    case Advance(i, coalesced) =>
    case Issue(command) =>
      if s.lock.Free? {
        LockIssue(s, command);
      }
    case Execute(succeeds) =>
      if s.program != [] {
        LockExecute(s, succeeds);
      }
    case Work(move) => LockWork(s, move);
  }

  // ---------------------------------------------------------------- the cache and the saved configurations

  /** The section in progress is about to bring this server's cache entry up to date. */
  predicate Replacing(s: State, id: string) {
    s.program != [] && (s.program[0].InsertConfig? || s.program[0].RemoveConfig?) && s.program[0].id == id
  }

  predicate Saved(s: State, id: string, config: Config) { id in s.secrets && s.secrets[id] == config }

  predicate UpToDate(s: State, call: Call) {
    call.Loaded? && call.saved.Some? ==> Saved(s, call.id, call.saved.value)
  }

  /** Unless a save has overtaken a read, everything cached or read is what is saved. */
  ghost predicate Coherent(s: State) {
    s.clean ==>
      && (forall id | id in s.service.configs :: Saved(s, id, s.service.configs[id]) || Replacing(s, id))
      && (forall i | 0 <= i < |s.calls| :: UpToDate(s, s.calls[i]))
  }

  lemma CoherentAdvance(s: State, i: nat, coalesced: bool)
    requires Coherent(s) && i < |s.calls|
    ensures Coherent(AdvanceAt(s, i, coalesced))
  {
    var o := Next(s.calls[i], s.service, s.secrets, coalesced);
    var t := AdvanceAt(s, i, coalesced);
    if s.clean {
      assert UpToDate(s, s.calls[i]) && UpToDate(t, o.call);
      assert o.service.configs == s.service.configs
        || (s.calls[i].Loaded? && o.service.configs == s.service.configs[s.calls[i].id := s.calls[i].saved.value]);
      forall j | 0 <= j < |t.calls| ensures UpToDate(t, t.calls[j]) {
        assert j != i ==> UpToDate(s, s.calls[j]);
      }
    }
  }

  /** A lock holder that reads a configuration caches what is saved. */
  lemma CoherentRead(s: State, id: string)
    requires Coherent(s) && s.program == []
    ensures Coherent(s.(service := Cache(s.service, id, Read(s, id))))
    ensures s.clean && Read(s, id).Some? ==> Saved(s, id, Read(s, id).value)
  {
    var t := s.(service := Cache(s.service, id, Read(s, id)));
    if s.clean {
      assert forall i | 0 <= i < |s.calls| :: UpToDate(s, s.calls[i]) ==> UpToDate(t, t.calls[i]);
    }
  }

  lemma CoherentFrame(s: State, t: State)
    requires Coherent(s) && t.clean == s.clean && t.secrets == s.secrets && t.service.configs == s.service.configs
    requires t.calls == s.calls && (s.program == [] || t.program == s.program)
    ensures Coherent(t)
  {
    if s.clean {
      assert forall i | 0 <= i < |s.calls| :: UpToDate(s, s.calls[i]) ==> UpToDate(t, t.calls[i]);
    }
  }

  lemma CoherentIssue(s: State, command: Command)
    requires Coherent(s) && s.lock.Free? && LockHeld(s)
    ensures Coherent(IssueAt(s, command))
  {
    if ReadsConfig(command) {
      CoherentRead(s, command.id);
      CoherentFrame(s.(service := Cache(s.service, command.id, Read(s, command.id))), IssueAt(s, command));
    } else {
      CoherentFrame(s, IssueAt(s, command));
    }
  }

  lemma CoherentSection(s: State, section: Section)
    requires s.program != [] && s.program[0] == section && Shaped(s) && Coherent(s)
    ensures Coherent(Run1(s.(program := s.program[1..]), section))
  {
    var t := Run1(s.(program := s.program[1..]), section);
    if t.clean {
      forall i | 0 <= i < |t.calls| ensures UpToDate(t, t.calls[i]) {
        assert UpToDate(s, s.calls[i]);
        assert (section.WriteSecret? || section.DeleteSecret?) ==> !Carries(s.calls[i], section.id);
      }
    }
  }

  lemma CoherentExecute(s: State, succeeds: bool)
    requires Coherent(s) && LockHeld(s) && s.program != []
    ensures Coherent(ExecuteAt(s, succeeds))
  {
    hide Run1, Shaped;
    if !succeeds && (s.program[0].WriteSecret? || s.program[0].DeleteSecret?) {
      CoherentDropped(s);
    } else {
      CoherentSection(s, s.program[0]);
      CoherentReleased(Run1(s.(program := s.program[1..]), s.program[0]));
    }
  }

  lemma CoherentReleased(s: State)
    requires Coherent(s)
    ensures Coherent(Release(s))
  {
    CoherentSame(s, Release(s));
  }

  /** A command whose write or delete failed had not touched the cache yet. */
  lemma CoherentDropped(s: State)
    requires Coherent(s) && s.program != [] && (s.program[0].WriteSecret? || s.program[0].DeleteSecret?)
    ensures Coherent(Release(s.(program := [])))
  {
    hide Release;
    var t := s.(program := []);
    if s.clean {
      assert forall i | 0 <= i < |s.calls| :: UpToDate(s, s.calls[i]) ==> UpToDate(t, t.calls[i]);
    }
    CoherentReleased(t);
  }

  lemma CoherentSame(s: State, t: State)
    requires Coherent(s) && t.clean == s.clean && t.secrets == s.secrets && t.service == s.service
    requires t.calls == s.calls && t.program == s.program
    ensures Coherent(t)
  {
    if s.clean {
      assert forall i | 0 <= i < |s.calls| :: UpToDate(s, s.calls[i]) ==> UpToDate(t, t.calls[i]);
    }
  }

  lemma CoherentAuthorise(s: State, known: bool, bound: bool, urlValid: bool)
    requires Coherent(s) && LockHeld(s) && s.worker.Authorising?
    ensures Coherent(AuthoriseAt(s, known, bound, urlValid))
  {
    var id := s.worker.job.serverId;
    var v := Cache(s.service, id, if known then Read(s, id) else None);
    CoherentRead(s, id);
    CoherentFrame(if known then s.(service := Cache(s.service, id, Read(s, id))) else s,
                  AuthoriseAt(s, known, bound, urlValid));
  }

  lemma CoherentDisqualify(s: State)
    requires Coherent(s) && LockHeld(s) && s.worker.Authorising?
    ensures Coherent(WorkAt(s, Disqualify))
  {
    CoherentRead(s, s.worker.job.serverId);
    CoherentFrame(s.(service := Cache(s.service, s.worker.job.serverId, Read(s, s.worker.job.serverId))),
                  WorkAt(s, Disqualify));
  }

  lemma CoherentWork(s: State, move: WorkerMove)
    requires Coherent(s) && LockHeld(s)
    ensures Coherent(WorkAt(s, move))
  {
    hide Coherent, Shaped, PopAt, AcquireAt, DisqualifyAt, AuthoriseAt, AnswerAt, FinishAt;
    if Plain(move) {
      WorkApart(s, move);
      CoherentFrame(s, WorkAt(s, move));
    } else if s.worker.Authorising? {
      if move.Authorise? {
        CoherentAuthorise(s, move.known, move.bound, move.urlValid);
      } else {
        CoherentDisqualify(s);
      }
    }
  }

  // ---------------------------------------------------------------- what a POST is made under

  /** The locale in which a job was drafted. */
  predicate InLocale(job: Job, locale: ActiveLocale) {
    && job.localeGeneration <= locale.generation
    && (job.localeGeneration == locale.generation ==> job.locale == locale.locale)
  }

  predicate CallLocalised(call: Call, locale: ActiveLocale) {
    call.Drafted? || call.Overflowed? ==> InLocale(call.job, locale)
  }

  /** Every job in the system carries the text of its locale generation, and the queue is bounded. */
  ghost predicate JobsLocalised(s: State) {
    && |s.service.queue| <= QUEUE_LIMIT
    && (forall job | job in s.service.queue :: InLocale(job, s.service.locale))
    && (forall i | 0 <= i < |s.calls| :: CallLocalised(s.calls[i], s.service.locale))
    && (!s.worker.Idle? ==> InLocale(s.worker.job, s.service.locale))
  }

  /** The worker that holds the lock has found its job's locale to be the active one. */
  predicate LocaleChecked(s: State) {
    s.worker.Authorising? ==>
      s.service.locale.ready && s.worker.job.localeGeneration == s.service.locale.generation
  }

  /** What holds of every POST, whatever was cached. */
  predicate Checked(e: Event)
    requires e.Posted?
  {
    && Wants(e.config, e.job) && e.config.mentions.Valid(true)
    && e.locale.ready && e.locale.generation == e.job.localeGeneration && e.locale.locale == e.job.locale
    && e.attempt < MAX_ATTEMPTS
  }

  /** The POST is made under the configuration that is saved at that moment. */
  predicate Fenced(e: Event)
    requires e.Posted?
  {
    Checked(e) && e.saved == Some(e.config)
  }

  ghost predicate PostsChecked(s: State) {
    forall k | 0 <= k < |s.log| && s.log[k].Posted? :: Checked(s.log[k]) && (s.clean ==> Fenced(s.log[k]))
  }

  predicate AttemptsBounded(s: State) {
    s.worker.Trying? || s.worker.Authorising? || s.worker.Posting? ==> s.worker.attempt < MAX_ATTEMPTS
  }

  lemma PostChecked(s: State, known: bool, bound: bool, urlValid: bool)
    requires s.worker.Authorising? && LockHeld(s) && Coherent(s) && JobsLocalised(s) && LocaleChecked(s)
    requires PostsChecked(s) && AttemptsBounded(s)
    ensures PostsChecked(AuthoriseAt(s, known, bound, urlValid))
  {
    var t := AuthoriseAt(s, known, bound, urlValid);
    if t.log != s.log {
      CoherentRead(s, s.worker.job.serverId);
      assert Checked(t.log[|s.log|]) && (s.clean ==> Fenced(t.log[|s.log|]));
    }
  }

  /** A longer log with no new POST in it. */
  predicate LogGrew(s: State, t: State) {
    && (t.clean ==> s.clean)
    && |s.log| <= |t.log| && t.log[..|s.log|] == s.log
    && forall k | |s.log| <= k < |t.log| :: !t.log[k].Posted?
  }

  lemma SectionLogs(s: State, section: Section)
    ensures LogGrew(s, Run1(s, section))
  {
    hide RecordResult, CancelQueued, Without, ReadInFlight;
  }

  lemma WorkLogs(s: State, move: WorkerMove)
    requires !(move.Authorise? && s.worker.Authorising?)
    ensures WorkAt(s, move).log == s.log && WorkAt(s, move).clean == s.clean
  {
    hide AuthoriseAt, DisqualifyAt, PopAt, AcquireAt, FinishAt, AnswerAt;
    if move.Disqualify? && s.worker.Authorising? {
      DisqualifyAside(s);
    } else if Plain(move) {
      WorkApart(s, move);
    }
  }

  /** Only an authorised worker adds a POST to the log. */
  lemma LogGrows(s: State, step: Step)
    requires !(step.Work? && step.move.Authorise? && s.worker.Authorising?)
    ensures LogGrew(s, Do(s, step))
  {
    hide Next, Program, Run1, WorkAt, Cache, Read;
    match step
    case Open(_, _) =>
    case Advance(_, _) =>
    case Issue(_) =>
    case Execute(_) =>
      if s.program != [] {
        SectionLogs(s.(program := s.program[1..]), s.program[0]);
      }
    case Work(move) => WorkLogs(s, move);
  }

  lemma PostsKept(s: State, t: State)
    requires PostsChecked(s) && LogGrew(s, t)
    ensures PostsChecked(t)
  {
    hide Checked, Fenced;
    forall k | 0 <= k < |t.log| && t.log[k].Posted? ensures k < |s.log| && t.log[k] == s.log[k] {
      assert k < |s.log| ==> t.log[..|s.log|][k] == s.log[k];
    }
  }

  lemma PostsStep(s: State, step: Step)
    requires LockHeld(s) && Coherent(s) && JobsLocalised(s) && LocaleChecked(s) && PostsChecked(s) && AttemptsBounded(s)
    ensures PostsChecked(Do(s, step))
  {
    hide LockHeld, Coherent, JobsLocalised, LocaleChecked, AttemptsBounded, PostsChecked, LogGrew, AuthoriseAt;
    if step.Work? && step.move.Authorise? && s.worker.Authorising? {
      PostChecked(s, step.move.known, step.move.bound, step.move.urlValid);
    } else {
      LogGrows(s, step);
      PostsKept(s, Do(s, step));
    }
  }

  lemma BoundedWork(s: State, move: WorkerMove)
    requires AttemptsBounded(s)
    ensures AttemptsBounded(WorkAt(s, move))
  {
    hide Cache, Read, Disabling, RecordJobResult, SavedFor, Refusal;
  }

  lemma BoundedStep(s: State, step: Step)
    requires AttemptsBounded(s)
    ensures AttemptsBounded(Do(s, step))
  {
    hide Next, Program, Run1, WorkAt, Cache, Read;
    match step
    case Open(_, _) =>
    case Advance(_, _) =>
    case Issue(_) =>
    case Execute(_) =>
      if s.program != [] {
        SectionKeepsWorker(s.(program := s.program[1..]), s.program[0]);
      }
    case Work(move) => BoundedWork(s, move);
  }

  lemma NextKeepsLocale(call: Call, v: Service, secrets: map<string, Config>, coalesced: bool)
    ensures Next(call, v, secrets, coalesced).service.locale == v.locale
  {
    hide Subscribed;
  }

  lemma CacheKeepsLocale(v: Service, id: string, s: State)
    ensures Cache(v, id, Read(s, id)).locale == v.locale
  {
    hide Read;
  }

  lemma SectionKeepsWorker(s: State, section: Section)
    ensures var t := Run1(s, section);
      t.worker == s.worker && t.ticket == s.ticket && t.calls == s.calls && t.lock == s.lock
  {
    hide RecordResult, CancelQueued, Without;
  }

  lemma LocalisedAdvance(s: State, i: nat, coalesced: bool)
    requires JobsLocalised(s) && i < |s.calls|
    ensures JobsLocalised(AdvanceAt(s, i, coalesced))
  {
    var o := Next(s.calls[i], s.service, s.secrets, coalesced);
    var t := AdvanceAt(s, i, coalesced);
    assert CallLocalised(s.calls[i], s.service.locale) && CallLocalised(o.call, s.service.locale);
    assert o.service.locale == s.service.locale;
    assert o.service.queue == s.service.queue
      || (s.calls[i].Drafted? && o.service.queue == s.service.queue + [s.calls[i].job]);
    forall j | 0 <= j < |t.calls| ensures CallLocalised(t.calls[j], t.service.locale) {
      assert j != i ==> CallLocalised(s.calls[j], s.service.locale);
    }
  }

  lemma LocalisedSection(s: State, section: Section)
    requires JobsLocalised(s) && (section.ActivateLocale? ==> s.service.locale.generation < section.generation)
    ensures JobsLocalised(Run1(s, section))
  {
    var t := Run1(s, section);
    assert t.service.locale == s.service.locale || t.service.locale.generation > s.service.locale.generation;
    assert forall job | job in t.service.queue :: job in s.service.queue;
    forall i | 0 <= i < |t.calls| ensures CallLocalised(t.calls[i], t.service.locale) {
      assert CallLocalised(s.calls[i], s.service.locale);
    }
  }

  lemma LocalisedExecute(s: State, succeeds: bool)
    requires JobsLocalised(s) && HeadNewer(s) && s.program != []
    ensures JobsLocalised(ExecuteAt(s, succeeds))
  {
    hide Run1, InLocale, CallLocalised;
    LocalisedSection(s.(program := s.program[1..]), s.program[0]);
  }

  lemma LocalisedWork(s: State, move: WorkerMove)
    requires JobsLocalised(s)
    ensures JobsLocalised(WorkAt(s, move))
  {
    hide InLocale, CallLocalised, Cache, Read, Refusal, SavedFor, Disabling, RecordJobResult;
    WorkAside(s, move);
  }

  lemma LocalisedIssue(s: State, command: Command)
    requires JobsLocalised(s) && s.lock.Free?
    ensures JobsLocalised(IssueAt(s, command))
  {
    hide InLocale, CallLocalised, Read, Program;
  }

  lemma LocalisedStep(s: State, step: Step)
    requires JobsLocalised(s) && HeadNewer(s)
    ensures JobsLocalised(Do(s, step))
  {
    hide AdvanceAt, IssueAt, ExecuteAt, WorkAt, HeadNewer, InLocale;
    match step
    case Open(_, _) =>
    case Advance(i, coalesced) =>
      if i < |s.calls| {
        LocalisedAdvance(s, i, coalesced);
      }
    case Issue(command) =>
      if s.lock.Free? {
        LocalisedIssue(s, command);
      }
    case Execute(succeeds) =>
      if s.program != [] {
        LocalisedExecute(s, succeeds);
      }
    case Work(move) => LocalisedWork(s, move);
  }

  lemma LocaleCheckedWork(s: State, move: WorkerMove)
    requires LocaleChecked(s)
    ensures LocaleChecked(WorkAt(s, move))
  {
    hide Aside, Cache, Read, Refusal, SavedFor, Disabling, RecordJobResult;
  }

  /** A program and an authorised worker exclude each other, so no section moves the locale under the worker. */
  lemma LocaleCheckedStep(s: State, step: Step)
    requires LocaleChecked(s) && LockHeld(s)
    ensures LocaleChecked(Do(s, step))
  {
    hide WorkAt, Run1, Next, Program, Shaped, Cache, Read;
    match step
    case Open(_, _) =>
    case Advance(i, coalesced) =>
      if i < |s.calls| {
        NextKeepsLocale(s.calls[i], s.service, s.secrets, coalesced);
      }
    case Issue(command) =>
      CacheKeepsLocale(s.service, if ReadsConfig(command) then command.id else "", s);
    case Execute(succeeds) =>
      if s.program != [] {
        SectionKeepsWorker(s.(program := s.program[1..]), s.program[0]);
      }
    case Work(move) => LocaleCheckedWork(s, move);
  }

  // ---------------------------------------------------------------- generations only move forward

  /** The head of a program carries a generation that is newer than everything it replaces. */
  predicate HeadNewer(s: State) {
    s.program != [] ==>
      match s.program[0]
      case ActivateLocale(_, generation) => s.service.locale.generation < generation < s.next
      case WriteSecret(id, config) =>
        config.generation < s.next && (id in s.secrets ==> s.secrets[id].generation < config.generation)
      case _ => true
  }

  /** A completed command is never undercut by a later generation of what it changed. */
  predicate Upheld(s: State, e: Event) {
    match e
    case Completed(id, fence) =>
      && fence <= s.next
      && (id in s.secrets ==> fence <= s.secrets[id].generation)
      && (s.program != [] && s.program[0].WriteSecret? && s.program[0].id == id ==>
            fence <= s.program[0].config.generation)
    case LocaleCompleted(fence) => fence <= s.service.locale.generation
    case _ => true
  }

  ghost predicate Ordered(s: State) {
    && s.service.locale.generation < s.next
    && (forall id | id in s.secrets :: s.secrets[id].generation < s.next)
    && HeadNewer(s)
    && (forall k | 0 <= k < |s.log| :: Upheld(s, s.log[k]))
  }

  /** May a POST follow this event? */
  predicate MayFollow(e: Event, post: Event)
    requires post.Posted?
  {
    match e
    case Completed(id, fence) => post.job.serverId == id && Fenced(post) ==> fence <= post.job.generation
    case LocaleCompleted(fence) => fence <= post.job.localeGeneration
    case Posted(ticket, attempt, _, _, _, _) =>
      ticket < post.ticket || (ticket == post.ticket && attempt < post.attempt)
  }

  ghost predicate PostsFollow(log: seq<Event>) {
    forall k, j | 0 <= k < j < |log| && log[j].Posted? :: MayFollow(log[k], log[j])
  }

  /** Steps that leave what is saved alone, except to remove it, or to move the locale on. */
  lemma OrderedFrame(s: State, t: State)
    requires Ordered(s) && s.next <= t.next && s.service.locale.generation <= t.service.locale.generation < t.next
    requires forall id | id in t.secrets :: id in s.secrets && t.secrets[id] == s.secrets[id]
    requires HeadNewer(t)
    requires t.program != [] && t.program[0].WriteSecret? ==> s.next <= t.program[0].config.generation
    requires |s.log| <= |t.log| && t.log[..|s.log|] == s.log
    requires forall k | |s.log| <= k < |t.log| :: Upheld(t, t.log[k])
    ensures Ordered(t)
  {
    forall k | 0 <= k < |t.log| ensures Upheld(t, t.log[k]) {
      if k < |s.log| {
        assert t.log[k] == t.log[..|s.log|][k] && Upheld(s, s.log[k]);
      }
    }
  }

  lemma OrderedIssue(s: State, command: Command)
    requires Ordered(s) && s.lock.Free?
    ensures Ordered(IssueAt(s, command))
  {
    OrderedFrame(s, IssueAt(s, command));
  }

  /** After its first section a program gives out no generation any more. */
  lemma HeadAfter(s: State, section: Section)
    requires s.program != [] && s.program[0] == section && Shaped(s)
    ensures var t := Run1(s.(program := s.program[1..]), section);
      t.program != [] ==> !t.program[0].WriteSecret? && !t.program[0].ActivateLocale?
  {
    ShapeAfter(s, section);
    assert |s.program| > 1 ==> s.program[1..][0] == s.program[1];
  }

  lemma OrderedWrite(s: State, id: string, config: Config)
    requires Ordered(s) && Shaped(s) && s.program != [] && s.program[0] == WriteSecret(id, config)
    ensures Ordered(Run1(s.(program := s.program[1..]), s.program[0]))
  {
    HeadAfter(s, s.program[0]);
    var t := Run1(s.(program := s.program[1..]), s.program[0]);
    forall k | 0 <= k < |t.log| ensures Upheld(t, t.log[k]) {
      assert Upheld(s, s.log[k]);
    }
  }

  lemma OrderedSection(s: State, section: Section)
    requires Ordered(s) && Shaped(s) && s.program != [] && s.program[0] == section && !section.WriteSecret?
    ensures Ordered(Run1(s.(program := s.program[1..]), section))
  {
    HeadAfter(s, section);
    OrderedFrame(s, Run1(s.(program := s.program[1..]), section));
  }

  lemma OrderedRelease(s: State)
    requires Ordered(s)
    ensures Ordered(Release(s))
  {
    forall k | 0 <= k < |s.log| ensures Upheld(Release(s), s.log[k]) {
      assert Upheld(s, s.log[k]);
    }
  }

  lemma OrderedExecute(s: State, succeeds: bool)
    requires Ordered(s) && s.program != [] && Shaped(s)
    ensures Ordered(ExecuteAt(s, succeeds))
  {
    var section := s.program[0];
    if !succeeds && (section.WriteSecret? || section.DeleteSecret?) {
      OrderedFrame(s, s.(program := []));
      OrderedRelease(s.(program := []));
    } else {
      if section.WriteSecret? {
        OrderedWrite(s, section.id, section.config);
      } else {
        OrderedSection(s, section);
      }
      OrderedRelease(Run1(s.(program := s.program[1..]), section));
    }
  }

  /** A step that leaves the store, the locale and the program alone, and adds only POSTs to the log. */
  lemma OrderedAside(s: State, t: State)
    requires Ordered(s) && t.secrets == s.secrets && t.service.locale == s.service.locale
    requires t.program == s.program && t.next == s.next
    requires |s.log| <= |t.log| && t.log[..|s.log|] == s.log
    requires forall k | |s.log| <= k < |t.log| :: t.log[k].Posted?
    ensures Ordered(t)
  {
    forall k | 0 <= k < |t.log| ensures Upheld(t, t.log[k]) {
      if k < |s.log| {
        assert t.log[k] == t.log[..|s.log|][k] && Upheld(s, s.log[k]);
      }
    }
  }

  lemma OrderedDisqualify(s: State)
    requires Ordered(s) && s.worker.Authorising?
    ensures Ordered(DisqualifyAt(s))
  {
    OrderedFrame(s, DisqualifyAt(s));
  }

  lemma AuthoriseLogs(s: State, known: bool, bound: bool, urlValid: bool)
    requires s.worker.Authorising?
    ensures var t := AuthoriseAt(s, known, bound, urlValid);
      |s.log| <= |t.log| <= |s.log| + 1 && t.log[..|s.log|] == s.log && (t.log != s.log ==> t.log[|s.log|].Posted?)
  {
    hide Read, Refusal, SavedFor, Cache;
  }

  lemma OrderedWork(s: State, move: WorkerMove)
    requires Ordered(s)
    ensures Ordered(WorkAt(s, move))
  {
    hide Ordered, PopAt, AcquireAt, DisqualifyAt, AuthoriseAt, AnswerAt, FinishAt;
    if Plain(move) {
      WorkApart(s, move);
      OrderedAside(s, WorkAt(s, move));
    } else if s.worker.Authorising? {
      if move.Authorise? {
        AuthoriseAside(s, move.known, move.bound, move.urlValid);
        AuthoriseLogs(s, move.known, move.bound, move.urlValid);
        OrderedAside(s, WorkAt(s, move));
      } else {
        OrderedDisqualify(s);
      }
    }
  }

  lemma OrderedStep(s: State, step: Step)
    requires Ordered(s) && LockHeld(s)
    ensures Ordered(Do(s, step))
  {
    hide Ordered, IssueAt, ExecuteAt, WorkAt, Next, Shaped;
    match step
    case Open(_, _) => OrderedAside(s, Do(s, step));
    case Advance(i, coalesced) =>
      if i < |s.calls| {
        NextKeepsLocale(s.calls[i], s.service, s.secrets, coalesced);
        OrderedAside(s, AdvanceAt(s, i, coalesced));
      }
    case Issue(command) =>
      if s.lock.Free? {
        OrderedIssue(s, command);
      }
    case Execute(succeeds) =>
      if s.program != [] {
        OrderedExecute(s, succeeds);
      }
    case Work(move) => OrderedWork(s, move);
  }

  // ---------------------------------------------------------------- the order of POSTs

  /** How far the worker has come with the job of its current ticket. */
  ghost predicate PostsBehind(s: State) {
    forall k | 0 <= k < |s.log| && s.log[k].Posted? ::
      s.log[k].ticket < s.ticket
      || (s.log[k].ticket == s.ticket
          && (s.worker.Trying? || s.worker.Authorising? ==> s.log[k].attempt < s.worker.attempt)
          && (s.worker.Posting? ==> s.log[k].attempt <= s.worker.attempt))
  }

  lemma FollowsPost(s: State, known: bool, bound: bool, urlValid: bool)
    requires s.worker.Authorising? && Ordered(s) && PostsBehind(s) && PostsFollow(s.log) && LocaleChecked(s)
    ensures PostsFollow(AuthoriseAt(s, known, bound, urlValid).log)
    ensures PostsBehind(AuthoriseAt(s, known, bound, urlValid))
  {
    var t := AuthoriseAt(s, known, bound, urlValid);
    if t.log != s.log {
      var post := t.log[|s.log|];
      forall k | 0 <= k < |s.log| ensures MayFollow(s.log[k], post) {
        assert Upheld(s, s.log[k]);
      }
      assert t.log == s.log + [post];
    }
  }

  /** The worker takes the next job, or stays at its attempt, or goes to the next one after an answer. */
  predicate WorkerMoved(s: State, t: State) {
    || t.ticket == s.ticket + 1
    || (t.ticket == s.ticket
        && (t.worker.Posting? ==> s.worker == t.worker)
        && (t.worker.Trying? || t.worker.Authorising? ==>
              || ((s.worker.Trying? || s.worker.Authorising?) && t.worker.attempt == s.worker.attempt)
              || (s.worker.Posting? && t.worker.attempt == s.worker.attempt + 1)))
  }

  lemma WorkMoves(s: State, move: WorkerMove)
    requires !(move.Authorise? && s.worker.Authorising?)
    ensures WorkerMoved(s, WorkAt(s, move))
  {
    hide AuthoriseAt, Cache, Read, Disabling, RecordJobResult;
  }

  lemma WorkerMoves(s: State, step: Step)
    requires !(step.Work? && step.move.Authorise? && s.worker.Authorising?)
    ensures WorkerMoved(s, Do(s, step))
  {
    hide Next, Program, Run1, WorkAt, Cache, Read;
    match step
    case Open(_, _) =>
    case Advance(_, _) =>
    case Issue(_) =>
    case Execute(_) =>
      if s.program != [] {
        SectionKeepsWorker(s.(program := s.program[1..]), s.program[0]);
      }
    case Work(move) => WorkMoves(s, move);
  }

  lemma BehindStep(s: State, t: State)
    requires PostsBehind(s) && LogGrew(s, t) && WorkerMoved(s, t)
    ensures PostsBehind(t)
  {
    forall k | 0 <= k < |t.log| && t.log[k].Posted? ensures k < |s.log| && t.log[k] == s.log[k] {
      assert k < |s.log| ==> t.log[..|s.log|][k] == s.log[k];
    }
  }

  lemma FollowStep(s: State, step: Step)
    requires Ordered(s) && PostsBehind(s) && PostsFollow(s.log) && LocaleChecked(s)
    ensures PostsFollow(Do(s, step).log) && PostsBehind(Do(s, step))
  {
    if step.Work? && step.move.Authorise? && s.worker.Authorising? {
      FollowsPost(s, step.move.known, step.move.bound, step.move.urlValid);
    } else {
      LogGrows(s, step);
      WorkerMoves(s, step);
      BehindStep(s, Do(s, step));
      var t := Do(s, step);
      forall k, j | 0 <= k < j < |t.log| && t.log[j].Posted? ensures MayFollow(t.log[k], t.log[j]) {
        assert t.log[..|s.log|][k] == s.log[k] && t.log[..|s.log|][j] == s.log[j];
      }
    }
  }

  // ---------------------------------------------------------------- every run

  ghost predicate Inv(s: State) {
    && LockHeld(s) && Coherent(s) && JobsLocalised(s) && LocaleChecked(s) && PostsChecked(s) && AttemptsBounded(s)
    && Ordered(s) && PostsBehind(s) && PostsFollow(s.log)
  }

  lemma CoherentStep(s: State, step: Step)
    requires Coherent(s) && LockHeld(s)
    ensures Coherent(Do(s, step))
  {
    hide AdvanceAt, IssueAt, ExecuteAt, WorkAt, Shaped;
    match step
    case Open(_, _) =>
      if s.clean {
        var t := Do(s, step);
        assert forall i | 0 <= i < |s.calls| :: UpToDate(s, s.calls[i]) ==> UpToDate(t, t.calls[i]);
      }
    case Advance(i, coalesced) =>
      if i < |s.calls| {
        CoherentAdvance(s, i, coalesced);
      }
    case Issue(command) =>
      if s.lock.Free? {
        CoherentIssue(s, command);
      }
    case Execute(succeeds) =>
      if s.program != [] {
        CoherentExecute(s, succeeds);
      }
    case Work(move) => CoherentWork(s, move);
  }

  lemma InvStep(s: State, step: Step)
    requires Inv(s)
    ensures Inv(Do(s, step))
  {
    hide Do, LockHeld, Coherent, JobsLocalised, LocaleChecked, PostsChecked, AttemptsBounded, HeadNewer, PostsBehind,
         PostsFollow;
    LockStep(s, step);
    CoherentStep(s, step);
    LocalisedStep(s, step);
    LocaleCheckedStep(s, step);
    PostsStep(s, step);
    BoundedStep(s, step);
    OrderedStep(s, step);
    FollowStep(s, step);
  }

  /** What an application finds in the credential store when it starts. */
  predicate Initial(s: State) {
    && s == Init(s.secrets, s.next)
    && 0 < s.next && forall id <- s.secrets :: s.secrets[id].generation < s.next
  }

  lemma {:induction false} InvRun(s: State, steps: seq<Step>)
    requires Initial(s)
    ensures Inv(Run(s, steps))
  {
    if steps != [] {
      InvRun(s, steps[..|steps| - 1]);
      InvStep(Run(s, steps[..|steps| - 1]), steps[|steps| - 1]);
    }
  }

  /**
   Every POST is for an event that an enabled configuration of the job's
   generation asks for and that may be mentioned as it says, in the active
   locale, as one of three attempts.
   */
  lemma EveryPostIsChecked(s: State, steps: seq<Step>, k: nat)
    requires Initial(s) && k < |Run(s, steps).log| && Run(s, steps).log[k].Posted?
    ensures var e := Run(s, steps).log[k];
      && AsksFor(e.config, e.job.event) && e.config.generation == e.job.generation && e.config.mentions.Valid(true)
      && e.locale.ready && e.locale.generation == e.job.localeGeneration && e.locale.locale == e.job.locale
      && e.attempt < 3
  {
    InvRun(s, steps);
  }

  /** As long as no save or delete overtakes a read, every POST is made under the saved configuration. */
  lemma EveryPostIsFenced(s: State, steps: seq<Step>, k: nat)
    requires Initial(s) && Run(s, steps).clean
    requires k < |Run(s, steps).log| && Run(s, steps).log[k].Posted?
    ensures Fenced(Run(s, steps).log[k])
  {
    InvRun(s, steps);
  }

  /**
   Once a save, disable or delete has completed, no POST for an older
   configuration starts, provided none overtook a read; once a locale change has
   completed, no POST for an older locale starts, in any case.
   */
  lemma NothingOlderIsPosted(s: State, steps: seq<Step>, k: nat, j: nat)
    requires Initial(s) && k < j < |Run(s, steps).log| && Run(s, steps).log[j].Posted?
    ensures var t := Run(s, steps);
      && (t.clean && t.log[k].Completed? && t.log[k].id == t.log[j].job.serverId ==>
            t.log[k].fence <= t.log[j].job.generation)
      && (t.log[k].LocaleCompleted? ==> t.log[k].fence <= t.log[j].job.localeGeneration)
  {
    InvRun(s, steps);
    var t := Run(s, steps);
    assert MayFollow(t.log[k], t.log[j]);
  }

  /** The POSTs of one queue entry are its first, second and third attempt at most, in this order. */
  lemma PostsAreNumbered(s: State, steps: seq<Step>, k: nat, j: nat)
    requires Initial(s) && k < j < |Run(s, steps).log|
    requires Run(s, steps).log[k].Posted? && Run(s, steps).log[j].Posted?
    ensures var (a, b) := (Run(s, steps).log[k], Run(s, steps).log[j]);
      a.ticket <= b.ticket && (a.ticket == b.ticket ==> a.attempt < b.attempt < MAX_ATTEMPTS)
  {
    InvRun(s, steps);
    assert MayFollow(Run(s, steps).log[k], Run(s, steps).log[j]);
  }

  lemma QueueIsBounded(s: State, steps: seq<Step>)
    requires Initial(s)
    ensures |Run(s, steps).service.queue| <= 32
  {
    InvRun(s, steps);
  }

  // ---------------------------------------------------------------- exactly when a stale configuration posts

  /** No save, disable, delete or change of the locale is under way; anything else may be. */
  ghost predicate Between(s: State) { s.program == [] && LockHeld(s) && LocaleChecked(s) }

  /** Nobody holds the lock, the worker is idle and no job waits. */
  predicate Rested(s: State) { s.lock.Free? && s.program == [] && s.worker.Idle? && s.service.queue == [] }

  /** Steps that neither save, disable nor delete anything. */
  predicate Harmless(step: Step) { !step.Issue? && !(step.Work? && step.move.Disqualify?) }

  predicate Deliverable(config: Config) { config.enabled && config.mentions.Valid(true) }

  /** A call has read this configuration and not cached it yet. */
  predicate ReadBy(call: Call, id: string, config: Config) {
    call.Loaded? && call.id == id && call.saved == Some(config)
  }

  ghost predicate Pending(s: State, id: string, config: Config) {
    exists i | 0 <= i < |s.calls| :: ReadBy(s.calls[i], id, config)
  }

  predicate CachedAs(s: State, id: string, config: Config) {
    id in s.service.configs && s.service.configs[id] == config
  }

  /** A call holds a configuration that could deliver and is not the saved one. */
  predicate ExposedCall(s: State) {
    exists i | 0 <= i < |s.calls| ::
      s.calls[i].Loaded? && s.calls[i].saved.Some? && Deliverable(s.calls[i].saved.value)
      && SavedFor(s, s.calls[i].id) != s.calls[i].saved
  }

  /** The cache has such a configuration. */
  predicate ExposedCache(s: State) {
    exists id | id in s.service.configs ::
      Deliverable(s.service.configs[id]) && SavedFor(s, id) != Some(s.service.configs[id])
  }

  predicate Exposed(s: State) { ExposedCall(s) || ExposedCache(s) }

  predicate Stray(e: Event) { e.Posted? && e.saved != Some(e.config) }

  ghost predicate Strays(s: State, t: State) { exists k | |s.log| <= k < |t.log| :: Stray(t.log[k]) }

  /** What can be met between saves: what is saved, cached or held by a call when the run begins. */
  ghost predicate Known(s: State, id: string, config: Config) {
    Saved(s, id, config) || CachedAs(s, id, config) || Pending(s, id, config)
  }

  ghost predicate Drawn(s: State, t: State) {
    && t.secrets == s.secrets && t.program == [] && t.service.locale == s.service.locale
    && LockHeld(t) && LocaleChecked(t)
    && (forall id | id in t.service.configs :: Known(s, id, t.service.configs[id]))
    && (forall i | 0 <= i < |t.calls| && t.calls[i].Loaded? && t.calls[i].saved.Some? ::
          Known(s, t.calls[i].id, t.calls[i].saved.value))
    && |s.log| <= |t.log|
    && (forall k | |s.log| <= k < |t.log| && Stray(t.log[k]) :: s.service.locale.ready && Exposed(s))
  }

  lemma DrawnAdvance(s: State, t: State, i: nat, coalesced: bool)
    requires Drawn(s, t) && i < |t.calls|
    ensures Drawn(s, AdvanceAt(t, i, coalesced))
  {
    hide Exposed, Pending, CachedAs, Stray;
    var o := Next(t.calls[i], t.service, t.secrets, coalesced);
    NextKeepsLocale(t.calls[i], t.service, t.secrets, coalesced);
    NextReads(s, t.calls[i], t.service, t.secrets, coalesced);
  }

  /** What a call's next section reads or caches was known. */
  lemma NextReads(s: State, call: Call, v: Service, secrets: map<string, Config>, coalesced: bool)
    requires secrets == s.secrets && forall id | id in v.configs :: Known(s, id, v.configs[id])
    requires call.Loaded? && call.saved.Some? ==> Known(s, call.id, call.saved.value)
    ensures var o := Next(call, v, secrets, coalesced);
      && (forall id | id in o.service.configs :: Known(s, id, o.service.configs[id]))
      && (o.call.Loaded? && o.call.saved.Some? ==> Known(s, o.call.id, o.call.saved.value))
  {
    hide Pending, CachedAs, Subscribed;
  }

  /** A POST that is not under the saved configuration gives its source away. */
  lemma StrayShowsExposed(s: State, t: State, id: string)
    requires Drawn(s, t) && Read(t, id).Some? && Deliverable(Read(t, id).value) && SavedFor(t, id) != Read(t, id)
    ensures Exposed(s)
  {
    hide LockHeld, LocaleChecked, Stray;
    var config := Read(t, id).value;
    assert Known(s, id, config);
    if Pending(s, id, config) {
      var i :| 0 <= i < |s.calls| && ReadBy(s.calls[i], id, config);
      assert ExposedCall(s);
    } else {
      assert ExposedCache(s);
    }
  }

  /** Which POST an authorised worker makes, and when it is not under the saved configuration. */
  lemma AuthorisedPost(t: State, known: bool, bound: bool, urlValid: bool)
    requires t.worker.Authorising? && LocaleChecked(t)
    ensures var u, id := AuthoriseAt(t, known, bound, urlValid), t.worker.job.serverId;
      u.log == t.log
      || (|u.log| == |t.log| + 1 && u.log[..|t.log|] == t.log
          && (Stray(u.log[|t.log|]) ==>
                t.service.locale.ready && Read(t, id).Some? && Deliverable(Read(t, id).value)
                && SavedFor(t, id) != Read(t, id)))
  {
    hide Read, SavedFor, Cache;
  }

  lemma DrawnAuthorise(s: State, t: State, known: bool, bound: bool, urlValid: bool)
    requires Drawn(s, t) && t.worker.Authorising?
    requires LockHeld(AuthoriseAt(t, known, bound, urlValid)) && LocaleChecked(AuthoriseAt(t, known, bound, urlValid))
    ensures Drawn(s, AuthoriseAt(t, known, bound, urlValid))
  {
    hide Exposed, Pending, Stray, LockHeld, LocaleChecked, AuthoriseAt, Deliverable;
    var u := AuthoriseAt(t, known, bound, urlValid);
    var id := t.worker.job.serverId;
    AuthoriseAside(t, known, bound, urlValid);
    AuthorisedPost(t, known, bound, urlValid);
    forall k | |s.log| <= k < |u.log| && Stray(u.log[k]) ensures s.service.locale.ready && Exposed(s) {
      if k < |t.log| {
        assert u.log[k] == u.log[..|t.log|][k] == t.log[k];
      } else {
        StrayShowsExposed(s, t, id);
      }
    }
  }

  /** Steps that leave alone what a run between saves depends on. */
  lemma DrawnFrame(s: State, t: State, u: State)
    requires Drawn(s, t) && LockHeld(u) && LocaleChecked(u)
    requires u.secrets == t.secrets && u.program == [] && u.service.locale == t.service.locale
    requires u.service.configs == t.service.configs && u.calls == t.calls && u.log == t.log
    ensures Drawn(s, u)
  {
    hide LockHeld, LocaleChecked, Known, Exposed, Stray;
  }

  lemma DrawnOpen(s: State, t: State, call: Call)
    requires Drawn(s, t) && call.Asked?
    requires LockHeld(t.(calls := t.calls + [call])) && LocaleChecked(t.(calls := t.calls + [call]))
    ensures Drawn(s, t.(calls := t.calls + [call]))
  {
    hide Known, Exposed, Stray, LockHeld, LocaleChecked;
  }

  lemma DrawnStep(s: State, t: State, step: Step)
    requires Drawn(s, t) && Harmless(step)
    ensures Drawn(s, Do(t, step))
  {
    LockStep(t, step);
    LocaleCheckedStep(t, step);
    hide Drawn, AdvanceAt, WorkAt, LockHeld, LocaleChecked;
    match step
    case Open(id, event) => DrawnOpen(s, t, Asked(id, event));
    case Advance(i, coalesced) =>
      if i < |t.calls| {
        DrawnAdvance(s, t, i, coalesced);
      }
    case Execute(succeeds) => assert t.program == [] by { DrawnBetween(s, t); }
    case Work(move) =>
      if move.Authorise? && t.worker.Authorising? {
        DoAuthorise(t, move.known, move.bound, move.urlValid);
        DrawnAuthorise(s, t, move.known, move.bound, move.urlValid);
      } else if move.Authorise? {
        assert WorkAt(t, move) == t by { AuthorisesNothing(t, move); }
      } else {
        WorkApart(t, move);
        DrawnBetween(s, t);
        DrawnFrame(s, t, WorkAt(t, move));
      }
  }

  lemma AuthorisesNothing(t: State, move: WorkerMove)
    requires move.Authorise? && !t.worker.Authorising?
    ensures WorkAt(t, move) == t
  {
  }

  lemma DrawnBetween(s: State, t: State)
    requires Drawn(s, t)
    ensures Between(t)
  {
  }

  lemma DrawnFirst(s: State)
    requires Between(s)
    ensures Drawn(s, s)
  {
    hide LockHeld, LocaleChecked, Exposed;
    forall i | 0 <= i < |s.calls| && s.calls[i].Loaded? && s.calls[i].saved.Some?
      ensures Pending(s, s.calls[i].id, s.calls[i].saved.value)
    {
      assert ReadBy(s.calls[i], s.calls[i].id, s.calls[i].saved.value);
    }
  }

  lemma {:induction false} DrawnRun(s: State, steps: seq<Step>)
    requires Between(s) && forall step <- steps :: Harmless(step)
    ensures Drawn(s, Run(s, steps))
  {
    hide Drawn, Between, Harmless, Do;
    if steps == [] {
      DrawnFirst(s);
    } else {
      DrawnRun(s, steps[..|steps| - 1]);
      assert Harmless(steps[|steps| - 1]);
      DrawnStep(s, Run(s, steps[..|steps| - 1]), steps[|steps| - 1]);
    }
  }

  /** Some run without a save, disable or delete leads from s to t. */
  ghost predicate Reaches(s: State, t: State) {
    exists steps: seq<Step> :: (forall step <- steps :: Harmless(step)) && Run(s, steps) == t
  }

  lemma ReachesOn(s: State, t: State, step: Step)
    requires Reaches(s, t) && Harmless(step)
    ensures Reaches(s, Do(t, step))
  {
    var steps: seq<Step> :| (forall step <- steps :: Harmless(step)) && Run(s, steps) == t;
    assert (steps + [step])[..|steps|] == steps;
    assert Run(s, steps + [step]) == Do(t, step);
  }

  lemma ReachesAdvance(s: State, t: State, i: nat) returns (u: State)
    requires Reaches(s, t) && i < |t.calls|
    ensures Reaches(s, u) && u == AdvanceAt(t, i, false)
  {
    ReachesOn(s, t, Advance(i, false));
    u := AdvanceAt(t, i, false);
  }

  lemma ReachesWork(s: State, t: State, move: WorkerMove) returns (u: State)
    requires Reaches(s, t) && !move.Disqualify?
    ensures Reaches(s, u) && u == WorkAt(t, move)
  {
    ReachesOn(s, t, Work(move));
    u := WorkAt(t, move);
  }

  /** Only the worker, the queue and the results differ, and nothing is posted. */
  predicate Beside(s: State, t: State) {
    && t.secrets == s.secrets && t.calls == s.calls && t.log == s.log && t.program == s.program
    && t.service.configs == s.service.configs && t.service.locale == s.service.locale
  }

  lemma ReachesPlain(s: State, t: State, move: WorkerMove) returns (u: State)
    requires Reaches(s, t) && Plain(move)
    ensures Reaches(s, u) && u == WorkAt(t, move) && Beside(t, u) && u.service.queue == WorkAt(t, move).service.queue
  {
    WorkApart(t, move);
    u := ReachesWork(s, t, move);
  }

  /** An authorised or posting worker gives the lock back without a POST. */
  lemma LockReturns(s: State, t: State) returns (u: State)
    requires Reaches(s, t) && Between(t)
    ensures Reaches(s, u) && Beside(t, u) && u.lock.Free? && !WorkerHolds(u.worker)
    ensures u.service.queue == t.service.queue
  {
    hide Shaped, Reaches;
    u := t;
    if t.worker.Authorising? {
      DoAuthorise(t, false, true, true);
      ReachesOn(s, t, Work(Authorise(false, true, true)));
      u := AuthoriseAt(t, false, true, true);
    } else if t.worker.Posting? {
      u := ReachesWork(s, t, Answer(Delivered));
    }
  }

  /** The worker finishes its job without a POST. */
  lemma WorkerRests(s: State, t: State) returns (u: State)
    requires Reaches(s, t) && Between(t)
    ensures Reaches(s, u) && Beside(t, u) && u.lock.Free? && u.worker.Idle? && u.service.queue == t.service.queue
  {
    hide Reaches, Between, RecordJobResult;
    u := LockReturns(s, t);
    if u.worker.Trying? {
      u := ReachesPlain(s, u, Expire);
    }
    if u.worker.Finishing? {
      RecordJobKeeps(u.service, u.worker.job, u.worker.text);
      u := ReachesPlain(s, u, Finish);
    }
  }

  lemma RecordJobKeeps(v: Service, job: Job, text: string)
    ensures RecordJobResult(v, job.serverId, job.generation, job.localeGeneration, text).queue == v.queue
  {
  }

  /** The jobs in the queue expire one after the other. */
  lemma {:induction false} QueueDrains(s: State, t: State) returns (u: State)
    requires Reaches(s, t) && t.lock.Free? && t.worker.Idle? && t.program == []
    ensures Reaches(s, u) && Beside(t, u) && Rested(u)
    decreases |t.service.queue|
  {
    hide Reaches, RecordJobResult;
    u := t;
    if t.service.queue != [] {
      u := ReachesPlain(s, u, Pop);
      u := ReachesPlain(s, u, Expire);
      RecordJobKeeps(u.service, u.worker.job, u.worker.text);
      u := ReachesPlain(s, u, Finish);
      u := QueueDrains(s, u);
    }
  }

  /** A test notification reads the configuration from the cache. */
  lemma StrayRead(s: State, t: State, id: string) returns (u: State)
    requires Reaches(s, t) && id in t.service.configs
    ensures var j := |t.calls|;
      && Reaches(s, u) && u == t.(calls := u.calls)
      && |u.calls| == j + 1 && u.calls[j] == Configured(id, Some(Test), t.service.configs[id])
  {
    hide Reaches;
    ReachesOn(s, t, Open(id, Some(Test)));
    u := t.(calls := t.calls + [Asked(id, Some(Test))]);
    u := ReachesAdvance(s, u, |t.calls|);
  }

  /** A configured call drafts a job and queues it. */
  lemma StrayQueue(s: State, t: State, j: nat) returns (u: State, job: Job)
    requires Reaches(s, t) && j < |t.calls| && t.calls[j].Configured? && t.calls[j].event == Some(Test)
    requires t.calls[j].config.enabled && t.service.queue == [] && t.service.locale.ready
    ensures Reaches(s, u) && u == t.(service := t.service.(queue := [job]), calls := u.calls)
    ensures job.serverId == t.calls[j].id && Wants(t.calls[j].config, job)
    ensures job.localeGeneration == t.service.locale.generation
  {
    u := ReachesAdvance(s, t, j);
    job := u.calls[j].job;
    u := ReachesAdvance(s, u, j);
  }

  /** The worker takes the job and finds its locale current. */
  lemma StrayTake(s: State, t: State, job: Job) returns (u: State)
    requires Reaches(s, t) && t.lock.Free? && t.worker.Idle? && t.service.queue == [job] && t.service.locale.ready
    requires job.localeGeneration == t.service.locale.generation
    ensures Reaches(s, u) && u.worker == Authorising(job, 0)
    ensures u.service.configs == t.service.configs && u.secrets == t.secrets && u.log == t.log
  {
    u := ReachesWork(s, t, Pop);
    assert u.worker == Trying(job, 0);
    u := ReachesWork(s, u, Acquire);
  }

  /** An authorised worker posts under the cached configuration. */
  lemma PostMade(t: State, job: Job)
    requires t.worker == Authorising(job, 0) && job.serverId in t.service.configs
    requires Wants(t.service.configs[job.serverId], job) && t.service.configs[job.serverId].mentions.Valid(true)
    ensures AuthoriseAt(t, true, true, true).log
         == t.log + [Posted(t.ticket, 0, job, t.service.configs[job.serverId], SavedFor(t, job.serverId),
                            t.service.locale)]
  {
    assert Refusal(Read(t, job.serverId), job, true, true, true) == None;
  }

  lemma DoAuthorise(t: State, known: bool, bound: bool, urlValid: bool)
    requires t.worker.Authorising?
    ensures Do(t, Work(Authorise(known, bound, urlValid))) == AuthoriseAt(t, known, bound, urlValid)
  {
  }

  lemma ReachesPost(s: State, t: State, bound: bool)
    requires Reaches(s, t) && t.worker.Authorising?
    ensures Reaches(s, AuthoriseAt(t, true, bound, true))
  {
    DoAuthorise(t, true, bound, true);
    ReachesOn(s, t, Work(Authorise(true, bound, true)));
  }

  /** A stale configuration in the cache is posted under once everything is at rest. */
  lemma CachedPosts(s: State, t: State, id: string) returns (u: State)
    requires Reaches(s, t) && Rested(t) && t.service.locale.ready && |s.log| <= |t.log|
    requires id in t.service.configs && Deliverable(t.service.configs[id])
    requires SavedFor(t, id) != Some(t.service.configs[id])
    ensures Reaches(s, u) && Strays(s, u)
  {
    hide Reaches;
    var read := StrayRead(s, t, id);
    var queued, job := StrayQueue(s, read, |t.calls|);
    var taken := StrayTake(s, queued, job);
    PostMade(taken, job);
    ReachesPost(s, taken, true);
    u := AuthoriseAt(taken, true, true, true);
    assert Stray(u.log[|t.log|]);
  }

  /** What a call holds goes into the cache. */
  lemma HeldIsCached(s: State, t: State, i: nat) returns (u: State)
    requires Reaches(s, t) && i < |t.calls| && t.calls[i].Loaded? && t.calls[i].saved.Some?
    ensures Reaches(s, u) && u.secrets == t.secrets && u.log == t.log && u.service.locale == t.service.locale
    ensures CachedAs(u, t.calls[i].id, t.calls[i].saved.value) && (Rested(t) ==> Rested(u))
  {
    hide Reaches;
    u := ReachesAdvance(s, t, i);
  }

  lemma ExposedPosts(s: State) returns (t: State)
    requires Between(s) && s.service.locale.ready && Exposed(s)
    ensures Reaches(s, t) && Strays(s, t)
  {
    hide Reaches, Between, Strays, Deliverable;
    assert Reaches(s, s) by { ReachesItself(s); }
    var rested := WorkerRests(s, s);
    assert s.program == [] by { BetweenIsFree(s); }
    rested := QueueDrains(s, rested);
    if ExposedCall(s) {
      var i :| 0 <= i < |s.calls| && s.calls[i].Loaded? && s.calls[i].saved.Some?
        && Deliverable(s.calls[i].saved.value) && SavedFor(s, s.calls[i].id) != s.calls[i].saved;
      var cached := HeldIsCached(s, rested, i);
      t := CachedPosts(s, cached, s.calls[i].id);
    } else {
      var id :| id in s.service.configs
        && Deliverable(s.service.configs[id]) && SavedFor(s, id) != Some(s.service.configs[id]);
      t := CachedPosts(s, rested, id);
    }
  }

  lemma BetweenIsFree(s: State)
    requires Between(s)
    ensures s.program == []
  {
  }

  lemma ReachesItself(s: State)
    ensures Reaches(s, s)
  {
    assert Run(s, []) == s;
  }

  lemma StraysWereExposed(s: State, t: State)
    requires Between(s) && Reaches(s, t) && Strays(s, t)
    ensures s.service.locale.ready && Exposed(s)
  {
    hide Exposed, Between, Known, LockHeld, LocaleChecked;
    var steps: seq<Step> :| (forall step <- steps :: Harmless(step)) && Run(s, steps) == t;
    DrawnRun(s, steps);
  }

  /**
   Whatever has happened before, as long as no save, disable, delete or change
   of the locale is under way: some run without a further one posts under
   another configuration than the saved one if and only if a locale is set and a
   call or the cache holds a deliverable configuration that is not the saved one.
   */
  lemma StrayPostsExactly(s: State, steps: seq<Step>)
    requires Initial(s) && Run(s, steps).program == []
    ensures var t := Run(s, steps);
      (exists u :: Reaches(t, u) && Strays(t, u)) <==> t.service.locale.ready && Exposed(t)
  {
    hide Exposed, Reaches, Strays, Initial;
    var t := Run(s, steps);
    assert Between(t) by { ReachableIsBetween(s, steps); }
    if t.service.locale.ready && Exposed(t) {
      var u := ExposedPosts(t);
    }
    forall u | Reaches(t, u) && Strays(t, u) ensures t.service.locale.ready && Exposed(t) {
      StraysWereExposed(t, u);
    }
  }

  lemma ReachableIsBetween(s: State, steps: seq<Step>)
    requires Initial(s) && Run(s, steps).program == []
    ensures Between(Run(s, steps))
  {
    hide Initial, Run;
    InvRun(s, steps);
  }

  // ---------------------------------------------------------------- such a state is reached

  /** Some run leads from s to t. */
  ghost predicate Leads(s: State, t: State) { exists steps: seq<Step> :: Run(s, steps) == t }

  lemma LeadsOn(s: State, t: State, step: Step)
    requires Leads(s, t)
    ensures Leads(s, Do(t, step))
  {
    var steps: seq<Step> :| Run(s, steps) == t;
    assert (steps + [step])[..|steps|] == steps;
    assert Run(s, steps + [step]) == Do(t, step);
  }

  lemma LeadsSection(s: State, t: State) returns (u: State)
    requires Leads(s, t) && t.program != []
    ensures Leads(s, u) && u == ExecuteAt(t, true)
  {
    LeadsOn(s, t, Execute(true));
    u := ExecuteAt(t, true);
  }

  /** What the rest of a program leaves alone when nothing is queued. */
  predicate SameBut(t: State, u: State) {
    && u.secrets == t.secrets && u.calls == t.calls && u.worker == t.worker && u.next == t.next
    && u.service.configs == t.service.configs && u.service.queue == [] == t.service.queue
    && u.service.locale == t.service.locale
  }

  lemma PlainSection(t: State)
    requires t.program != [] && !Commits(t.program[0]) && t.service.queue == [] && !t.worker.Withdrawing?
    ensures SameBut(t, ExecuteAt(t, true)) && ExecuteAt(t, true).program == t.program[1..]
    ensures ExecuteAt(t, true).lock == if |t.program| == 1 then Free else t.lock
  {
    hide Run1;
    PlainRun(t.(program := t.program[1..]), t.program[0]);
    PlainRelease(t, Run1(t.(program := t.program[1..]), t.program[0]));
  }

  lemma PlainRun(t: State, section: Section)
    requires !Commits(section) && t.service.queue == []
    ensures SameBut(t, Run1(t, section)) && Run1(t, section).program == t.program && Run1(t, section).lock == t.lock
  {
    hide CancelQueued;
  }

  lemma PlainRelease(s: State, t: State)
    requires SameBut(s, t) && !s.worker.Withdrawing?
    ensures SameBut(s, Release(t)) && Release(t).program == t.program
    ensures Release(t).lock == if t.program == [] then Free else t.lock
  {
  }

  lemma {:induction false} RunsOut(s: State, t: State) returns (u: State)
    requires Leads(s, t) && PlainFrom(t.program, 0) && t.service.queue == [] && !t.worker.Withdrawing?
    requires t.program == [] ==> t.lock.Free?
    ensures Leads(s, u) && SameBut(t, u) && u.program == [] && u.lock.Free?
    decreases |t.program|
  {
    u := t;
    if t.program != [] {
      PlainSection(t);
      u := LeadsSection(s, t);
      assert forall k | 0 <= k < |u.program| :: u.program[k] == t.program[k + 1];
      u := RunsOut(s, u);
    }
  }

  /** The first two sections of a delete. */
  lemma DeleteStarts(s: State, t: State, id: string) returns (u: State)
    requires Leads(s, t) && t.lock.Free? && t.program == [] && !t.worker.Withdrawing?
    ensures Leads(s, u)
    ensures u == t.(secrets := t.secrets - {id}, service := t.service.(configs := t.service.configs - {id}),
                    program := [PurgeQueue(id), ForgetResult(id), Complete(id)], lock := HeldByCommand,
                                   next := t.next + 1, clean := t.clean && !ReadInFlight(t.calls, id))
  {
    LeadsOn(s, t, Issue(DeleteDestination(id)));
    u := IssueAt(t, DeleteDestination(id));
    u := LeadsSection(s, u);
    assert u.program == [RemoveConfig(id), PurgeQueue(id), ForgetResult(id), Complete(id)];
    u := LeadsSection(s, u);
  }

  /** A delete completes while a read of the same server is pending. */
  lemma DeleteOvertakes(s: State, t: State, id: string, config: Config) returns (u: State)
    requires Leads(s, t) && t.lock.Free? && t.program == [] && t.worker.Idle? && t.service.locale.ready
    requires t.service.configs == map[] && t.service.queue == []
    requires t.calls == [Loaded(id, None, Some(config))] && Deliverable(config)
    ensures Leads(s, u) && Between(u) && u.service.locale.ready && Exposed(u) && u.secrets == t.secrets - {id}
  {
    u := DeleteStarts(s, t, id);
    u := RunsOut(s, u);
    assert u.calls[0].saved == Some(config) && SavedFor(u, id) == None;
    assert ExposedCall(u);
  }

  /** The interface announces its locale. */
  lemma LocaleAnnounced(s: State) returns (t: State)
    requires Initial(s)
    ensures Leads(s, t) && t.lock.Free? && t.program == [] && t.worker.Idle? && t.service.locale.ready
    ensures t.service.configs == map[] && t.service.queue == [] && t.secrets == s.secrets && t.calls == []
  {
    hide ExecuteAt;
    assert Run(s, []) == s;
    LeadsOn(s, s, Issue(SetLocale("en")));
    t := IssueAt(s, SetLocale("en"));
    ActivatesFirst(t);
    t := LeadsSection(s, t);
    t := RunsOut(s, t);
  }

  lemma ActivatesFirst(s: State)
    requires |s.program| > 1 && s.program[0].ActivateLocale? && !s.worker.Withdrawing?
    ensures var t := ExecuteAt(s, true);
      t.program == s.program[1..] && t.worker == s.worker && t.secrets == s.secrets && t.calls == s.calls
      && t.service.locale.ready && t.service.configs == s.service.configs && t.service.queue == s.service.queue
  {
  }

  /** After that it asks for a server's status, which reads what is saved. */
  lemma ReadBecomesPending(s: State, id: string) returns (t: State)
    requires Initial(s) && id in s.secrets
    ensures Leads(s, t) && t.lock.Free? && t.program == [] && t.worker.Idle? && t.service.locale.ready
    ensures t.service.configs == map[] && t.service.queue == [] && t.secrets == s.secrets
    ensures t.calls == [Loaded(id, None, Some(s.secrets[id]))]
  {
    hide Leads, Initial;
    t := LocaleAnnounced(s);
    LeadsOn(s, t, Open(id, None));
    t := Do(t, Open(id, None));
    LeadsOn(s, t, Advance(0, false));
    t := AdvanceAt(t, 0, false);
    assert t.calls == [Missed(id, None)];
    LeadsOn(s, t, Advance(0, false));
    t := AdvanceAt(t, 0, false);
  }

  /**
   Every application that starts with a deliverable configuration can come to
   post under it after a delete of that configuration has completed.
   */
  lemma DeletedConfigurationCanPost(s: State, id: string) returns (t: State, u: State)
    requires Initial(s) && id in s.secrets && Deliverable(s.secrets[id])
    ensures Leads(s, t) && id !in t.secrets && Reaches(t, u) && Strays(t, u)
  {
    t := ReadBecomesPending(s, id);
    t := DeleteOvertakes(s, t, id, s.secrets[id]);
    u := ExposedPosts(t);
  }

  // ---------------------------------------------------------------- everything comes to rest

  /** How many sections of a program still call for reports of their own. */
  function Drains(program: seq<Section>): nat {
    if program == [] then 0 else (if program[0].DrainQueue? then 1 else 0) + Drains(program[1..])
  }

  lemma {:induction false} DrainsBehind(reports: seq<Section>, rest: seq<Section>)
    requires forall k | 0 <= k < |reports| :: !reports[k].DrainQueue?
    ensures Drains(reports + rest) == Drains(rest)
  {
    if reports == [] {
      assert reports + rest == rest;
    } else {
      DrainsBehind(reports[1..], rest);
      assert (reports + rest)[1..] == reports[1..] + rest;
    }
  }

  lemma SectionShrinks(s: State)
    requires s.program != []
    ensures var program := ExecuteAt(s, true).program;
      Drains(program) < Drains(s.program) || (Drains(program) == Drains(s.program) && |program| < |s.program|)
  {
    hide RecordResult, CancelQueued, ReadInFlight, Without;
    if s.program[0].DrainQueue? {
      var u := Run1(s.(program := s.program[1..]), s.program[0]);
      var reports := u.program[..|s.service.queue|];
      assert u.program == reports + s.program[1..];
      DrainsBehind(reports, s.program[1..]);
    }
  }

  /** The holder of the lock can run its program to the end. */
  lemma {:induction false} ProgramEnds(s: State, t: State) returns (u: State)
    requires Leads(s, t) && LockHeld(t)
    ensures Leads(s, u) && LockHeld(u) && u.program == []
    decreases Drains(t.program), |t.program|
  {
    hide Leads, LockHeld, ExecuteAt;
    u := t;
    if t.program != [] {
      LockExecute(t, true);
      SectionShrinks(t);
      u := LeadsSection(s, t);
      u := ProgramEnds(s, u);
    }
  }

  lemma {:induction false} RunOver(s: State, first: seq<Step>, more: seq<Step>)
    ensures Run(s, first + more) == Run(Run(s, first), more)
    decreases |more|
  {
    hide Do;
    if more == [] {
      assert first + more == first;
    } else {
      var n := |more| - 1;
      RunOver(s, first, more[..n]);
      assert (first + more)[..|first| + n] == first + more[..n];
    }
  }

  lemma LeadsOver(s: State, t: State, u: State)
    requires Leads(s, t) && (Leads(t, u) || Reaches(t, u))
    ensures Leads(s, u)
  {
    hide Do, Harmless;
    var first: seq<Step> :| Run(s, first) == t;
    var more: seq<Step> :| Run(t, more) == u;
    RunOver(s, first, more);
  }

  lemma LeadsToInv(s: State, t: State)
    requires Initial(s) && Leads(s, t)
    ensures LockHeld(t) && LocaleChecked(t)
  {
    hide Initial;
    var steps: seq<Step> :| Run(s, steps) == t;
    InvRun(s, steps);
  }

  /**
   From every state that a run reaches the lock can come free, the worker back to
   idle and the queue empty: no command, section or delivery is ever stuck.
   */
  lemma EverythingComesToRest(s: State, steps: seq<Step>) returns (u: State)
    requires Initial(s)
    ensures Leads(Run(s, steps), u) && Rested(u)
  {
    hide Initial, Leads, Reaches, LockHeld, LocaleChecked, Run;
    var t := Run(s, steps);
    assert Leads(s, t) by { LeadsAlong(s, steps); }
    assert Leads(t, t) by { LeadsAlong(t, []); RunNone(t); }
    LeadsToInv(s, t);
    var ended := ProgramEnds(t, t);
    LeadsOver(s, t, ended);
    LeadsToInv(s, ended);
    ReachesItself(ended);
    var rested := WorkerRests(ended, ended);
    u := QueueDrains(ended, rested);
    LeadsOver(t, ended, u);
  }

  lemma LeadsAlong(s: State, steps: seq<Step>)
    ensures Leads(s, Run(s, steps))
  {
  }

  lemma RunNone(s: State)
    ensures Run(s, []) == s
  {
  }

  /** How many sections a call can still take. */
  function Sections(call: Call): nat {
    match call
    case Asked(_, _) => 7
    case Missed(_, _) => 6
    case Loaded(_, _, _) => 5
    case Configured(_, _, _) => 4
    case Drafted(_) => 3
    case Overflowed(_) => 2
    case Queued(_, _) => 1
    case Returned => 0
  }

  /** Every section a call takes brings it nearer to its return. */
  lemma CallsShrink(call: Call, v: Service, secrets: map<string, Config>, coalesced: bool)
    ensures call.Returned? || Sections(Next(call, v, secrets, coalesced).call) < Sections(call)
  {
  }

  // ---------------------------------------------------------------- how the queue grows

  lemma SectionQueues(s: State, section: Section)
    ensures |Run1(s, section).service.queue| <= |s.service.queue|
  {
    hide RecordResult, CancelQueued, ReadInFlight;
    if section.PurgeQueue? {
      WithoutIsShort(s.service.queue, section.id);
    }
    if section.Report? {
      RecordKeepsQueue(s.service, section.id, section.generation, section.text);
    }
  }

  lemma RecordKeepsQueue(v: Service, id: string, generation: nat, text: string)
    ensures RecordResult(v, id, generation, text).queue == v.queue
  {
  }

  lemma CallQueues(call: Call, v: Service, secrets: map<string, Config>, coalesced: bool)
    ensures var w := Next(call, v, secrets, coalesced).service;
      w.queue == if call.Drafted? && !coalesced && |v.queue| < QUEUE_LIMIT then v.queue + [call.job] else v.queue
  {
    hide Subscribed;
  }

  /** Does this step put a job into the queue? */
  predicate Queues(s: State, step: Step) {
    step.Advance? && step.i < |s.calls| && s.calls[step.i].Drafted? && !step.coalesced
    && |s.service.queue| < QUEUE_LIMIT
  }

  /** Of all steps only a drafted call's puts a job into the queue: its own, at the end, and while there is room. */
  lemma QueueGrowsExactly(s: State, step: Step)
    ensures |Do(s, step).service.queue| > |s.service.queue| <==> Queues(s, step)
    ensures Queues(s, step) ==> Do(s, step).service.queue == s.service.queue + [s.calls[step.i].job]
  {
    hide Next, Program, Run1, WorkAt, Read;
    match step
    case Open(_, _) =>
    case Advance(i, coalesced) =>
      if i < |s.calls| {
        CallQueues(s.calls[i], s.service, s.secrets, coalesced);
      }
    case Issue(_) =>
    case Execute(_) =>
      if s.program != [] {
        SectionQueues(s.(program := s.program[1..]), s.program[0]);
      }
    case Work(move) => WorkAside(s, move);
  }
}
