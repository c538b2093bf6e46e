/**
 What the steps of a notification come to, said of the fields of configurations
 and commands, and a notification that is delivered.
 */
module NotificationOutcomes {
  import opened Options
  import opened Notifications
  import opened NotificationDispatch
  import opened NotificationSections

  // ---------------------------------------------------------------- from an event to a job

  /** A call drafts a job exactly for an event its configuration asks for, once a locale is set. */
  lemma DraftedExactly(
      v: Service, secrets: map<string, Config>, coalesced: bool, id: string, event: Option<EventKind>, config: Config)
    ensures var o := Next(Configured(id, event, config), v, secrets, coalesced);
      var asked := event.Some? && AsksFor(config, event.value);
      && o.call == (if asked && v.locale.ready
                    then Drafted(Job(id, event.value, config.generation, v.locale.locale, v.locale.generation))
                    else Returned)
      && o.service.queue == v.queue && o.service.configs == v.configs
      && (id in v.configs && v.configs[id] == config ==>
            LastResult(o.service, id) == if asked && !v.locale.ready then "locale_not_ready" else LastResult(v, id))
  {
  }

  /** A drafted job is queued unless the event was queued moments ago or the queue is full. */
  lemma DraftIsQueued(v: Service, secrets: map<string, Config>, coalesced: bool, job: Job)
    ensures var o := Next(Drafted(job), v, secrets, coalesced);
      && o.service == (if !coalesced && |v.queue| < 32 then v.(queue := v.queue + [job]) else v)
      && o.call == (if !coalesced && |v.queue| >= 32 then Overflowed(job)
                    else if job.event == Test then Queued(job.serverId, job.generation) else Returned)
  {
  }

  // ---------------------------------------------------------------- from a job to a POST

  /** Which jobs an authorised worker posts, and as what it finishes the others. */
  lemma PostedExactly(s: State, known: bool, bound: bool, urlValid: bool)
    requires s.worker.Authorising?
    ensures var t, job, config := AuthoriseAt(s, known, bound, urlValid), s.worker.job, Read(s, s.worker.job.serverId);
      var current := known && bound && config.Some? && AsksFor(config.value, job.event)
                     && config.value.generation == job.generation;
      var posts := current && config.value.mentions.Valid(true) && urlValid;
      && t.log == (if posts
                   then s.log + [Posted(s.ticket, s.worker.attempt, job, config.value, SavedFor(s, job.serverId),
                                        s.service.locale)]
                   else s.log)
      && t.worker == (if posts then Posting(job, s.worker.attempt)
                      else if !current then Finishing(job, "cancelled")
                      else if !config.value.mentions.Valid(true) then Finishing(job, "mention_configuration_invalid")
                      else Finishing(job, "delivery_failed"))
      && t.lock == (if posts then s.lock else Free)
  {
    hide Read, SavedFor, Cache;
  }

  /** What the worker makes of the reply: three attempts at most, and only an acceptable delay is waited for. */
  lemma AnsweredExactly(s: State, reply: Reply)
    requires s.worker.Posting?
    ensures var t, job := AnswerAt(s, reply), s.worker.job;
      && t.lock == Free && t.log == s.log && t.service == s.service
      && t.worker ==
           match reply
           case Delivered => Finishing(job, "sent")
           case Refused(reason) => Finishing(job, reason)
           case RetryLater(acceptable) =>
             if acceptable && s.worker.attempt < 2 then Trying(job, s.worker.attempt + 1)
             else Finishing(job, "rate_limited")
  {
  }

  /** The worker takes the oldest job, and the lock only for a job of the active locale. */
  lemma WorkerProceeds(s: State)
    ensures s.worker.Idle? && s.service.queue != [] ==>
      var t := WorkAt(s, Pop);
      t.worker == Trying(s.service.queue[0], 0) && t.service.queue == s.service.queue[1..] && t.ticket == s.ticket + 1
    ensures s.worker.Trying? && s.lock.Free? ==>
      var t, job := WorkAt(s, Acquire), s.worker.job;
      var current := s.service.locale.ready && s.service.locale.generation == job.localeGeneration;
      && t.worker == (if current then Authorising(job, s.worker.attempt) else Finishing(job, "cancelled"))
      && t.lock == (if current then HeldByWorker else Free)
    ensures s.worker.Trying? ==> WorkAt(s, Expire).worker == Finishing(s.worker.job, "expired")
  {
    hide AuthoriseAt, AnswerAt, DisqualifyAt, FinishAt;
  }

  /** A finished job's result shows if its configuration and its locale are still the live ones. */
  lemma FinishShows(s: State)
    requires s.worker.Finishing?
    ensures var t, job, v := WorkAt(s, Finish), s.worker.job, s.service;
      var live := v.locale.ready && v.locale.generation == job.localeGeneration
                  && job.serverId in v.configs && v.configs[job.serverId].generation == job.generation;
      t.worker.Idle? && t.log == s.log
      && LastResult(t.service, job.serverId) == if live then s.worker.text else LastResult(v, job.serverId)
  {
    hide AuthoriseAt, AnswerAt, DisqualifyAt, PopAt, AcquireAt;
    var job := s.worker.job;
    JobResultShows(s.service, job.serverId, job.generation, job.localeGeneration, s.worker.text);
  }

  /** A worker whose user has lost the qualification disables the server and says so. */
  lemma DisqualifiedDisables(s: State)
    requires s.worker.Authorising?
    ensures var t := WorkAt(s, Disqualify);
      && t.worker == Withdrawing(s.worker.job) && t.lock == s.lock && t.log == s.log
      && t.program == DisablingSections(s, s.worker.job.serverId) && t.next == s.next + 1
      && t.service == s.service.(configs := WithSaved(s, s.worker.job.serverId))
  {
    hide AuthoriseAt, AnswerAt, FinishAt, PopAt, AcquireAt;
  }

  /** A saved configuration that was not cached is cached by reading it. */
  function WithSaved(s: State, id: string): map<string, Config> {
    var configs, saved := s.service.configs, SavedFor(s, id);
    if id in configs || saved.None? then configs else configs[id := saved.value]
  }

  /** When the last section of that has run, the lock is free and the job is finished as unqualified. */
  lemma WithdrawalEnds(s: State, id: string, succeeds: bool)
    requires s.worker.Withdrawing? && (s.program == [Complete(id)] || s.program == [PurgeQueue(id)])
    ensures var t := ExecuteAt(s, succeeds);
      t.worker == Finishing(s.worker.job, "qualification_required") && t.lock.Free? && t.program == []
  {
  }

  /** Disabling what is known saves it switched off under a new generation; otherwise only the queue is purged. */
  function DisablingSections(s: State, id: string): seq<Section> {
    var config := if id in s.service.configs then Some(s.service.configs[id]) else SavedFor(s, id);
    if config.None? then [PurgeQueue(id)]
    else
      var c := config.value;
      var off := Config(c.url, false, c.events, c.mentions, s.next, c.binding);
      [WriteSecret(id, off), InsertConfig(id, off), PurgeQueue(id), ForgetResult(id), Report(id, s.next, "cancelled"),
       Complete(id)]
  }

  // ---------------------------------------------------------------- commands

  /** A destination is saved switched off, with all events selected, unless its role number is none. */
  lemma DestinationSaved(s: State, id: string, url: string, mentions: Mentions, binding: Option<string>)
    requires s.lock.Free? && s.program == []
    ensures var t, config := IssueAt(s, SaveDestination(id, url, mentions, binding)),
                             Config(url, false, Events(true, true, true), mentions, s.next, binding);
      if !mentions.Valid(false) then t == s.(next := s.next + 1)
      else
        var u := Executed(t, 5);
        && u.secrets == s.secrets[id := config] && u.program == [] && u.lock.Free?
        && u.service == AfterSave(s.service, id, config)
  {
    hide AfterSave;
    if mentions.Valid(false) {
      SavingRuns(IssueAt(s, SaveDestination(id, url, mentions, binding)), id,
                 Config(url, false, Events(true, true, true), mentions, s.next, binding));
    }
  }

  /** Settings that the decision allows are stored; what was under way is reported if the target changed or was on. */
  lemma SettingsIssued(s: State, id: string, enabled: bool, events: Events, mentions: Mentions, confirmed: bool,
                       binding: Option<string>)
    requires s.lock.Free? && s.program == [] && id in s.service.configs
    ensures var config := s.service.configs[id];
      var decision := Decide(config, enabled, events, mentions, confirmed, s.next, binding);
      var t := IssueAt(s, SetNotifications(id, enabled, events, mentions, confirmed, binding));
      if decision.None? then t == s.(next := s.next + 1)
      else
        && t.program == Saving(id, decision.value, config.enabled || mentions != config.mentions)
        && t.service == s.service && t.secrets == s.secrets
  {
    hide Decide, Saving;
    var config := s.service.configs[id];
    assert s.service.configs[id := config] == s.service.configs;
  }

  /** New settings are saved as decided, and what was under way shows as cancelled if the target changed or was on. */
  lemma SettingsSaved(s: State, id: string, enabled: bool, events: Events, mentions: Mentions, confirmed: bool,
                      binding: Option<string>)
    requires s.lock.Free? && s.program == [] && id in s.service.configs
    ensures var config := s.service.configs[id];
      var decision := Decide(config, enabled, events, mentions, confirmed, s.next, binding);
      var t := IssueAt(s, SetNotifications(id, enabled, events, mentions, confirmed, binding));
      if decision.None? then t == s.(next := s.next + 1)
      else
        var u := Executed(t, 6);
        && u.secrets == s.secrets[id := decision.value] && u.program == [] && u.lock.Free?
        && id in u.service.configs && u.service.configs[id] == decision.value
        && LastResult(u.service, id)
        == if config.enabled || mentions != config.mentions then "cancelled" else "not_sent"
  {
    hide Decide, WithDisabled, AfterSave, LastResult, IssueAt, Saving, Executed;
    var config := s.service.configs[id];
    var decision := Decide(config, enabled, events, mentions, confirmed, s.next, binding);
    var t := IssueAt(s, SetNotifications(id, enabled, events, mentions, confirmed, binding));
    SettingsIssued(s, id, enabled, events, mentions, confirmed, binding);
    if decision.Some? {
      if config.enabled || mentions != config.mentions {
        ReportedStored(t, id, decision.value);
      } else {
        QuietStored(t, id, decision.value);
      }
    }
  }

  lemma ReportedStored(t: State, id: string, config: Config)
    requires t.program == Saving(id, config, true)
    ensures var u := Executed(t, 6);
      && u.secrets == t.secrets[id := config] && u.program == [] && u.lock.Free?
      && id in u.service.configs && u.service.configs[id] == config && LastResult(u.service, id) == "cancelled"
  {
    hide WithDisabled, LastResult, Saving, Executed;
    DisablingRuns(t, id, config);
    ReportedSaveShows(t.service, id, config);
  }

  lemma QuietStored(t: State, id: string, config: Config)
    requires t.program == Saving(id, config, false)
    ensures var u := Executed(t, 6);
      && u.secrets == t.secrets[id := config] && u.program == [] && u.lock.Free?
      && id in u.service.configs && u.service.configs[id] == config && LastResult(u.service, id) == "not_sent"
  {
    hide AfterSave, LastResult, Saving, Run1;
    SavingRuns(t, id, config);
    ExecutedOn(t, 5, 1);
    SaveShows(t.service, id, config);
  }

  lemma ReportedSaveShows(v: Service, id: string, config: Config)
    ensures var w := WithDisabled(v, id, config);
      id in w.configs && w.configs[id] == config && LastResult(w, id) == "cancelled"
  {
  }

  /** Which sections a disable, a delete and a change of the locale run; a locale that is set already runs none. */
  lemma OtherCommands(s: State, id: string, locale: string)
    requires s.lock.Free? && s.program == []
    ensures var t := IssueAt(s, DisableServer(id));
      t.program == DisablingSections(s, id) && t.service == s.service.(configs := WithSaved(s, id))
    ensures IssueAt(s, DeleteDestination(id)).service == s.service == IssueAt(s, SetLocale(locale)).service
    ensures IssueAt(s, DeleteDestination(id)).program
         == [DeleteSecret(id), RemoveConfig(id), PurgeQueue(id), ForgetResult(id), Complete(id)]
    ensures var effective :=
        locale in {"en", "ja", "zh-CN", "zh-TW", "ko", "es", "de", "fr", "pt-BR"}
        && !(s.service.locale.ready && s.service.locale.locale == locale);
      IssueAt(s, SetLocale(locale)).program
      == if effective then [ActivateLocale(locale, s.next), DrainQueue, CancelReported, CompleteLocale] else []
    ensures forall command ::
      var t := IssueAt(s, command);
      t.next == s.next + 1 && t.lock == if t.program == [] then Free else HeldByCommand
  {
    hide Decide;
  }

  // ---------------------------------------------------------------- a notification that is delivered

  /** The call of an event, from its reading to its job. */
  lemma EventIsQueued(s: State, id: string, event: EventKind) returns (u: State)
    requires Rested(s) && s.service.locale.ready && id in s.service.configs && AsksFor(s.service.configs[id], event)
    ensures Reaches(s, u) && u == s.(service := s.service.(queue := [JobFor(s, id, event)]), calls := u.calls)
  {
    hide Reaches;
    var j, config := |s.calls|, s.service.configs[id];
    ReachesItself(s);
    ReachesOn(s, s, Open(id, Some(event)));
    u := s.(calls := s.calls + [Asked(id, Some(event))]);
    u := ReachesAdvance(s, u, j);
    assert u.calls[j] == Configured(id, Some(event), config);
    DraftedExactly(s.service, s.secrets, false, id, Some(event), config);
    u := ReachesAdvance(s, u, j);
    assert u.calls[j] == Drafted(JobFor(s, id, event));
    DraftIsQueued(s.service, s.secrets, false, JobFor(s, id, event));
    u := ReachesAdvance(s, u, j);
  }

  function JobFor(s: State, id: string, event: EventKind): Job
    requires id in s.service.configs
  {
    Job(id, event, s.service.configs[id].generation, s.service.locale.locale, s.service.locale.generation)
  }

  /** The worker takes the only job and posts it. */
  lemma JobIsPosted(s: State, t: State, job: Job) returns (u: State)
    requires Reaches(s, t) && t.lock.Free? && t.worker.Idle? && t.program == [] && t.service.queue == [job]
    requires t.service.locale.ready && t.service.locale.generation == job.localeGeneration
    requires job.serverId in t.service.configs && AsksFor(t.service.configs[job.serverId], job.event)
    requires t.service.configs[job.serverId].generation == job.generation
    requires t.service.configs[job.serverId].mentions.Valid(true)
    ensures Reaches(s, u) && u.worker == Posting(job, 0) && u.service.configs == t.service.configs
    ensures u.service.locale == t.service.locale
    ensures u.log == t.log + [Posted(t.ticket + 1, 0, job, t.service.configs[job.serverId], SavedFor(t, job.serverId),
                                     t.service.locale)]
  {
    hide Reaches, AuthoriseAt;
    WorkerProceeds(t);
    u := ReachesPlain(s, t, Pop);
    WorkerProceeds(u);
    u := ReachesPlain(s, u, Acquire);
    assert u.worker == Authorising(job, 0) && u.ticket == t.ticket + 1;
    PostedExactly(u, true, true, true);
    AuthoriseAside(u, true, true, true);
    ReachesPost(s, u, true);
    assert u.service.configs[job.serverId := t.service.configs[job.serverId]] == u.service.configs;
    u := AuthoriseAt(u, true, true, true);
  }

  /**
   Any event that the configuration asks for can be posted at once, under this
   configuration and in the active locale, and then shows as sent.
   */
  lemma EventIsDelivered(s: State, id: string, event: EventKind) returns (u: State)
    requires Rested(s) && s.service.locale.ready && id in s.service.configs
    requires AsksFor(s.service.configs[id], event) && s.service.configs[id].mentions.Valid(true)
    ensures Reaches(s, u) && LastResult(u.service, id) == "sent"
    ensures u.log == s.log + [Posted(s.ticket + 1, 0, JobFor(s, id, event), s.service.configs[id], SavedFor(s, id),
                                     s.service.locale)]
  {
    hide Reaches, LastResult;
    var job := JobFor(s, id, event);
    var queued := EventIsQueued(s, id, event);
    var posting := JobIsPosted(s, queued, job);
    AnsweredExactly(posting, Delivered);
    u := ReachesPlain(s, posting, Answer(Delivered));
    FinishShows(u);
    u := ReachesPlain(s, u, Finish);
  }
}
