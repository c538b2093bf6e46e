/**
 The sections of the dispatch model, run one after the other with nothing in
 between, amount to the methods of the service object.
 */
module NotificationSections {
  import opened Options
  import opened Notifications
  import opened NotificationDispatch

  /** The state after n sections of the lock holder, none of which fails. */
  function Executed(s: State, n: nat): State
    decreases n
  {
    if n == 0 || s.program == [] then s else Executed(ExecuteAt(s, true), n - 1)
  }

  lemma {:induction false} ExecutedOn(s: State, n: nat, m: nat)
    ensures Executed(Executed(s, n), m) == Executed(s, n + m)
    decreases n
  {
    hide ExecuteAt;
    if n > 0 && s.program != [] {
      ExecutedOn(ExecuteAt(s, true), n - 1, m);
    }
  }

  /** One section changes the service and the store and is taken off the program. */
  predicate Ran(s: State, t: State, service: Service, secrets: map<string, Config>) {
    RanWith(s, t, service, secrets, s.log)
  }

  predicate RanWith(s: State, t: State, service: Service, secrets: map<string, Config>, log: seq<Event>) {
    s.program != [] && t.service == service && t.secrets == secrets && t.program == s.program[1..]
    && t.log == log && t.next == s.next
    && (t.program != [] ==> t.lock == s.lock && t.worker == s.worker)
    && (t.program == [] ==> t.lock.Free? && !t.worker.Withdrawing?)
  }

  lemma WriteRuns(s: State, id: string, config: Config)
    requires s.program != [] && s.program[0] == WriteSecret(id, config)
    ensures Ran(s, ExecuteAt(s, true), s.service, s.secrets[id := config])
  {
  }

  lemma InsertRuns(s: State, id: string, config: Config)
    requires s.program != [] && s.program[0] == InsertConfig(id, config)
    ensures Ran(s, ExecuteAt(s, true), s.service.(configs := s.service.configs[id := config]), s.secrets)
  {
  }

  lemma DeleteRuns(s: State, id: string)
    requires s.program != [] && s.program[0] == DeleteSecret(id)
    ensures Ran(s, ExecuteAt(s, true), s.service, s.secrets - {id})
  {
  }

  lemma RemoveRuns(s: State, id: string)
    requires s.program != [] && s.program[0] == RemoveConfig(id)
    ensures Ran(s, ExecuteAt(s, true), s.service.(configs := s.service.configs - {id}), s.secrets)
  {
  }

  lemma PurgeRuns(s: State, id: string)
    requires s.program != [] && s.program[0] == PurgeQueue(id)
    ensures Ran(s, ExecuteAt(s, true), s.service.(queue := Without(s.service.queue, id)), s.secrets)
  {
  }

  lemma ForgetRuns(s: State, id: string)
    requires s.program != [] && s.program[0] == ForgetResult(id)
    ensures Ran(s, ExecuteAt(s, true), s.service.(results := s.service.results - {id}), s.secrets)
  {
  }

  lemma ReportRuns(s: State, id: string, generation: nat, text: string)
    requires s.program != [] && s.program[0] == Report(id, generation, text)
    ensures Ran(s, ExecuteAt(s, true), RecordResult(s.service, id, generation, text), s.secrets)
  {
  }

  lemma CompleteRuns(s: State, id: string)
    requires s.program != [] && s.program[0] == Complete(id)
    ensures RanWith(s, ExecuteAt(s, true), s.service, s.secrets,
                    s.log + [Completed(id, if id in s.secrets then s.secrets[id].generation else s.next)])
  {
  }

  /** A purge, the loss of the result and the rest of a program that begins with them. */
  lemma ClearingRuns(s: State, id: string) returns (t: State)
    requires |s.program| > 2 && s.program[0] == PurgeQueue(id) && s.program[1] == ForgetResult(id)
    ensures t == Executed(s, 2) && t.program == s.program[2..] && t.lock == s.lock && t.worker == s.worker
    ensures t.secrets == s.secrets && t.log == s.log && t.next == s.next
    ensures t.service == s.service.(queue := Without(s.service.queue, id), results := s.service.results - {id})
  {
    hide ExecuteAt;
    t := ExecuteAt(s, true);
    PurgeRuns(s, id);
    ForgetRuns(t, id);
    assert Executed(s, 2) == Executed(t, 1) == Executed(ExecuteAt(t, true), 0);
    t := ExecuteAt(t, true);
  }

  /** The write, the cached copy and what follows them in every save. */
  lemma StoringRuns(s: State, id: string, config: Config) returns (t: State)
    requires |s.program| > 4 && s.program[..4] == Saving(id, config, false)[..4]
    ensures t == Executed(s, 4) && t.program == s.program[4..] && t.lock == s.lock && t.worker == s.worker
    ensures t.log == s.log && t.next == s.next
    ensures t.secrets == s.secrets[id := config] && t.service == AfterSave(s.service, id, config)
  {
    hide ExecuteAt, Without;
    var first := s.program[..4];
    assert s.program[0] == first[0] && s.program[1] == first[1] && s.program[2] == first[2] && s.program[3] == first[3];
    var a := ExecuteAt(s, true);
    WriteRuns(s, id, config);
    var b := ExecuteAt(a, true);
    InsertRuns(a, id, config);
    t := ClearingRuns(b, id);
    assert Executed(s, 2) == Executed(a, 1) == Executed(b, 0);
    ExecutedOn(s, 2, 2);
  }

  /** A save that nothing interrupts is the method Save. */
  lemma SavingRuns(s: State, id: string, config: Config)
    requires s.program == Saving(id, config, false)
    ensures var t := Executed(s, 5);
      t.service == AfterSave(s.service, id, config) && t.secrets == s.secrets[id := config]
      && t.program == [] && t.lock.Free? && t.log == s.log + [Completed(id, config.generation)]
  {
    hide ExecuteAt, AfterSave;
    var c := StoringRuns(s, id, config);
    CompleteRuns(c, id);
    ExecutedOn(s, 4, 1);
    assert Executed(c, 1) == Executed(ExecuteAt(c, true), 0);
  }

  /** A save that reports what was under way, as disabling does, is the method SaveDisabled. */
  lemma DisablingRuns(s: State, id: string, config: Config)
    requires s.program == Saving(id, config, true)
    ensures var t := Executed(s, 6);
      t.service == WithDisabled(s.service, id, config) && t.secrets == s.secrets[id := config]
      && t.program == [] && t.lock.Free? && t.log == s.log + [Completed(id, config.generation)]
  {
    hide ExecuteAt, AfterSave, RecordResult;
    var c := StoringRuns(s, id, config);
    ReportRuns(c, id, config.generation, "cancelled");
    var d := ExecuteAt(c, true);
    CompleteRuns(d, id);
    ExecutedOn(s, 4, 2);
    assert Executed(c, 2) == Executed(d, 1) == Executed(ExecuteAt(d, true), 0);
  }

  /** A delete that nothing interrupts. */
  lemma DeletingRuns(s: State, id: string)
    requires s.program == Deleting(id)
    ensures var t, v := Executed(s, 5), s.service;
      t.service == Service(v.configs - {id}, v.results - {id}, Without(v.queue, id), v.locale)
      && t.secrets == s.secrets - {id} && t.program == [] && t.lock.Free? && t.log == s.log + [Completed(id, s.next)]
  {
    hide ExecuteAt, Without;
    var a := ExecuteAt(s, true);
    DeleteRuns(s, id);
    var b := ExecuteAt(a, true);
    RemoveRuns(a, id);
    var c := ClearingRuns(b, id);
    CompleteRuns(c, id);
    assert Executed(s, 2) == Executed(a, 1) == Executed(b, 0);
    ExecutedOn(s, 2, 2);
    ExecutedOn(s, 4, 1);
    assert Executed(c, 1) == Executed(ExecuteAt(c, true), 0);
  }

  // ---------------------------------------------------------------- changing the locale

  function Cancels(jobs: seq<Job>): (r: seq<Section>)
    ensures |r| == |jobs|
  {
    seq(|jobs|, i requires 0 <= i < |jobs| => Report(jobs[i].serverId, jobs[i].generation, "cancelled"))
  }

  lemma ActivateRuns(s: State, locale: string, generation: nat)
    requires s.program != [] && s.program[0] == ActivateLocale(locale, generation)
    ensures Ran(s, ExecuteAt(s, true), s.service.(locale := ActiveLocale(locale, generation, true)), s.secrets)
  {
  }

  lemma DrainRuns(s: State)
    requires |s.program| > 1 && s.program[0] == DrainQueue
    ensures var t := ExecuteAt(s, true);
      && t.service == s.service.(queue := []) && t.secrets == s.secrets && t.lock == s.lock && t.worker == s.worker
      && t.program == Cancels(s.service.queue) + s.program[1..] && t.log == s.log
  {
  }

  lemma CancelReportedRuns(s: State)
    requires s.program != [] && s.program[0] == CancelReported
    ensures Ran(s, ExecuteAt(s, true), s.service.(results := CancelQueued(s.service)), s.secrets)
  {
  }

  lemma CompleteLocaleRuns(s: State)
    requires s.program != [] && s.program[0] == CompleteLocale
    ensures RanWith(s, ExecuteAt(s, true), s.service, s.secrets,
                    s.log + [LocaleCompleted(s.service.locale.generation)])
  {
  }

  lemma {:induction false} CancelsRun(s: State, jobs: seq<Job>, n: nat) returns (t: State)
    requires n <= |jobs| < |s.program| && s.program[..|jobs|] == Cancels(jobs)
    ensures t == Executed(s, n) && t.program == s.program[n..] && t.secrets == s.secrets
    ensures t.lock == s.lock && t.worker == s.worker && t.log == s.log
    ensures t.service == s.service.(results := CancelWaiting(s.service, jobs[..n]))
  {
    hide ExecuteAt, RecordResult, CancelWaiting;
    t := s;
    CancelWaitingNone(s.service);
    if n > 0 {
      var before := CancelsRun(s, jobs, n - 1);
      assert before.program[0] == s.program[..|jobs|][n - 1];
      ReportRuns(before, jobs[n - 1].serverId, jobs[n - 1].generation, "cancelled");
      CancelWaitingNext(s.service, jobs[..n - 1], jobs[n - 1]);
      assert jobs[..n] == jobs[..n - 1] + [jobs[n - 1]];
      t := ExecuteAt(before, true);
      ExecutedOn(s, n - 1, 1);
      assert Executed(before, 1) == Executed(t, 0);
    }
  }

  /** The reports that draining calls for, run one after the other. */
  lemma DrainedRuns(s: State) returns (t: State)
    requires |s.program| > 1 && s.program[0] == DrainQueue
    ensures t == Executed(s, |s.service.queue| + 1) && t.program == s.program[1..] && t.secrets == s.secrets
    ensures t.lock == s.lock && t.worker == s.worker && t.log == s.log
    ensures t.service == s.service.(queue := [], results := CancelWaiting(s.service, s.service.queue))
  {
    hide ExecuteAt, CancelWaiting;
    var jobs := s.service.queue;
    var b := ExecuteAt(s, true);
    DrainRuns(s);
    assert b.program[..|jobs|] == Cancels(jobs) && b.program[|jobs|..] == s.program[1..];
    t := CancelsRun(b, jobs, |jobs|);
    assert jobs[..|jobs|] == jobs;
    CancelWaitingReads(s.service, b.service, jobs);
    assert Executed(s, 1) == Executed(b, 0);
    ExecutedOn(s, 1, |jobs|);
  }

  /** Once the queue is drained, the reported tests are cancelled. */
  lemma CancellingRuns(s: State)
    requires s.program == [CancelReported, CompleteLocale]
    ensures var t := Executed(s, 2);
      t.service == s.service.(results := CancelQueued(s.service)) && t.secrets == s.secrets
      && t.program == [] && t.lock.Free? && t.log == s.log + [LocaleCompleted(s.service.locale.generation)]
  {
    hide ExecuteAt, CancelQueued;
    CancelReportedRuns(s);
    var d := ExecuteAt(s, true);
    CompleteLocaleRuns(d);
    assert Executed(s, 2) == Executed(d, 1) == Executed(ExecuteAt(d, true), 0);
  }

  /** A change of the locale that nothing interrupts is the method SetLocale. */
  lemma LocaleRuns(s: State, locale: string, generation: nat)
    requires s.program == [ActivateLocale(locale, generation), DrainQueue, CancelReported, CompleteLocale]
    ensures var t := Executed(s, |s.service.queue| + 4);
      t.service == LocaleChanged(s.service, locale, generation) && t.secrets == s.secrets
      && t.program == [] && t.lock.Free? && t.log == s.log + [LocaleCompleted(generation)]
  {
    hide ExecuteAt, CancelWaiting, CancelQueued;
    var jobs := s.service.queue;
    var a := ExecuteAt(s, true);
    ActivateRuns(s, locale, generation);
    var c := DrainedRuns(a);
    CancelWaitingReads(s.service, a.service, jobs);
    CancellingRuns(c);
    assert Executed(s, 1) == Executed(a, 0);
    ExecutedOn(s, 1, |jobs| + 1);
    ExecutedOn(s, |jobs| + 2, 2);
  }

  // ---------------------------------------------------------------- a call of its own

  /** The call after n of its sections. */
  function CallAfter(o: Outcome, secrets: map<string, Config>, coalesced: bool, n: nat): Outcome
    decreases n
  {
    if n == 0 then o else CallAfter(Next(o.call, o.service, secrets, coalesced), secrets, coalesced, n - 1)
  }

  lemma {:induction false} CallOn(o: Outcome, secrets: map<string, Config>, coalesced: bool, n: nat, m: nat)
    ensures CallAfter(CallAfter(o, secrets, coalesced, n), secrets, coalesced, m)
         == CallAfter(o, secrets, coalesced, n + m)
    decreases n
  {
    hide Next;
    if n > 0 {
      CallOn(Next(o.call, o.service, secrets, coalesced), secrets, coalesced, n - 1, m);
    }
  }

  lemma {:induction false} ReturnedStays(v: Service, secrets: map<string, Config>, coalesced: bool, n: nat)
    ensures CallAfter(Outcome(Returned, v), secrets, coalesced, n) == Outcome(Returned, v)
    decreases n
  {
    if n > 0 {
      ReturnedStays(v, secrets, coalesced, n - 1);
    }
  }

  /** What the call goes on with once it has read the configuration. */
  function WithConfig(id: string, event: EventKind, config: Option<Config>): Call {
    if config.Some? then Configured(id, Some(event), config.value) else Returned
  }

  /** Reading takes one section with the configuration in the cache and three without. */
  lemma ReadRuns(v: Service, secrets: map<string, Config>, coalesced: bool, id: string, event: EventKind)
    ensures CallAfter(Outcome(Asked(id, Some(event)), v), secrets, coalesced, if id in v.configs then 1 else 3)
      == Outcome(WithConfig(id, event, Found(v, secrets, id)), Cached(v, secrets, id))
  {
    var o := Outcome(Asked(id, Some(event)), v);
    var read := Next(o.call, v, secrets, coalesced);
    if id in v.configs {
      assert v.configs[id := v.configs[id]] == v.configs;
      assert CallAfter(o, secrets, coalesced, 1) == CallAfter(read, secrets, coalesced, 0);
    } else {
      var loaded := Next(read.call, v, secrets, coalesced);
      var cached := Next(loaded.call, v, secrets, coalesced);
      assert CallAfter(o, secrets, coalesced, 3) == CallAfter(read, secrets, coalesced, 2);
      assert CallAfter(read, secrets, coalesced, 2) == CallAfter(loaded, secrets, coalesced, 1);
      assert CallAfter(loaded, secrets, coalesced, 1) == CallAfter(cached, secrets, coalesced, 0);
    }
  }

  /** A test notification is reported as queued once its job was drafted. */
  function Announced(v: Service, drafted: bool, id: string, event: EventKind, generation: nat): Service {
    if drafted && event == Test then RecordResult(v, id, generation, "queued") else v
  }

  /** From the configuration on, at most four sections. */
  lemma ConfiguredRuns(
      v: Service, secrets: map<string, Config>, recent: Recent, config: Config, id: string, event: EventKind, now: nat)
    ensures var drafted := Subscribed(config, event) && v.locale.ready;
      var after := Enqueued(v, recent, Some(config), id, event, now).0;
      CallAfter(Outcome(Configured(id, Some(event), config), v), secrets, Coalesces(recent, id, event, now), 4)
      == Outcome(Returned, Announced(after, drafted, id, event, config.generation))
  {
    hide CallAfter, RecordResult, Coalesces, Push, RecordJobResult;
    var coalesced := Coalesces(recent, id, event, now);
    var o := Outcome(Configured(id, Some(event), config), v);
    var a := Next(o.call, o.service, secrets, coalesced);
    var b := Next(a.call, a.service, secrets, coalesced);
    var c := Next(b.call, b.service, secrets, coalesced);
    var d := Next(c.call, c.service, secrets, coalesced);
    FourSections(o, secrets, coalesced);
  }

  lemma FourSections(o: Outcome, secrets: map<string, Config>, coalesced: bool)
    ensures var a := Next(o.call, o.service, secrets, coalesced);
      var b := Next(a.call, a.service, secrets, coalesced);
      var c := Next(b.call, b.service, secrets, coalesced);
      CallAfter(o, secrets, coalesced, 4) == Next(c.call, c.service, secrets, coalesced)
  {
    hide Next;
    var a := Next(o.call, o.service, secrets, coalesced);
    var b := Next(a.call, a.service, secrets, coalesced);
    var c := Next(b.call, b.service, secrets, coalesced);
    assert CallAfter(o, secrets, coalesced, 4) == CallAfter(a, secrets, coalesced, 3);
    assert CallAfter(a, secrets, coalesced, 3) == CallAfter(b, secrets, coalesced, 2);
    assert CallAfter(b, secrets, coalesced, 2) == CallAfter(c, secrets, coalesced, 1);
    var d := Next(c.call, c.service, secrets, coalesced);
    assert CallAfter(c, secrets, coalesced, 1) == CallAfter(d, secrets, coalesced, 0);
  }

  /**
   A call that nothing interrupts is the method Enqueue, and reports a test
   notification as queued after it.
   */
  lemma CallRuns(
      v: Service, secrets: map<string, Config>, recent: Recent, id: string, event: EventKind, now: nat)
    ensures var config, before := Found(v, secrets, id), Cached(v, secrets, id);
      var after := Enqueued(before, recent, config, id, event, now).0;
      var drafted := config.Some? && Subscribed(config.value, event) && before.locale.ready;
      CallAfter(Outcome(Asked(id, Some(event)), v), secrets, Coalesces(recent, id, event, now), 7)
      == Outcome(Returned, if drafted then Announced(after, true, id, event, config.value.generation) else after)
  {
    hide CallAfter, Next, RecordResult, Coalesces, RecordJobResult, Push;
    var coalesced := Coalesces(recent, id, event, now);
    var o := Outcome(Asked(id, Some(event)), v);
    var reading := if id in v.configs then 1 else 3;
    var config, before := Found(v, secrets, id), Cached(v, secrets, id);
    ReadRuns(v, secrets, coalesced, id, event);
    CallOn(o, secrets, coalesced, reading, 7 - reading);
    if config.None? {
      ReturnedStays(before, secrets, coalesced, 7 - reading);
    } else {
      var read := Outcome(Configured(id, Some(event), config.value), before);
      ConfiguredRuns(before, secrets, recent, config.value, id, event, now);
      CallOn(read, secrets, coalesced, 4, 3 - reading);
      ReturnedStays(CallAfter(read, secrets, coalesced, 4).service, secrets, coalesced, 3 - reading);
    }
  }
}
