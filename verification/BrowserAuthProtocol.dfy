/**
 Browser login as a transition system. Any number of start, poll and cancel
 commands are in flight; each step is one locked section or one await of one
 command. A step that is not enabled leaves the state alone, so every sequence
 of steps is a run.
 */
module BrowserAuthProtocol {
  import opened Options
  import opened BrowserAuthRecord

  /** What the account service needs to cancel or poll one login request. */
  datatype Credential = Credential(requestId: string, verifier: string)

  /** Where one command stands between two of its steps. */
  datatype Call =
    // account_browser_auth_start
    | Displacing(client: string, generation: nat, verifier: string, displaced: Credential)
    | Requesting(client: string, generation: nat, verifier: string)
    | Rejecting(client: string, generation: nat, refused: Credential)
    | Cleaning(client: string, generation: nat)
    | Installing(generation: nat, attempt: Attempt)
    | Uninstalled(refused: Credential)
    // account_browser_auth_poll
    | Asking(credential: Credential)
    | Resetting(credential: Credential)
    | Clearing(credential: Credential, surplus: Option<string>)
    | Committing(credential: Credential, token: string)
    | Revoking(token: string)
    // account_browser_auth_cancel
    | Cancelling(withdrawn: Credential)
    | Returned

  /** The effects that matter for safety, in the order in which they took place. */
  datatype Event =
    | Began(call: nat, client: string)
    | Installed(call: nat, attempt: Attempt)
    | SessionStored(requestId: string, token: string, at: nat)
    | Dropped(requestId: string)
    | CancelTook(client: string)

  datatype State = State(
    record: Record,
    poisoned: bool,
    now: nat,
    calls: seq<Call>,
    log: seq<Event>,
    issued: multiset<Credential>,     // well-formed request ids received by starts
    cancelled: multiset<Credential>,  // remote cancels sent
    retired: multiset<Credential>,    // attempts that a poll used up
    received: multiset<string>,       // well-formed tokens received with a "complete" reply
    revoked: multiset<string>)        // tokens sent for revocation

  datatype Command =
    | StartCommand(client: string, verifier: string)
    | PollCommand(requestId: string)
    | CancelCommand(client: string)

  datatype Move =
    | Proceed                                             // a locked section, or an await whose reply is not used
    | NoReply                                             // network error, "pending", or a reply that is no answer
    | StartReply(requestId: string, accepted: bool)
    | ServerExpired
    | Complete(token: Option<string>, account: bool)
    | Commit(saves: bool)

  datatype Step = Open(command: Command) | Advance(i: nat, move: Move) | Tick | Poison

  /** What one step of one call does; the bookkeeping fields record it. */
  datatype Effect = Effect(
    call: Call,
    record: Record,
    event: Option<Event>,
    issues: Option<Credential>,
    cancels: Option<Credential>,
    retires: Option<Credential>,
    receives: Option<string>,
    revokes: Option<string>)

  const Init := State(Idle, false, 0, [], [], multiset{}, multiset{}, multiset{}, multiset{}, multiset{})

  function CredentialOf(a: Attempt): Credential { Credential(a.requestId, a.verifier) }

  predicate Fresh(s: State, requestId: string) { forall c <- s.issued :: c.requestId != requestId }

  function Become(s: State, call: Call): Effect { Effect(call, s.record, None, None, None, None, None, None) }

  /** A poll takes the pending attempt out of the record. */
  function Retire(s: State, e: Effect, record: Record, event: Event): Effect
    requires s.record.pending.Some?
  {
    e.(record := record, event := Some(event), retires := Some(CredentialOf(s.record.pending.value)))
  }

  /** The first section of each command; a command that is refused there returns at once. */
  function Opened(s: State, i: nat, command: Command): Effect {
    if s.poisoned then Become(s, Returned) else
      match command
      case StartCommand(client, verifier) =>
        if !ValidId(client) then Become(s, Returned) else
          var r := BeginStart(s.record, client);
          var call := if s.record.pending.Some?
            then Displacing(client, r.generation, verifier, CredentialOf(s.record.pending.value))
            else Requesting(client, r.generation, verifier);
          Become(s, call).(record := r, event := Some(Began(i, client)))
      case PollCommand(requestId) =>
        if !ValidId(requestId) then Become(s, Returned) else
          var r := ClaimPoll(s.record, requestId, s.now);
          (match ClaimOutcome(s.record, requestId, s.now)
           case ClaimExpired =>
             Retire(s, Become(s, Returned), r, Dropped(s.record.pending.value.requestId))
           case Claimed(verifier) => Become(s, Asking(Credential(requestId, verifier))).(record := r)
           case _ => Become(s, Returned).(record := r))
      case CancelCommand(client) =>
        if !ValidId(client) || !CancelApplies(s.record, client) then Become(s, Returned) else
          var call := if s.record.pending.Some?
            then Cancelling(CredentialOf(s.record.pending.value)) else Returned;
          Become(s, call).(record := Cancel(s.record, client), event := Some(CancelTook(client)))
  }

  function Sent(s: State, next: Call, credential: Credential): Effect {
    Become(s, next).(cancels := Some(credential))
  }

  function Proceeds(s: State, i: nat): Effect
    requires i < |s.calls|
  {
    match s.calls[i]
    case Displacing(client, generation, verifier, displaced) =>
      Sent(s, Requesting(client, generation, verifier), displaced)
    case Rejecting(client, generation, refused) => Sent(s, Cleaning(client, generation), refused)
    case Cleaning(client, generation) =>
      Become(s, Returned).(record := if s.poisoned then s.record else ClearStart(s.record, client, generation))
    case Installing(generation, attempt) =>
      if !s.poisoned && Installable(s.record, attempt.clientAttemptId, generation) then
        Become(s, Returned).(record := Install(s.record, generation, attempt), event := Some(Installed(i, attempt)))
      else Become(s, Uninstalled(CredentialOf(attempt)))
    case Uninstalled(refused) => Sent(s, Returned, refused)
    case Resetting(c) =>
      Become(s, Returned).(record := if s.poisoned then s.record else ResetPoll(s.record, c.requestId))
    case Clearing(c, surplus) =>
      var e := Become(s, if surplus.Some? then Revoking(surplus.value) else Returned);
      if !s.poisoned && IsPending(s.record, c.requestId)
      then Retire(s, e, ClearAttempt(s.record, c.requestId), Dropped(c.requestId)) else e
    case Revoking(token) => Become(s, Returned).(revokes := Some(token))
    case Cancelling(withdrawn) => Sent(s, Returned, withdrawn)
    case other => Become(s, other)
  }

  function Replied(s: State, c: Call, requestId: string, accepted: bool): Effect
    requires c.Requesting?
  {
    var credential := Credential(requestId, c.verifier);
    if !ValidId(requestId) then Become(s, Cleaning(c.client, c.generation))
    else if !Fresh(s, requestId) then Become(s, c)  // the account service never repeats a request id
    else if accepted then
      var attempt := Attempt(c.client, requestId, c.verifier, s.now + BROWSER_AUTH_TTL, false);
      Become(s, Installing(c.generation, attempt)).(issues := Some(credential))
    else Become(s, Rejecting(c.client, c.generation, credential)).(issues := Some(credential))
  }

  /** What a poll makes of the service's answer. */
  function Answered(s: State, c: Credential, move: Move): Effect {
    match move
    case NoReply => Become(s, Resetting(c))
    case ServerExpired => Become(s, Clearing(c, None))
    case Complete(Some(token), account) =>
      if !ValidToken(token) then Become(s, Clearing(c, None))
      else
        Become(s, if account then Committing(c, token) else Clearing(c, Some(token))).(receives := Some(token))
    case Complete(None, _) => Become(s, Clearing(c, None))
    case _ => Become(s, Asking(c))
  }

  function Committed(s: State, c: Credential, token: string, saves: bool): Effect {
    if s.poisoned then Become(s, Revoking(token)) else
      var r := CommitPoll(s.record, c.requestId);
      match CommitOutcome(s.record, c.requestId, s.now, saves)
      case CancelledOrReplaced => Become(s, Revoking(token)).(record := r)
      case Stored => Retire(s, Become(s, Returned), r, SessionStored(c.requestId, token, s.now))
      case _ => Retire(s, Become(s, Revoking(token)), r, Dropped(c.requestId))
  }

  /** A move that the call is not waiting for leaves it where it is. */
  function Moved(s: State, i: nat, move: Move): Effect
    requires i < |s.calls|
  {
    var call := s.calls[i];
    if move.Proceed? then Proceeds(s, i)
    else if call.Requesting? && move.NoReply? then Become(s, Cleaning(call.client, call.generation))
    else if call.Requesting? && move.StartReply? then Replied(s, call, move.requestId, move.accepted)
    else if call.Asking? then Answered(s, call.credential, move)
    else if call.Committing? && move.Commit? then Committed(s, call.credential, call.token, move.saves)
    else Become(s, call)
  }

  function Add<T>(m: multiset<T>, o: Option<T>): multiset<T> { if o.Some? then m + multiset{o.value} else m }

  function Apply(s: State, i: nat, e: Effect): State
    requires i < |s.calls|
  {
    State(e.record, s.poisoned, s.now, s.calls[i := e.call],
          if e.event.Some? then s.log + [e.event.value] else s.log,
          Add(s.issued, e.issues), Add(s.cancelled, e.cancels), Add(s.retired, e.retires),
          Add(s.received, e.receives), Add(s.revoked, e.revokes))
  }

  /** A new command: it enters the table of calls with nothing done yet. */
  function Entered(s: State): State { s.(calls := s.calls + [Returned]) }

  function Do(s: State, step: Step): State {
    match step
    case Open(command) => Apply(Entered(s), |s.calls|, Opened(s, |s.calls|, command))
    case Advance(i, move) => if i < |s.calls| then Apply(s, i, Moved(s, i, move)) else s
    case Tick => s.(now := s.now + 1)
    case Poison => s.(poisoned := true)
  }

  /** The state a run reaches. */
  function Run(steps: seq<Step>): State {
    if steps == [] then Init else Do(Run(steps[..|steps| - 1]), steps[|steps| - 1])
  }

  // ---------------------------------------------------------------- what calls hold

  /** The sum of a measure over all calls. */
  ghost function Total(calls: seq<Call>, f: Call -> nat): nat {
    if calls == [] then 0 else Total(calls[..|calls| - 1], f) + f(calls[|calls| - 1])
  }

  lemma TotalAppend(calls: seq<Call>, c: Call, f: Call -> nat)
    ensures Total(calls + [c], f) == Total(calls, f) + f(c)
  {
    assert (calls + [c])[..|calls|] == calls;
  }

  lemma {:induction false} TotalReplace(calls: seq<Call>, i: nat, c: Call, f: Call -> nat)
    requires i < |calls|
    ensures Total(calls[i := c], f) + f(calls[i]) == Total(calls, f) + f(c)
    ensures f(calls[i]) <= Total(calls, f)
  {
    var n := |calls| - 1;
    var after := calls[i := c];
    if i < n {
      TotalReplace(calls[..n], i, c, f);
      assert after[..n] == calls[..n][i := c];
    } else {
      assert after[..n] == calls[..n];
    }
    assert Total(after, f) == Total(after[..n], f) + f(after[n]);
  }

  lemma {:induction false} TotalZero(calls: seq<Call>, f: Call -> nat)
    requires forall c <- calls :: f(c) == 0
    ensures Total(calls, f) == 0
  {
    if calls != [] {
      TotalZero(calls[..|calls| - 1], f);
    }
  }

  // ---------------------------------------------------------------- tokens

  /** Does the call hold this token, to store or to revoke it? */
  function HoldsToken(token: string): Call -> nat {
    (c: Call) =>
      if (c.Clearing? && c.surplus == Some(token)) || ((c.Committing? || c.Revoking?) && c.token == token) then 1 else 0
  }

  function TimesStored(log: seq<Event>, token: string): nat {
    if log == [] then 0
    else
      var e := log[|log| - 1];
      TimesStored(log[..|log| - 1], token) + if e.SessionStored? && e.token == token then 1 else 0
  }

  lemma TimesStoredAppend(log: seq<Event>, e: Event, token: string)
    ensures TimesStored(log + [e], token)
         == TimesStored(log, token) + if e.SessionStored? && e.token == token then 1 else 0
  {
    assert (log + [e])[..|log|] == log;
  }

  /** Each receipt of a token is matched by one store, one revocation, or one call that still holds it. */
  ghost predicate TokenAccounted(s: State, token: string) {
    s.received[token] == TimesStored(s.log, token) + s.revoked[token] + Total(s.calls, HoldsToken(token))
  }

  function Ticks<T(==)>(o: Option<T>, x: T): nat { if o == Some(x) then 1 else 0 }

  /** One step of one call keeps the books of a token. */
  predicate TokenBalanced(c: Call, e: Effect, token: string) {
    Ticks(e.receives, token) + HoldsToken(token)(c)
    == HoldsToken(token)(e.call) + Ticks(e.revokes, token)
       + if e.event.Some? && e.event.value.SessionStored? && e.event.value.token == token then 1 else 0
  }

  lemma TokenApply(s: State, i: nat, e: Effect, token: string)
    requires TokenAccounted(s, token) && i < |s.calls| && TokenBalanced(s.calls[i], e, token)
    ensures TokenAccounted(Apply(s, i, e), token)
  {
    var t := Apply(s, i, e);
    TotalReplace(s.calls, i, e.call, HoldsToken(token));
    assert t.received[token] == s.received[token] + Ticks(e.receives, token);
    assert t.revoked[token] == s.revoked[token] + Ticks(e.revokes, token);
    if e.event.Some? {
      TimesStoredAppend(s.log, e.event.value, token);
    } else {
      assert t.log == s.log;
    }
  }

  lemma TokenOpened(s: State, i: nat, command: Command, token: string)
    ensures TokenBalanced(Returned, Opened(s, i, command), token)
  {
  }

  lemma TokenMoved(s: State, i: nat, move: Move, token: string)
    requires i < |s.calls|
    ensures TokenBalanced(s.calls[i], Moved(s, i, move), token)
  {
  }

  lemma TokenStep(s: State, step: Step, token: string)
    requires TokenAccounted(s, token)
    ensures TokenAccounted(Do(s, step), token)
  {
    match step
    case Open(command) =>
      TotalAppend(s.calls, Returned, HoldsToken(token));
      TokenOpened(s, |s.calls|, command, token);
      TokenApply(Entered(s), |s.calls|, Opened(s, |s.calls|, command), token);
    case Advance(i, move) =>
      if i < |s.calls| {
        TokenMoved(s, i, move, token);
        TokenApply(s, i, Moved(s, i, move), token);
      }
    case Tick =>
    case Poison =>
  }

  // ---------------------------------------------------------------- the generation fence

  predicate Opening(c: Call) {
    c.Displacing? || c.Requesting? || c.Rejecting? || c.Cleaning? || c.Installing?
  }

  function ClientOf(c: Call): string
    requires Opening(c)
  {
    if c.Installing? then c.attempt.clientAttemptId else c.client
  }

  function Last(log: seq<Event>): Option<Event> { if log == [] then None else Some(log[|log| - 1]) }

  function LastAfter(log: seq<Event>, e: Effect): Option<Event> { if e.event.Some? then e.event else Last(log) }

  /** The pending attempt is the one that the last event of the log installed. */
  predicate Coupled(r: Record, last: Option<Event>) {
    && (r.pending.Some? <==> last.Some? && last.value.Installed?)
    && (r.pending.Some? ==>
          && last.value.attempt == r.pending.value.(polling := false)
          && r.clientAttemptId == Some(r.pending.value.clientAttemptId))
  }

  /** An unfinished start whose generation is current began with the last event of the log. */
  predicate Current(c: Call, i: nat, r: Record, last: Option<Event>) {
    && (Opening(c) ==>
          && c.generation <= r.generation
          && (c.generation == r.generation ==> last == Some(Began(i, ClientOf(c)))))
    && (c.Installing? ==> !c.attempt.polling)
  }

  ghost predicate Fence(s: State) {
    && Coupled(s.record, Last(s.log))
    && forall i | 0 <= i < |s.calls| :: Current(s.calls[i], i, s.record, Last(s.log))
  }

  /** May the event come right after this log? */
  predicate Follows(log: seq<Event>, e: Event) {
    match e
    case Installed(call, attempt) => Last(log) == Some(Began(call, attempt.clientAttemptId))
    case SessionStored(requestId, _, at) =>
      Last(log).Some? && Last(log).value.Installed?
      && Last(log).value.attempt.requestId == requestId && at < Last(log).value.attempt.expiresAt
    case Dropped(requestId) =>
      Last(log).Some? && Last(log).value.Installed? && Last(log).value.attempt.requestId == requestId
    case _ => true
  }

  ghost predicate Ordered(log: seq<Event>) {
    forall k | 0 <= k < |log| :: Follows(log[..k], log[k])
  }

  /** What one step of one call has to respect. */
  predicate Fenced(s: State, i: nat, e: Effect) {
    && Coupled(e.record, LastAfter(s.log, e))
    && Current(e.call, i, e.record, LastAfter(s.log, e))
    && s.record.generation <= e.record.generation
    && (e.event.None? || s.record.generation < e.record.generation
        || (Last(s.log).Some? && (Last(s.log).value.Installed?
                                  || (Last(s.log).value.Began? && Last(s.log).value.call == i))))
    && (e.event.Some? ==> Follows(s.log, e.event.value))
  }

  lemma FencedOpened(s: State, command: Command)
    requires Fence(s)
    ensures Fenced(s, |s.calls|, Opened(s, |s.calls|, command))
  {
  }

  lemma FencedProceeds(s: State, i: nat)
    requires i < |s.calls| && Coupled(s.record, Last(s.log))
    requires Current(s.calls[i], i, s.record, Last(s.log))
    ensures Fenced(s, i, Proceeds(s, i))
  {
  }

  lemma FencedMoved(s: State, i: nat, move: Move)
    requires i < |s.calls| && Coupled(s.record, Last(s.log))
    requires Current(s.calls[i], i, s.record, Last(s.log))
    ensures Fenced(s, i, Moved(s, i, move))
  {
    hide Proceeds;
    match move
    case Proceed => FencedProceeds(s, i);
    case Commit(saves) =>
    case _ =>
  }

  lemma FenceApply(s: State, i: nat, e: Effect)
    requires Fence(s) && i < |s.calls| && Fenced(s, i, e)
    ensures Fence(Apply(s, i, e))
  {
    var t := Apply(s, i, e);
    assert Last(t.log) == LastAfter(s.log, e);
    forall j | 0 <= j < |t.calls| ensures Current(t.calls[j], j, t.record, Last(t.log)) {
      assert j != i ==> Current(s.calls[j], j, s.record, Last(s.log));
    }
  }

  lemma OrderedAppend(log: seq<Event>, e: Event)
    requires Ordered(log) && Follows(log, e)
    ensures Ordered(log + [e])
  {
    forall k | 0 <= k < |log + [e]| ensures Follows((log + [e])[..k], (log + [e])[k]) {
      assert (log + [e])[..k] == log[..k];
      assert log[..|log|] == log;
    }
  }

  lemma FenceStep(s: State, step: Step)
    requires Fence(s) && Ordered(s.log)
    ensures Fence(Do(s, step)) && Ordered(Do(s, step).log)
  {
    match step
    case Open(command) =>
      var e := Opened(s, |s.calls|, command);
      FencedOpened(s, command);
      FenceApply(Entered(s), |s.calls|, e);
      if e.event.Some? {
        OrderedAppend(s.log, e.event.value);
      }
    case Advance(i, move) =>
      if i < |s.calls| {
        var e := Moved(s, i, move);
        FencedMoved(s, i, move);
        FenceApply(s, i, e);
        if e.event.Some? {
          OrderedAppend(s.log, e.event.value);
        }
      }
    case Tick =>
    case Poison =>
  }

  // ---------------------------------------------------------------- custody of request ids

  /** Is the call about to cancel this credential remotely? */
  function Owes(c: Credential): Call -> nat {
    (call: Call) =>
      if (call.Displacing? && call.displaced == c) || ((call.Rejecting? || call.Uninstalled?) && call.refused == c)
         || (call.Cancelling? && call.withdrawn == c) then 1 else 0
  }

  /** Is the call about to install this credential? */
  function Carries(c: Credential): Call -> nat {
    (call: Call) => if call.Installing? && CredentialOf(call.attempt) == c then 1 else 0
  }

  function InRecord(r: Record, c: Credential): nat {
    if r.pending.Some? && CredentialOf(r.pending.value) == c then 1 else 0
  }

  /** Every issued credential is in exactly one place. */
  ghost predicate InCustody(s: State, c: Credential) {
    s.issued[c] == Total(s.calls, Owes(c)) + Total(s.calls, Carries(c)) + InRecord(s.record, c)
                   + s.cancelled[c] + s.retired[c]
  }

  /** One step of one call keeps the books of a credential. */
  predicate CustodyBalanced(r: Record, call: Call, e: Effect, c: Credential) {
    Ticks(e.issues, c) + Owes(c)(call) + Carries(c)(call) + InRecord(r, c)
    == Owes(c)(e.call) + Carries(c)(e.call) + InRecord(e.record, c) + Ticks(e.cancels, c) + Ticks(e.retires, c)
  }

  lemma CustodyApply(s: State, i: nat, e: Effect, c: Credential)
    requires InCustody(s, c) && i < |s.calls| && CustodyBalanced(s.record, s.calls[i], e, c)
    ensures InCustody(Apply(s, i, e), c)
  {
    var t := Apply(s, i, e);
    TotalReplace(s.calls, i, e.call, Owes(c));
    TotalReplace(s.calls, i, e.call, Carries(c));
    assert t.issued[c] == s.issued[c] + Ticks(e.issues, c);
    assert t.cancelled[c] == s.cancelled[c] + Ticks(e.cancels, c);
    assert t.retired[c] == s.retired[c] + Ticks(e.retires, c);
  }

  lemma CustodyOpened(s: State, command: Command, c: Credential)
    requires Coupled(s.record, Last(s.log))
    ensures CustodyBalanced(s.record, Returned, Opened(s, |s.calls|, command), c)
  {
  }

  lemma CustodyCleans(s: State, i: nat, c: Credential)
    requires i < |s.calls| && Coupled(s.record, Last(s.log)) && s.calls[i].Cleaning?
    requires Current(s.calls[i], i, s.record, Last(s.log))
    ensures CustodyBalanced(s.record, s.calls[i], Proceeds(s, i), c)
  {
  }

  lemma CustodySends(s: State, i: nat, c: Credential)
    requires i < |s.calls| && !s.calls[i].Cleaning? && !s.calls[i].Installing?
    ensures CustodyBalanced(s.record, s.calls[i], Proceeds(s, i), c)
  {
    hide ClearStart, Installable;
  }

  lemma CustodyProceeds(s: State, i: nat, c: Credential)
    requires i < |s.calls| && Coupled(s.record, Last(s.log))
    requires Current(s.calls[i], i, s.record, Last(s.log))
    ensures CustodyBalanced(s.record, s.calls[i], Proceeds(s, i), c)
  {
    hide ClearStart, ClearAttempt, ResetPoll;
    if s.calls[i].Cleaning? {
      CustodyCleans(s, i, c);
    } else if !s.calls[i].Installing? {
      CustodySends(s, i, c);
    }
  }

  lemma CustodyReplied(s: State, i: nat, requestId: string, accepted: bool, c: Credential)
    requires i < |s.calls| && s.calls[i].Requesting?
    ensures CustodyBalanced(s.record, s.calls[i], Replied(s, s.calls[i], requestId, accepted), c)
  {
  }

  lemma CustodyCommitted(s: State, i: nat, saves: bool, c: Credential)
    requires i < |s.calls| && s.calls[i].Committing?
    ensures CustodyBalanced(s.record, s.calls[i], Committed(s, s.calls[i].credential, s.calls[i].token, saves), c)
  {
  }

  lemma CustodyMoved(s: State, i: nat, move: Move, c: Credential)
    requires i < |s.calls| && Coupled(s.record, Last(s.log))
    requires Current(s.calls[i], i, s.record, Last(s.log))
    ensures CustodyBalanced(s.record, s.calls[i], Moved(s, i, move), c)
  {
    hide Proceeds, Replied, Committed, Coupled, Current;
    match move
    case Proceed => CustodyProceeds(s, i, c);
    case StartReply(requestId, accepted) =>
      if s.calls[i].Requesting? {
        CustodyReplied(s, i, requestId, accepted, c);
      }
    case Commit(saves) =>
      if s.calls[i].Committing? {
        CustodyCommitted(s, i, saves, c);
      }
    case _ =>
  }

  lemma CustodyEntered(s: State, c: Credential)
    requires InCustody(s, c)
    ensures InCustody(Entered(s), c)
  {
    TotalAppend(s.calls, Returned, Owes(c));
    TotalAppend(s.calls, Returned, Carries(c));
  }

  lemma CustodyPasses(s: State, t: State, c: Credential)
    requires InCustody(s, c) && t == s.(now := t.now, poisoned := t.poisoned)
    ensures InCustody(t, c)
  {
  }

  lemma CustodyStep(s: State, step: Step, c: Credential)
    requires Fence(s) && InCustody(s, c)
    ensures InCustody(Do(s, step), c)
  {
    hide InCustody, CustodyBalanced, Opened, Moved, Apply, Coupled, Current;
    match step
    case Open(command) =>
      CustodyEntered(s, c);
      CustodyOpened(s, command, c);
      CustodyApply(Entered(s), |s.calls|, Opened(s, |s.calls|, command), c);
    case Advance(i, move) =>
      if i < |s.calls| {
        assert Current(s.calls[i], i, s.record, Last(s.log));
        CustodyMoved(s, i, move, c);
        CustodyApply(s, i, Moved(s, i, move), c);
      }
    case Tick => CustodyPasses(s, Do(s, step), c);
    case Poison => CustodyPasses(s, Do(s, step), c);
  }

  // ---------------------------------------------------------------- one use of every request id

  /** No two issued credentials share a request id. */
  ghost predicate IdsUnique(s: State) {
    forall c, d | c in s.issued && d in s.issued && c.requestId == d.requestId :: c == d
  }

  function TimesInstalled(log: seq<Event>, c: Credential): nat {
    if log == [] then 0
    else
      var e := log[|log| - 1];
      TimesInstalled(log[..|log| - 1], c) + if e.Installed? && CredentialOf(e.attempt) == c then 1 else 0
  }

  lemma TimesInstalledAppend(log: seq<Event>, e: Event, c: Credential)
    ensures TimesInstalled(log + [e], c)
         == TimesInstalled(log, c) + if e.Installed? && CredentialOf(e.attempt) == c then 1 else 0
  {
    assert (log + [e])[..|log|] == log;
  }

  lemma {:induction false} InstalledCounts(log: seq<Event>, k: nat)
    requires k < |log| && log[k].Installed?
    ensures TimesInstalled(log, CredentialOf(log[k].attempt)) >= 1
    ensures forall j | 0 <= j < k && log[j].Installed?
                       && CredentialOf(log[j].attempt) == CredentialOf(log[k].attempt) ::
              TimesInstalled(log, CredentialOf(log[k].attempt)) >= 2
  {
    var n := |log| - 1;
    if k < n {
      assert log[..n][k] == log[k];
      InstalledCounts(log[..n], k);
    } else {
      forall j | 0 <= j < k && log[j].Installed? && CredentialOf(log[j].attempt) == CredentialOf(log[k].attempt)
        ensures TimesInstalled(log, CredentialOf(log[k].attempt)) >= 2
      {
        assert log[..n][j] == log[j];
        InstalledCounts(log[..n], j);
      }
    }
  }

  /** Is the call a poll that has claimed this credential? */
  function Polls(c: Credential): Call -> nat {
    (call: Call) =>
      if (call.Asking? || call.Resetting? || call.Clearing? || call.Committing?) && call.credential == c then 1 else 0
  }

  /**
   The counts behind one credential: how often it was issued and installed, how
   many calls carry it towards installation, how many polls work on it.
   */
  datatype Counts = Counts(issued: nat, installed: nat, carried: nat, polls: nat)

  ghost function CountsOf(s: State, c: Credential): Counts {
    Counts(s.issued[c], TimesInstalled(s.log, c), Total(s.calls, Carries(c)), Total(s.calls, Polls(c)))
  }

  /**
   A credential is installed at most once, at most one poll works on it, and
   the flag of the pending attempt says whether one does.
   */
  predicate InUse(r: Record, poisoned: bool, n: Counts, c: Credential) {
    && n.installed + n.carried <= n.issued <= 1
    && n.polls <= n.installed
    && (InRecord(r, c) == 1 ==> n.installed == 1)
    && (InRecord(r, c) == 1 && !poisoned ==> (r.pending.value.polling <==> n.polls == 1))
  }

  function CountsAfter(n: Counts, call: Call, e: Effect, c: Credential): Counts
    requires Carries(c)(call) <= n.carried && Polls(c)(call) <= n.polls
  {
    Counts(n.issued + Ticks(e.issues, c),
           n.installed + if e.event.Some? && e.event.value.Installed? && CredentialOf(e.event.value.attempt) == c
                         then 1 else 0,
           n.carried - Carries(c)(call) + Carries(c)(e.call),
           n.polls - Polls(c)(call) + Polls(c)(e.call))
  }

  ghost predicate UseKept(s: State, c: Credential) { InUse(s.record, s.poisoned, CountsOf(s, c), c) }

  /** Is the call a poll of another attempt than c's, even if the request id is the same? */
  predicate Impostor(call: Call, c: Credential) {
    (call.Asking? || call.Resetting? || call.Clearing? || call.Committing?)
    && call.credential.requestId == c.requestId && call.credential != c
  }

  lemma UseOpened(s: State, command: Command, n: Counts, c: Credential)
    requires Coupled(s.record, Last(s.log)) && InUse(s.record, s.poisoned, n, c)
    ensures var e := Opened(s, |s.calls|, command);
      InUse(e.record, s.poisoned, CountsAfter(n, Returned, e, c), c)
  {
  }

  lemma UseProceeds(s: State, i: nat, n: Counts, c: Credential)
    requires i < |s.calls| && Coupled(s.record, Last(s.log))
    requires InRecord(s.record, c) == 1 ==> !Impostor(s.calls[i], c)
    requires Current(s.calls[i], i, s.record, Last(s.log))
    requires Carries(c)(s.calls[i]) <= n.carried && Polls(c)(s.calls[i]) <= n.polls
    requires InUse(s.record, s.poisoned, n, c)
    ensures var e := Proceeds(s, i);
      InUse(e.record, s.poisoned, CountsAfter(n, s.calls[i], e, c), c)
  {
  }

  lemma UseCommitted(s: State, i: nat, saves: bool, n: Counts, c: Credential)
    requires i < |s.calls| && Coupled(s.record, Last(s.log))
    requires InRecord(s.record, c) == 1 ==> !Impostor(s.calls[i], c)
    requires s.calls[i].Committing? && Polls(c)(s.calls[i]) <= n.polls
    requires InUse(s.record, s.poisoned, n, c)
    ensures var e := Committed(s, s.calls[i].credential, s.calls[i].token, saves);
      InUse(e.record, s.poisoned, CountsAfter(n, s.calls[i], e, c), c)
  {
  }

  lemma UseReplied(s: State, i: nat, requestId: string, accepted: bool, n: Counts, c: Credential)
    requires i < |s.calls| && s.calls[i].Requesting?
    requires InUse(s.record, s.poisoned, n, c) && (Fresh(s, c.requestId) ==> n.issued == 0)
    ensures var e := Replied(s, s.calls[i], requestId, accepted);
      InUse(e.record, s.poisoned, CountsAfter(n, s.calls[i], e, c), c)
  {
  }

  lemma UseMoved(s: State, i: nat, move: Move, n: Counts, c: Credential)
    requires i < |s.calls| && Coupled(s.record, Last(s.log))
    requires InRecord(s.record, c) == 1 ==> !Impostor(s.calls[i], c)
    requires Current(s.calls[i], i, s.record, Last(s.log))
    requires Carries(c)(s.calls[i]) <= n.carried && Polls(c)(s.calls[i]) <= n.polls
    requires InUse(s.record, s.poisoned, n, c) && (Fresh(s, c.requestId) ==> n.issued == 0)
    ensures var e := Moved(s, i, move);
      InUse(e.record, s.poisoned, CountsAfter(n, s.calls[i], e, c), c)
  {
    hide Proceeds, Replied, Committed, Coupled, Current, Fresh, ValidId;
    match move
    case Proceed => UseProceeds(s, i, n, c);
    case Commit(saves) =>
      if s.calls[i].Committing? {
        UseCommitted(s, i, saves, n, c);
      }
    case StartReply(requestId, accepted) =>
      if s.calls[i].Requesting? {
        UseReplied(s, i, requestId, accepted, n, c);
      }
    case _ =>
  }

  lemma UseApply(s: State, i: nat, e: Effect, c: Credential)
    requires i < |s.calls|
    ensures Carries(c)(s.calls[i]) <= CountsOf(s, c).carried && Polls(c)(s.calls[i]) <= CountsOf(s, c).polls
    ensures CountsOf(Apply(s, i, e), c) == CountsAfter(CountsOf(s, c), s.calls[i], e, c)
  {
    var t := Apply(s, i, e);
    TotalReplace(s.calls, i, e.call, Carries(c));
    TotalReplace(s.calls, i, e.call, Polls(c));
    assert t.issued[c] == s.issued[c] + Ticks(e.issues, c);
    if e.event.Some? {
      TimesInstalledAppend(s.log, e.event.value, c);
    } else {
      assert t.log == s.log;
    }
  }

  /** A poll that works on a request id works on the attempt that is pending under it. */
  lemma NoImpostor(s: State, i: nat, c: Credential)
    requires i < |s.calls| && IdsUnique(s) && InRecord(s.record, c) == 1
    requires forall d :: UseKept(s, d)
    ensures !Impostor(s.calls[i], c)
  {
    var call := s.calls[i];
    if call.Asking? || call.Resetting? || call.Clearing? || call.Committing? {
      var d := call.credential;
      TotalReplace(s.calls, i, call, Polls(d));
      assert UseKept(s, d) && UseKept(s, c);
      assert d in s.issued && c in s.issued;
    }
  }

  lemma UseAdvances(s: State, i: nat, move: Move, c: Credential)
    requires Fence(s) && IdsUnique(s) && i < |s.calls| && forall d :: UseKept(s, d)
    ensures UseKept(Apply(s, i, Moved(s, i, move)), c)
  {
    assert UseKept(s, c);
    assert Current(s.calls[i], i, s.record, Last(s.log));
    if InRecord(s.record, c) == 1 {
      NoImpostor(s, i, c);
    }
    assert Fresh(s, c.requestId) ==> c !in s.issued;
    UseApply(s, i, Moved(s, i, move), c);
    UseMoved(s, i, move, CountsOf(s, c), c);
  }

  lemma UseOpens(s: State, command: Command, c: Credential)
    requires Fence(s) && UseKept(s, c)
    ensures UseKept(Apply(Entered(s), |s.calls|, Opened(s, |s.calls|, command)), c)
  {
    hide Opened, InUse, CountsAfter;
    var e := Opened(s, |s.calls|, command);
    TotalAppend(s.calls, Returned, Carries(c));
    TotalAppend(s.calls, Returned, Polls(c));
    assert CountsOf(Entered(s), c) == CountsOf(s, c);
    UseOpened(s, command, CountsOf(s, c), c);
    UseApply(Entered(s), |s.calls|, e, c);
  }

  lemma UsePasses(s: State, t: State, c: Credential)
    requires UseKept(s, c) && (t == s || t == s.(now := s.now + 1) || t == s.(poisoned := true))
    ensures UseKept(t, c)
  {
  }

  lemma UseStep(s: State, step: Step, c: Credential)
    requires Fence(s) && IdsUnique(s) && forall d :: UseKept(s, d)
    ensures UseKept(Do(s, step), c)
  {
    hide UseKept, Opened, Moved, Apply, Fence, IdsUnique;
    assert UseKept(s, c);
    match step
    case Open(command) => UseOpens(s, command, c);
    case Advance(i, move) =>
      if i < |s.calls| {
        UseAdvances(s, i, move, c);
      }
    case Tick => UsePasses(s, Do(s, step), c);
    case Poison => UsePasses(s, Do(s, step), c);
  }

  lemma IssuesFresh(s: State, i: nat, move: Move)
    requires i < |s.calls|
    ensures var e := Moved(s, i, move); e.issues.Some? ==> Fresh(s, e.issues.value.requestId)
  {
  }

  lemma IdsUniqueApply(s: State, i: nat, e: Effect)
    requires i < |s.calls| && IdsUnique(s) && (e.issues.Some? ==> Fresh(s, e.issues.value.requestId))
    ensures IdsUnique(Apply(s, i, e))
  {
    var t := Apply(s, i, e);
    assert forall c :: c in t.issued ==> c in s.issued || e.issues == Some(c);
  }

  lemma IdsUniqueStep(s: State, step: Step)
    requires IdsUnique(s)
    ensures IdsUnique(Do(s, step))
  {
    match step
    case Open(command) =>
      IdsUniqueApply(Entered(s), |s.calls|, Opened(s, |s.calls|, command));
    case Advance(i, move) =>
      if i < |s.calls| {
        IssuesFresh(s, i, move);
        IdsUniqueApply(s, i, Moved(s, i, move));
      }
    case Tick =>
    case Poison =>
  }

  // ---------------------------------------------------------------- what becomes of an installed attempt

  /** What the event after its installation means for an attempt. */
  ghost predicate Settled(s: State, c: Credential, next: Event) {
    if next.Began? || next.CancelTook? then Total(s.calls, Owes(c)) + s.cancelled[c] >= 1 else s.retired[c] >= 1
  }

  ghost predicate Fate(s: State) {
    forall k | 0 <= k < |s.log| - 1 && s.log[k].Installed? ::
      Settled(s, CredentialOf(s.log[k].attempt), s.log[k + 1])
  }

  /** A debt is only cleared by a cancel, and the step that displaces the pending attempt settles it. */
  ghost predicate FateKept(s: State, call: Call, e: Effect) {
    && (forall c :: Owes(c)(call) <= Owes(c)(e.call) + Ticks(e.cancels, c))
    && (e.event.Some? && s.record.pending.Some? ==>
          var c := CredentialOf(s.record.pending.value);
          if e.event.value.Began? || e.event.value.CancelTook? then Owes(c)(e.call) == 1 else e.retires == Some(c))
  }

  lemma FateOpened(s: State, command: Command)
    ensures FateKept(s, Returned, Opened(s, |s.calls|, command))
  {
  }

  lemma FateMoved(s: State, i: nat, move: Move)
    requires i < |s.calls| && Coupled(s.record, Last(s.log)) && Current(s.calls[i], i, s.record, Last(s.log))
    ensures FateKept(s, s.calls[i], Moved(s, i, move))
  {
    var e := Moved(s, i, move);
    assert forall c :: Owes(c)(s.calls[i]) <= Owes(c)(e.call) + Ticks(e.cancels, c);
  }

  lemma SettledStays(s: State, i: nat, e: Effect, c: Credential, next: Event)
    requires i < |s.calls| && Settled(s, c, next) && Owes(c)(s.calls[i]) <= Owes(c)(e.call) + Ticks(e.cancels, c)
    ensures Settled(Apply(s, i, e), c, next)
  {
    hide Owes;
    var t := Apply(s, i, e);
    TotalReplace(s.calls, i, e.call, Owes(c));
    assert t.cancelled[c] == s.cancelled[c] + Ticks(e.cancels, c);
    assert t.retired[c] == s.retired[c] + Ticks(e.retires, c);
  }

  /** The step that displaces the pending attempt settles it. */
  lemma SettledNow(s: State, i: nat, e: Effect)
    requires i < |s.calls| && FateKept(s, s.calls[i], e) && s.record.pending.Some? && e.event.Some?
    ensures Settled(Apply(s, i, e), CredentialOf(s.record.pending.value), e.event.value)
  {
    var t, c := Apply(s, i, e), CredentialOf(s.record.pending.value);
    TotalReplace(s.calls, i, e.call, Owes(c));
    assert t.cancelled[c] == s.cancelled[c] + Ticks(e.cancels, c);
    assert t.retired[c] == s.retired[c] + Ticks(e.retires, c);
  }

  lemma FateApply(s: State, i: nat, e: Effect)
    requires i < |s.calls| && Fate(s) && Coupled(s.record, Last(s.log)) && FateKept(s, s.calls[i], e)
    ensures Fate(Apply(s, i, e))
  {
    hide Settled, Owes;
    var t := Apply(s, i, e);
    forall k | 0 <= k < |t.log| - 1 && t.log[k].Installed?
      ensures Settled(t, CredentialOf(t.log[k].attempt), t.log[k + 1])
    {
      if k < |s.log| - 1 {
        SettledStays(s, i, e, CredentialOf(s.log[k].attempt), s.log[k + 1]);
      } else {
        SettledNow(s, i, e);
      }
    }
  }

  lemma FateSame(s: State, t: State, e: Effect)
    requires FateKept(s, Returned, e) && t.record == s.record
    ensures FateKept(t, Returned, e)
  {
  }

  lemma FateEntered(s: State)
    requires Fate(s)
    ensures Fate(Entered(s))
  {
    forall k | 0 <= k < |s.log| - 1 && s.log[k].Installed?
      ensures Settled(Entered(s), CredentialOf(s.log[k].attempt), s.log[k + 1])
    {
      TotalAppend(s.calls, Returned, Owes(CredentialOf(s.log[k].attempt)));
      assert Settled(s, CredentialOf(s.log[k].attempt), s.log[k + 1]);
    }
  }

  lemma FatePasses(s: State, t: State)
    requires Fate(s) && t == s.(now := t.now, poisoned := t.poisoned)
    ensures Fate(t)
  {
    forall k | 0 <= k < |s.log| - 1 && s.log[k].Installed?
      ensures Settled(t, CredentialOf(s.log[k].attempt), s.log[k + 1])
    {
      assert Settled(s, CredentialOf(s.log[k].attempt), s.log[k + 1]);
    }
  }

  lemma FateStep(s: State, step: Step)
    requires Fence(s) && Fate(s)
    ensures Fate(Do(s, step))
  {
    hide Fate, FateKept, Opened, Moved, Apply, Coupled, Current;
    match step
    case Open(command) =>
      FateEntered(s);
      FateOpened(s, command);
      FateSame(s, Entered(s), Opened(s, |s.calls|, command));
      FateApply(Entered(s), |s.calls|, Opened(s, |s.calls|, command));
    case Advance(i, move) =>
      if i < |s.calls| {
        assert Current(s.calls[i], i, s.record, Last(s.log));
        FateMoved(s, i, move);
        FateApply(s, i, Moved(s, i, move));
      }
    case _ => FatePasses(s, Do(s, step));
  }

  // ---------------------------------------------------------------- every run

  ghost predicate Inv(s: State) {
    && Fence(s) && Ordered(s.log) && IdsUnique(s) && Fate(s)
    && (forall token :: TokenAccounted(s, token))
    && (forall c :: InCustody(s, c) && UseKept(s, c))
  }

  lemma InvStep(s: State, step: Step)
    requires Inv(s)
    ensures Inv(Do(s, step))
  {
    FenceStep(s, step);
    IdsUniqueStep(s, step);
    FateStep(s, step);
    forall token ensures TokenAccounted(Do(s, step), token) {
      TokenStep(s, step, token);
    }
    forall c ensures InCustody(Do(s, step), c) && UseKept(Do(s, step), c) {
      CustodyStep(s, step, c);
      UseStep(s, step, c);
    }
  }

  lemma {:induction false} InvRun(steps: seq<Step>)
    ensures Inv(Run(steps))
  {
    if steps != [] {
      InvRun(steps[..|steps| - 1]);
      InvStep(Run(steps[..|steps| - 1]), steps[|steps| - 1]);
    }
  }

  /** An attempt is installed once, and so is every request id. */
  lemma SameInstallation(s: State, j: nat, k: nat)
    requires Inv(s) && j < |s.log| && k < |s.log| && s.log[j].Installed? && s.log[k].Installed?
    requires s.log[j].attempt.requestId == s.log[k].attempt.requestId
    ensures j == k
  {
    var c, d := CredentialOf(s.log[j].attempt), CredentialOf(s.log[k].attempt);
    InstalledCounts(s.log, j);
    InstalledCounts(s.log, k);
    assert UseKept(s, c) && UseKept(s, d);
    assert c in s.issued && d in s.issued;
  }

  /** The two events right before a store. */
  lemma StorePredecessors(log: seq<Event>, k: nat)
    requires Ordered(log) && k < |log| && log[k].SessionStored?
    ensures k >= 2 && log[k - 1].Installed? && log[k - 1].attempt.requestId == log[k].requestId
    ensures log[k].at < log[k - 1].attempt.expiresAt
    ensures log[k - 2] == Began(log[k - 1].call, log[k - 1].attempt.clientAttemptId)
  {
    assert Follows(log[..k], log[k]);
    assert Last(log[..k]) == Some(log[k - 1]);
    assert Follows(log[..k - 1], log[k - 1]);
    assert Last(log[..k - 1]) == Some(log[k - 2]);
  }

  /**
   The store at position k is for the attempt that the most recent start
   installed: nothing but that installation separates the store from the start,
   so no cancel lies between; the deadline has not passed; and no other store is
   made for the same request id.
   */
  ghost predicate StoreFenced(log: seq<Event>, k: nat)
    requires k < |log| && log[k].SessionStored?
  {
    && k >= 2 && log[k - 1].Installed?
    && log[k - 1].attempt.requestId == log[k].requestId && log[k].at < log[k - 1].attempt.expiresAt
    && log[k - 2] == Began(log[k - 1].call, log[k - 1].attempt.clientAttemptId)
    && forall j | 0 <= j < |log| && log[j].SessionStored? && log[j].requestId == log[k].requestId :: j == k
  }

  lemma StoresFenced(s: State, k: nat)
    requires Inv(s) && k < |s.log| && s.log[k].SessionStored?
    ensures StoreFenced(s.log, k)
  {
    var log := s.log;
    StorePredecessors(log, k);
    forall j | 0 <= j < |log| && log[j].SessionStored? && log[j].requestId == log[k].requestId ensures j == k {
      StorePredecessors(log, j);
      SameInstallation(s, j - 1, k - 1);
    }
  }

  lemma StoreIsFenced(steps: seq<Step>, k: nat)
    requires k < |Run(steps).log| && Run(steps).log[k].SessionStored?
    ensures StoreFenced(Run(steps).log, k)
  {
    var s := Run(steps);
    InvRun(steps);
    StoresFenced(s, k);
  }

  /**
   Each request id a start obtained is in exactly one place: held by the start
   that will install it, pending, owed a remote cancel, cancelled, or used up.
   */
  lemma RequestInOnePlace(steps: seq<Step>, c: Credential)
    ensures var s := Run(steps);
      && s.issued[c] <= 1
      && s.issued[c] == Total(s.calls, Carries(c)) + InRecord(s.record, c) + Total(s.calls, Owes(c))
                        + s.cancelled[c] + s.retired[c]
  {
    InvRun(steps);
    assert InCustody(Run(steps), c) && UseKept(Run(steps), c);
  }

  /** An installed attempt that a later start or a cancel displaces gets exactly one remote cancel. */
  lemma DisplacedIsCancelledOnce(steps: seq<Step>, k: nat)
    requires var log := Run(steps).log;
      k + 1 < |log| && log[k].Installed? && (log[k + 1].Began? || log[k + 1].CancelTook?)
    ensures var s := Run(steps); var c := CredentialOf(s.log[k].attempt);
      && s.cancelled[c] + Total(s.calls, Owes(c)) == 1
      && s.retired[c] == 0
      && ((forall call <- s.calls :: call.Returned?) ==> s.cancelled[c] == 1)
  {
    var s := Run(steps);
    var c := CredentialOf(s.log[k].attempt);
    InvRun(steps);
    RequestInOnePlace(steps, c);
    assert Settled(s, c, s.log[k + 1]);
    if forall call <- s.calls :: call.Returned? {
      TotalZero(s.calls, Owes(c));
    }
  }

  /** The cleanup of a failed start never takes an installed attempt away. */
  lemma CleanupKeepsPending(steps: seq<Step>, i: nat)
    requires i < |Run(steps).calls| && Run(steps).calls[i].Cleaning?
    ensures Do(Run(steps), Advance(i, Proceed)).record.pending == Run(steps).record.pending
  {
    InvRun(steps);
    var s := Run(steps);
    assert Current(s.calls[i], i, s.record, Last(s.log));
    assert Moved(s, i, Proceed) == Proceeds(s, i);
  }

  /**
   While the mutex works, the flag of the pending attempt is set exactly when one poll
   in flight works on it; with or without the mutex, no two polls ever work on
   the same attempt.
   */
  lemma PollingFlagIsExact(steps: seq<Step>, c: Credential)
    ensures var s := Run(steps);
      && Total(s.calls, Polls(c)) <= 1
      && (s.record.pending.Some? && CredentialOf(s.record.pending.value) == c && !s.poisoned ==>
            (s.record.pending.value.polling <==> Total(s.calls, Polls(c)) == 1))
  {
    InvRun(steps);
    assert UseKept(Run(steps), c);
  }

  lemma RunOn(steps: seq<Step>, step: Step)
    ensures Run(steps + [step]) == Do(Run(steps), step)
  {
    assert (steps + [step])[..|steps|] == steps;
  }

  lemma PoisonedProceeds(s: State, i: nat)
    requires s.poisoned && i < |s.calls|
    ensures Proceeds(s, i).record == s.record
  {
  }

  lemma PoisonedMove(s: State, i: nat, move: Move)
    requires s.poisoned && i < |s.calls|
    ensures Moved(s, i, move).record == s.record
  {
    hide Proceeds, CommitOutcome, CommitPoll, ValidId, ValidToken, Fresh;
    if move.Proceed? {
      PoisonedProceeds(s, i);
    }
  }

  /** Once the mutex is poisoned no step changes the record. */
  lemma PoisonFreezes(s: State, step: Step)
    requires s.poisoned
    ensures Do(s, step).poisoned && Do(s, step).record == s.record
  {
    hide Moved, ValidId, BeginStart, ClaimPoll, ClaimOutcome, Cancel, CancelApplies, Add;
    if step.Advance? && step.i < |s.calls| {
      PoisonedMove(s, step.i, step.move);
    }
  }

  lemma {:induction false} RecordIsFrozen(steps: seq<Step>, more: seq<Step>)
    requires Run(steps).poisoned
    ensures Run(steps + more).poisoned && Run(steps + more).record == Run(steps).record
    decreases |more|
  {
    hide Do, Init;
    if more == [] {
      assert steps + more == steps;
    } else {
      var rest, last := more[..|more| - 1], more[|more| - 1];
      RecordIsFrozen(steps, rest);
      assert steps + more == steps + rest + [last];
      RunOn(steps + rest, last);
      PoisonFreezes(Run(steps + rest), last);
    }
  }

  /** A poll in flight works on the pending attempt. */
  predicate PollInFlight(s: State) {
    && s.record.pending.Some?
    && exists i | 0 <= i < |s.calls| :: Polls(CredentialOf(s.record.pending.value))(s.calls[i]) > 0
  }

  /** Is the flag of a pending attempt set? */
  predicate FlagSet(s: State) { s.record.pending.Some? && s.record.pending.value.polling }

  lemma {:induction false} TotalSeen(calls: seq<Call>, f: Call -> nat)
    ensures Total(calls, f) > 0 <==> exists i | 0 <= i < |calls| :: f(calls[i]) > 0
  {
    if calls != [] {
      var init := calls[..|calls| - 1];
      TotalSeen(init, f);
      if Total(init, f) > 0 {
        var i :| 0 <= i < |init| && f(init[i]) > 0;
        assert f(calls[i]) > 0;
      }
      if exists i | 0 <= i < |calls| :: f(calls[i]) > 0 {
        var i :| 0 <= i < |calls| && f(calls[i]) > 0;
        assert i < |init| ==> init[i] == calls[i];
      }
    }
  }

  lemma FlagBeforePoison(steps: seq<Step>)
    requires !Run(steps).poisoned
    ensures FlagSet(Run(steps)) <==> PollInFlight(Run(steps))
  {
    var s := Run(steps);
    if s.record.pending.Some? {
      var c := CredentialOf(s.record.pending.value);
      PollingFlagIsExact(steps, c);
      TotalSeen(s.calls, Polls(c));
    }
  }

  /**
   After the mutex was poisoned the flag is set, for good, exactly when a poll was
   in flight on the pending attempt at that moment, whatever happens afterwards.
   */
  lemma FlagSticksExactly(steps: seq<Step>, more: seq<Step>)
    requires !Run(steps).poisoned
    ensures FlagSet(Run(steps + [Poison] + more)) <==> PollInFlight(Run(steps))
  {
    FlagBeforePoison(steps);
    RunOn(steps, Poison);
    RecordIsFrozen(steps + [Poison], more);
  }

  /** What one command has become of, and the record behind it, in a run of few commands. */
  predicate Stands(s: State, poisoned: bool, calls: seq<Call>, record: Record) {
    s.poisoned == poisoned && s.calls == calls && s.record == record && s.now == 0
  }

  lemma StartOpens(client: string, verifier: string)
    requires ValidId(client)
    ensures var s := Run([Open(StartCommand(client, verifier))]);
      Stands(s, false, [Requesting(client, 1, verifier)], BeginStart(Idle, client)) && s.issued == multiset{}
  {
    hide ValidId;
    assert Run([]) == Init;
    RunOn([], Open(StartCommand(client, verifier)));
    assert [] + [Open(StartCommand(client, verifier))] == [Open(StartCommand(client, verifier))];
  }

  lemma ReplyComes(s: State, client: string, requestId: string, verifier: string)
    requires ValidId(requestId) && s.issued == multiset{}
    requires Stands(s, false, [Requesting(client, 1, verifier)], BeginStart(Idle, client))
    ensures var attempt := Attempt(client, requestId, verifier, BROWSER_AUTH_TTL, false);
      Stands(Do(s, Advance(0, StartReply(requestId, true))), false, [Installing(1, attempt)], BeginStart(Idle, client))
  {
    hide ValidId, Proceeds, Answered, Committed;
  }

  lemma AttemptInstalls(s: State, client: string, attempt: Attempt)
    requires attempt.clientAttemptId == client
    requires Stands(s, false, [Installing(1, attempt)], BeginStart(Idle, client))
    ensures Stands(Do(s, Advance(0, Proceed)), false, [Returned], Record(1, Some(client), Some(attempt)))
  {
    hide Answered, Committed, Replied, Add, ClearStart, ClearAttempt, ValidId;
  }

  lemma PollOpens(s: State, client: string, attempt: Attempt)
    requires ValidId(attempt.requestId) && attempt.expiresAt > 0 && !attempt.polling
    requires Stands(s, false, [Returned], Record(1, Some(client), Some(attempt)))
    ensures Stands(Do(s, Open(PollCommand(attempt.requestId))), false,
                   [Returned, Asking(Credential(attempt.requestId, attempt.verifier))],
                   Record(1, Some(client), Some(attempt.(polling := true))))
  {
    hide ValidId, Moved;
  }

  /** A start that has installed its attempt, and a poll that has claimed it. */
  lemma PollClaims(client: string, requestId: string, verifier: string) returns (steps: seq<Step>)
    requires ValidId(client) && ValidId(requestId)
    ensures Stands(Run(steps), false, [Returned, Asking(Credential(requestId, verifier))],
                   Record(1, Some(client), Some(Attempt(client, requestId, verifier, BROWSER_AUTH_TTL, true))))
  {
    hide Do, Run, ValidId, Stands, BeginStart;
    var attempt := Attempt(client, requestId, verifier, BROWSER_AUTH_TTL, false);
    steps := [Open(StartCommand(client, verifier))];
    StartOpens(client, verifier);
    ReplyComes(Run(steps), client, requestId, verifier);
    RunOn(steps, Advance(0, StartReply(requestId, true)));
    steps := steps + [Advance(0, StartReply(requestId, true))];
    AttemptInstalls(Run(steps), client, attempt);
    RunOn(steps, Advance(0, Proceed));
    steps := steps + [Advance(0, Proceed)];
    PollOpens(Run(steps), client, attempt);
    RunOn(steps, Open(PollCommand(requestId)));
    steps := steps + [Open(PollCommand(requestId))];
  }

  lemma PoisonStrikes(s: State, calls: seq<Call>, record: Record)
    requires Stands(s, false, calls, record)
    ensures Stands(Do(s, Poison), true, calls, record)
  {
  }

  lemma ReplyIsLost(s: State, c: Credential, record: Record)
    requires Stands(s, true, [Returned, Asking(c)], record)
    ensures Stands(Do(s, Advance(1, NoReply)), true, [Returned, Resetting(c)], record)
  {
    hide Proceeds, Committed, Replied;
  }

  lemma ResetFails(s: State, c: Credential, record: Record)
    requires Stands(s, true, [Returned, Resetting(c)], record)
    ensures Stands(Do(s, Advance(1, Proceed)), true, [Returned, Returned], record)
  {
    hide Answered, Committed, Replied, Add, ClearStart, ClearAttempt, ValidId;
  }

  /** A run after which no command is under way and the flag is still set. */
  lemma FlagCanStick(client: string, requestId: string, verifier: string) returns (steps: seq<Step>)
    requires ValidId(client) && ValidId(requestId)
    ensures FlagSet(Run(steps)) && Run(steps).calls == [Returned, Returned]
  {
    hide Do, Run, ValidId;
    steps := PollClaims(client, requestId, verifier);
    var c := Credential(requestId, verifier);
    var record := Record(1, Some(client), Some(Attempt(client, requestId, verifier, BROWSER_AUTH_TTL, true)));
    PoisonStrikes(Run(steps), [Returned, Asking(c)], record);
    RunOn(steps, Poison);
    steps := steps + [Poison];
    ReplyIsLost(Run(steps), c, record);
    RunOn(steps, Advance(1, NoReply));
    steps := steps + [Advance(1, NoReply)];
    ResetFails(Run(steps), c, record);
    RunOn(steps, Advance(1, Proceed));
    steps := steps + [Advance(1, Proceed)];
  }

  /** Each receipt of a token is matched by exactly one store or revocation, or one call still holds it. */
  lemma TokenDisposedOnce(steps: seq<Step>, token: string)
    ensures var s := Run(steps);
      && s.received[token] == TimesStored(s.log, token) + s.revoked[token] + Total(s.calls, HoldsToken(token))
      && ((forall call <- s.calls :: call.Returned?) ==>
            s.received[token] == TimesStored(s.log, token) + s.revoked[token])
  {
    InvRun(steps);
    var s := Run(steps);
    assert TokenAccounted(s, token);
    if forall call <- s.calls :: call.Returned? {
      TotalZero(s.calls, HoldsToken(token));
    }
  }

  /** How many of its own steps a call can still take. */
  function Remaining(c: Call): nat {
    match c
    case Displacing(_, _, _, _) => 4
    case Requesting(_, _, _) => 3
    case Rejecting(_, _, _) => 2
    case Installing(_, _) => 2
    case Asking(_) => 3
    case Clearing(_, _) => 2
    case Committing(_, _) => 2
    case Returned => 0
    case _ => 1
  }

  /** Whatever the other calls do, every step a call takes brings it nearer to its return, four steps away at most. */
  lemma CallsShrink(s: State, i: nat, move: Move)
    requires i < |s.calls|
    ensures var c := Moved(s, i, move).call; c == s.calls[i] || Remaining(c) < Remaining(s.calls[i]) <= 4
  {
  }

  /** A call that has not returned can always take a step. */
  lemma CallsNeverStick(s: State, i: nat) returns (move: Move)
    requires i < |s.calls| && !s.calls[i].Returned?
    ensures Remaining(Moved(s, i, move).call) < Remaining(s.calls[i])
  {
    move := if s.calls[i].Requesting? || s.calls[i].Asking? then NoReply
            else if s.calls[i].Committing? then Commit(true) else Proceed;
  }
}
