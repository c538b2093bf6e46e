/**
 What the steps of a login come to, said of the fields of the record, and a
 login that succeeds.
 */
module BrowserAuthOutcomes {
  import opened Options
  import opened BrowserAuthRecord
  import opened BrowserAuthProtocol

  /** Thirty-two digits of lower-case hexadecimal. */
  predicate HexId(id: string) { |id| == 32 && forall i | 0 <= i < |id| :: id[i] in "0123456789abcdef" }

  /** Sixty-four digits of hexadecimal in either case. */
  predicate HexToken(token: string) {
    |token| == 64 && forall i | 0 <= i < |token| :: token[i] in "0123456789abcdefABCDEF"
  }

  lemma DigitsOfIds(c: char)
    ensures LowerHex(c) <==> c in "0123456789abcdef"
    ensures LowerHex(c) || 'A' <= c <= 'F' <==> c in "0123456789abcdefABCDEF"
  {
    if '0' <= c <= '9' {
      assert "0123456789abcdef"[c as int - '0' as int] == c && "0123456789abcdefABCDEF"[c as int - '0' as int] == c;
    } else if 'a' <= c <= 'f' {
      assert "0123456789abcdef"[10 + (c as int - 'a' as int)] == c;
      assert "0123456789abcdefABCDEF"[10 + (c as int - 'a' as int)] == c;
    } else if 'A' <= c <= 'F' {
      assert "0123456789abcdefABCDEF"[16 + (c as int - 'A' as int)] == c;
    }
  }

  lemma IdsAreHex(id: string)
    ensures ValidId(id) <==> HexId(id)
    ensures ValidToken(id) <==> HexToken(id)
  {
    forall i | 0 <= i < |id|
      ensures LowerHex(id[i]) <==> id[i] in "0123456789abcdef"
      ensures LowerHex(id[i]) || 'A' <= id[i] <= 'F' <==> id[i] in "0123456789abcdefABCDEF"
    {
      DigitsOfIds(id[i]);
    }
  }

  // ---------------------------------------------------------------- the state after one step

  function Logged(s: State, e: Effect): seq<Event> { if e.event.Some? then s.log + [e.event.value] else s.log }

  lemma OpenedState(s: State, command: Command)
    ensures var t, e := Do(s, Open(command)), Opened(s, |s.calls|, command);
      t.record == e.record && t.log == Logged(s, e) && t.calls == s.calls + [e.call]
  {
    hide Opened, Add;
    assert (s.calls + [Returned])[|s.calls| := Opened(s, |s.calls|, command).call]
        == s.calls + [Opened(s, |s.calls|, command).call];
  }

  lemma AdvancedState(s: State, i: nat, move: Move)
    requires i < |s.calls|
    ensures var t, e := Do(s, Advance(i, move)), Moved(s, i, move);
      && t.record == e.record && t.log == Logged(s, e) && t.calls == s.calls[i := e.call]
      && t.issued == Add(s.issued, e.issues) && t.cancelled == Add(s.cancelled, e.cancels)
      && t.received == Add(s.received, e.receives) && t.revoked == Add(s.revoked, e.revokes)
      && t.now == s.now && t.poisoned == s.poisoned
  {
    hide Moved, Add;
  }

  // ---------------------------------------------------------------- when a session is stored

  /** The attempt of this request is pending, a poll is under way and its client is the current one. */
  predicate Wanted(r: Record, requestId: string) {
    && r.pending.Some? && r.pending.value.requestId == requestId && r.pending.value.polling
    && r.clientAttemptId == Some(r.pending.value.clientAttemptId)
  }

  lemma CommitMeans(s: State, i: nat, saves: bool)
    requires i < |s.calls| && s.calls[i].Committing?
    ensures var id, token, e := s.calls[i].credential.requestId, s.calls[i].token, Moved(s, i, Commit(saves));
      var wanted := !s.poisoned && Wanted(s.record, id);
      var stores := wanted && s.now < s.record.pending.value.expiresAt && saves;
      && e.event == (if stores then Some(SessionStored(id, token, s.now))
                     else if wanted then Some(Dropped(id)) else None)
      && e.call == (if stores then Returned else Revoking(token))
      && e.record == (if wanted then Record(s.record.generation, None, None) else s.record)
  {
    hide Proceeds, Replied, Answered;
  }

  /**
   A commit stores the session if and only if its attempt is still wanted, the
   deadline has not come and the write succeeds; in every other case the token
   goes on to be revoked.
   */
  lemma CommitStoresExactly(s: State, i: nat, saves: bool)
    requires i < |s.calls| && s.calls[i].Committing?
    ensures var id, token, t := s.calls[i].credential.requestId, s.calls[i].token, Do(s, Advance(i, Commit(saves)));
      var wanted := !s.poisoned && Wanted(s.record, id);
      var stores := wanted && s.now < s.record.pending.value.expiresAt && saves;
      && t.log == (if stores then s.log + [SessionStored(id, token, s.now)]
                   else if wanted then s.log + [Dropped(id)] else s.log)
      && t.calls == s.calls[i := if stores then Returned else Revoking(token)]
      && t.record == (if wanted then Record(s.record.generation, None, None) else s.record)
  {
    hide Wanted, Moved, Do;
    CommitMeans(s, i, saves);
    AdvancedState(s, i, Commit(saves));
  }

  /**
   In a run the flag and the client take care of themselves: the session is stored
   if and only if the attempt is still pending in time and the write succeeds.
   */
  lemma StoredExactly(steps: seq<Step>, i: nat, saves: bool)
    requires i < |Run(steps).calls| && Run(steps).calls[i].Committing?
    ensures var s := Run(steps); var id, token := s.calls[i].credential.requestId, s.calls[i].token;
      var stores := && !s.poisoned && s.record.pending.Some? && s.record.pending.value.requestId == id
                    && s.now < s.record.pending.value.expiresAt && saves;
      var t := Do(s, Advance(i, Commit(saves)));
      && t.calls == s.calls[i := if stores then Returned else Revoking(token)]
      && (stores ==> t.log == s.log + [SessionStored(id, token, s.now)])
      && (!stores ==> t.log == s.log || t.log == s.log + [Dropped(id)])
  {
    hide Run, Do;
    var s := Run(steps);
    CommitStoresExactly(s, i, saves);
    if s.record.pending.Some? && s.record.pending.value.requestId == s.calls[i].credential.requestId && !s.poisoned {
      InvRun(steps);
      PollOfPendingIsWanted(s, i);
    }
  }

  /** A call that commits works on the pending attempt of its request id, whose flag is set. */
  lemma PollOfPendingIsWanted(s: State, i: nat)
    requires Inv(s) && !s.poisoned && i < |s.calls| && s.calls[i].Committing?
    requires s.record.pending.Some? && s.record.pending.value.requestId == s.calls[i].credential.requestId
    ensures Wanted(s.record, s.calls[i].credential.requestId)
  {
    var c := CredentialOf(s.record.pending.value);
    NoImpostor(s, i, c);
    TotalReplace(s.calls, i, s.calls[i], Polls(c));
    assert UseKept(s, c);
  }

  // ---------------------------------------------------------------- starts, polls and cancels

  /** A start that has its valid client id takes the record over and hands out what it displaces. */
  lemma StartTakesOver(s: State, client: string, verifier: string)
    ensures var t, g := Do(s, Open(StartCommand(client, verifier))), s.record.generation + 1;
      if s.poisoned || !HexId(client) then t.calls == s.calls + [Returned] && t.record == s.record && t.log == s.log
      else
        && t.record == Record(g, Some(client), None) && t.log == s.log + [Began(|s.calls|, client)]
        && t.calls == s.calls + [
             if s.record.pending.None? then Requesting(client, g, verifier)
             else Displacing(client, g, verifier,
                             Credential(s.record.pending.value.requestId, s.record.pending.value.verifier))]
  {
    IdsAreHex(client);
    OpenedState(s, StartCommand(client, verifier));
    hide ValidId, HexId, Do;
  }

  /** An attempt is installed exactly for the start that is still the current one; otherwise it is cancelled. */
  lemma InstalledExactly(s: State, i: nat)
    requires i < |s.calls| && s.calls[i].Installing?
    ensures var t, attempt := Do(s, Advance(i, Proceed)), s.calls[i].attempt;
      var current := && !s.poisoned && s.record.generation == s.calls[i].generation
                     && s.record.clientAttemptId == Some(attempt.clientAttemptId);
      && t.record == (if current then s.record.(pending := Some(attempt)) else s.record)
      && t.log == (if current then s.log + [Installed(i, attempt)] else s.log)
      && t.calls == s.calls[i := if current then Returned
                                 else Uninstalled(Credential(attempt.requestId, attempt.verifier))]
  {
    AdvancedState(s, i, Proceed);
    hide Answered, Committed, Replied, Add, Do;
  }

  /** A poll asks exactly where the pending attempt is its own, in time and polled by nobody else. */
  lemma PollAsksExactly(s: State, requestId: string)
    ensures var t, pending := Do(s, Open(PollCommand(requestId))), s.record.pending;
      var idle := t.calls == s.calls + [Returned] && t.record == s.record && t.log == s.log;
      if s.poisoned || !HexId(requestId) || pending.None? then idle
      else if pending.value.expiresAt <= s.now then
        && t.record == Record(s.record.generation, None, None) && t.calls == s.calls + [Returned]
        && t.log == s.log + [Dropped(pending.value.requestId)]
      else if pending.value.requestId != requestId || pending.value.polling then idle
      else
        && t.record == s.record.(pending := Some(pending.value.(polling := true)))
        && t.calls == s.calls + [Asking(Credential(requestId, pending.value.verifier))] && t.log == s.log
  {
    IdsAreHex(requestId);
    OpenedState(s, PollCommand(requestId));
    hide ValidId, HexId, Do;
  }

  /** A cancel that names the current client takes start and attempt away under a new generation. */
  lemma CancelTakesExactly(s: State, client: string)
    ensures var t, pending := Do(s, Open(CancelCommand(client))), s.record.pending;
      if s.poisoned || !HexId(client) || s.record.clientAttemptId != Some(client)
      then t.calls == s.calls + [Returned] && t.record == s.record && t.log == s.log
      else
        && t.record == Record(s.record.generation + 1, None, None) && t.log == s.log + [CancelTook(client)]
        && t.calls == s.calls + [if pending.None? then Returned
                                 else Cancelling(Credential(pending.value.requestId, pending.value.verifier))]
  {
    IdsAreHex(client);
    OpenedState(s, CancelCommand(client));
    hide ValidId, HexId, Do;
  }

  // ---------------------------------------------------------------- answers of the account service

  lemma ReplyMeans(s: State, i: nat, requestId: string, accepted: bool)
    requires i < |s.calls| && s.calls[i].Requesting? && forall c <- s.issued :: c.requestId != requestId
    ensures var e, call := Moved(s, i, StartReply(requestId, accepted)), s.calls[i];
      && e.record == s.record && e.event == None && e.cancels == None && e.receives == None && e.revokes == None
      && e.issues == (if HexId(requestId) then Some(Credential(requestId, call.verifier)) else None)
      && e.call ==
           if !HexId(requestId) then Cleaning(call.client, call.generation)
           else if accepted then
             Installing(call.generation, Attempt(call.client, requestId, call.verifier, s.now + 600, false))
           else Rejecting(call.client, call.generation, Credential(requestId, call.verifier))
  {
    IdsAreHex(requestId);
    hide ValidId, HexId, Proceeds, Answered, Committed;
  }

  /** What a start makes of the reply: an attempt with ten minutes to live, or a refusal that is cancelled. */
  lemma ReplyOpensAttempt(s: State, i: nat, requestId: string, accepted: bool)
    requires i < |s.calls| && s.calls[i].Requesting? && forall c <- s.issued :: c.requestId != requestId
    ensures var t, call := Do(s, Advance(i, StartReply(requestId, accepted))), s.calls[i];
      && t.record == s.record && t.log == s.log
      && t.issued == (if HexId(requestId) then s.issued + multiset{Credential(requestId, call.verifier)} else s.issued)
      && t.calls == s.calls[i :=
           if !HexId(requestId) then Cleaning(call.client, call.generation)
           else if accepted then
             Installing(call.generation, Attempt(call.client, requestId, call.verifier, s.now + 600, false))
           else Rejecting(call.client, call.generation, Credential(requestId, call.verifier))]
  {
    hide HexId, Moved, Do;
    ReplyMeans(s, i, requestId, accepted);
    AdvancedState(s, i, StartReply(requestId, accepted));
  }

  lemma AnswerMeans(s: State, i: nat, move: Move)
    requires i < |s.calls| && s.calls[i].Asking? && (move.NoReply? || move.ServerExpired? || move.Complete?)
    ensures var e, c := Moved(s, i, move), s.calls[i].credential;
      var good := move.Complete? && move.token.Some? && HexToken(move.token.value);
      && e.record == s.record && e.event == None && e.receives == (if good then move.token else None)
      && e.call ==
           if move.NoReply? then Resetting(c)
           else if good && move.account then Committing(c, move.token.value)
           else Clearing(c, if good then Some(move.token.value) else None)
  {
    if move.Complete? && move.token.Some? {
      IdsAreHex(move.token.value);
    }
    hide ValidToken, HexToken, Proceeds, Replied, Committed;
  }

  /** What a poll makes of its answer: only a well-formed token for a known account is committed. */
  lemma AnswerIsUsed(s: State, i: nat, move: Move)
    requires i < |s.calls| && s.calls[i].Asking? && (move.NoReply? || move.ServerExpired? || move.Complete?)
    ensures var t, c := Do(s, Advance(i, move)), s.calls[i].credential;
      var good := move.Complete? && move.token.Some? && HexToken(move.token.value);
      && t.record == s.record && t.log == s.log
      && t.received == (if good then s.received + multiset{move.token.value} else s.received)
      && t.calls == s.calls[i :=
           if move.NoReply? then Resetting(c)
           else if good && move.account then Committing(c, move.token.value)
           else Clearing(c, if good then Some(move.token.value) else None)]
  {
    hide HexToken, Moved, Do;
    AnswerMeans(s, i, move);
    AdvancedState(s, i, move);
  }

  function Onwards(call: Call): Call {
    match call
    case Displacing(client, generation, verifier, _) => Requesting(client, generation, verifier)
    case Rejecting(client, generation, _) => Cleaning(client, generation)
    case Clearing(_, Some(token)) => Revoking(token)
    case Requesting(_, _, _) => call
    case Asking(_) => call
    case Committing(_, _) => call
    case _ => Returned
  }

  /** What a call still owes the account service. */
  function Owed(call: Call): Option<Credential> {
    match call
    case Displacing(_, _, _, c) => Some(c)
    case Rejecting(_, _, c) => Some(c)
    case Uninstalled(c) => Some(c)
    case Cancelling(c) => Some(c)
    case _ => None
  }

  lemma ProceedMeans(s: State, i: nat)
    requires i < |s.calls| && !s.calls[i].Installing?
    ensures var e, call := Moved(s, i, Proceed), s.calls[i];
      && e.call == Onwards(call) && e.cancels == Owed(call)
      && e.revokes == if call.Revoking? then Some(call.token) else None
  {
    hide Answered, Committed, Replied, ClearStart, ClearAttempt, ResetPoll;
  }

  /** What a call does next when it waits for nothing; what is owed is sent, and a token is revoked. */
  lemma ProceedsOn(s: State, i: nat)
    requires i < |s.calls| && !s.calls[i].Installing?
    ensures var t, call := Do(s, Advance(i, Proceed)), s.calls[i];
      && t.calls == s.calls[i := Onwards(call)]
      && t.cancelled == (if Owed(call).Some? then s.cancelled + multiset{Owed(call).value} else s.cancelled)
      && t.revoked == (if call.Revoking? then s.revoked + multiset{call.token} else s.revoked)
  {
    hide Moved, Do, Onwards, Owed;
    ProceedMeans(s, i);
    AdvancedState(s, i, Proceed);
  }

  /** The sections that clean up touch the record only where it is still theirs. */
  lemma CleanupTouchesOwn(s: State, i: nat)
    requires i < |s.calls| && (s.calls[i].Cleaning? || s.calls[i].Resetting? || s.calls[i].Clearing?)
    ensures var t, call, r := Do(s, Advance(i, Proceed)), s.calls[i], s.record;
      t.record ==
        if s.poisoned then r
        else if call.Cleaning? then
          if r.generation == call.generation && r.clientAttemptId == Some(call.client)
          then Record(r.generation, None, None) else r
        else if r.pending.None? || r.pending.value.requestId != call.credential.requestId then r
        else if call.Resetting? then r.(pending := Some(r.pending.value.(polling := false)))
        else Record(r.generation + 1, None, None)
  {
    AdvancedState(s, i, Proceed);
    hide Answered, Committed, Replied, Add, Do;
  }

  /** Time passes and the mutex is poisoned without anything else happening; a call that is not there does nothing. */
  lemma NothingElseHappens(s: State, i: nat, move: Move)
    ensures Do(s, Tick) == s.(now := s.now + 1) && Do(s, Poison) == s.(poisoned := true)
    ensures i >= |s.calls| ==> Do(s, Advance(i, move)) == s
  {
  }

  // ---------------------------------------------------------------- a login that succeeds

  lemma RunNext(steps: seq<Step>, step: Step)
    ensures Run(steps + [step]) == Do(Run(steps), step)
  {
    RunOn(steps, step);
  }

  /** The reply with the token, and the commit. */
  lemma PollFinishes(s: State, client: string, attempt: Attempt, token: string)
    requires HexToken(token) && attempt.expiresAt == 600 && attempt.polling && attempt.clientAttemptId == client
    requires Stands(s, false, [Returned, Asking(Credential(attempt.requestId, attempt.verifier))],
                    Record(1, Some(client), Some(attempt)))
    ensures var t := Do(Do(s, Advance(1, Complete(Some(token), true))), Advance(1, Commit(true)));
      && t.calls == [Returned, Returned] && t.record == Record(1, None, None)
      && t.log == s.log + [SessionStored(attempt.requestId, token, 0)]
  {
    hide Do;
    AnswerIsUsed(s, 1, Complete(Some(token), true));
    var t := Do(s, Advance(1, Complete(Some(token), true)));
    AdvancedState(s, 1, Complete(Some(token), true));
    CommitStoresExactly(t, 1, true);
  }

  /** For any valid ids and token: a start, its reply, a poll, its answer and the commit store the session. */
  lemma LoginSucceeds(client: string, requestId: string, verifier: string, token: string) returns (steps: seq<Step>)
    requires HexId(client) && HexId(requestId) && HexToken(token)
    ensures var s := Run(steps);
      && s.log != [] && s.log[|s.log| - 1] == SessionStored(requestId, token, 0)
      && s.calls == [Returned, Returned] && s.record == Record(1, None, None)
  {
    hide Run, Do, HexId, HexToken, ValidId, Stands;
    IdsAreHex(client);
    IdsAreHex(requestId);
    steps := PollClaims(client, requestId, verifier);
    PollFinishes(Run(steps), client, Attempt(client, requestId, verifier, 600, true), token);
    RunNext(steps, Advance(1, Complete(Some(token), true)));
    steps := steps + [Advance(1, Complete(Some(token), true))];
    RunNext(steps, Advance(1, Commit(true)));
    steps := steps + [Advance(1, Commit(true))];
  }
}
