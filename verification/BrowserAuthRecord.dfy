/**
 The record behind the browser login commands, and the sections of code that
 hold its mutex. Each section runs without an await, so it is one atomic step.
 */
module BrowserAuthRecord {
  import opened Options

  /** Lifetime of an attempt, in the clock's seconds. */
  const BROWSER_AUTH_TTL: nat := 600

  datatype Attempt = Attempt(clientAttemptId: string, requestId: string, verifier: string,
                             expiresAt: nat, polling: bool)

  datatype Record = Record(generation: nat, clientAttemptId: Option<string>, pending: Option<Attempt>)

  const Idle := Record(0, None, None)

  /** What the first section of a poll decides. */
  datatype Claim = ClaimExpired | ClaimAbsent | ClaimReplaced | ClaimBusy | Claimed(verifier: string)

  /** What the last section of a poll decides. */
  datatype Commit = Stored | Expired | CancelledOrReplaced | StoreFailed

  predicate LowerHex(c: char) { '0' <= c <= '9' || 'a' <= c <= 'f' }

  /** Request ids and client attempt ids have the same shape. */
  predicate ValidId(id: string) { |id| == 32 && forall i :: 0 <= i < |id| ==> LowerHex(id[i]) }

  predicate ValidToken(token: string) {
    |token| == 64 && forall i :: 0 <= i < |token| ==> LowerHex(token[i]) || 'A' <= token[i] <= 'F'
  }

  predicate IsPending(r: Record, requestId: string) {
    r.pending.Some? && r.pending.value.requestId == requestId
  }

  function BeginStart(r: Record, clientAttemptId: string): Record {
    Record(r.generation + 1, Some(clientAttemptId), None)
  }

  predicate Installable(r: Record, clientAttemptId: string, generation: nat) {
    r.generation == generation && r.clientAttemptId == Some(clientAttemptId)
  }

  function Install(r: Record, generation: nat, attempt: Attempt): Record {
    if Installable(r, attempt.clientAttemptId, generation) then r.(pending := Some(attempt)) else r
  }

  function ClearStart(r: Record, clientAttemptId: string, generation: nat): Record {
    if Installable(r, clientAttemptId, generation) then r.(clientAttemptId := None, pending := None) else r
  }

  function Drop(r: Record): Record { r.(clientAttemptId := None, pending := None) }

  predicate Overdue(r: Record, now: nat) { r.pending.Some? && r.pending.value.expiresAt <= now }

  function ClaimOutcome(r: Record, requestId: string, now: nat): Claim {
    if Overdue(r, now) then ClaimExpired
    else if r.pending.None? then ClaimAbsent
    else if r.pending.value.requestId != requestId then ClaimReplaced
    else if r.pending.value.polling then ClaimBusy
    else Claimed(r.pending.value.verifier)
  }

  function ClaimPoll(r: Record, requestId: string, now: nat): Record {
    match ClaimOutcome(r, requestId, now)
    case ClaimExpired => Drop(r)
    case Claimed(_) => r.(pending := Some(r.pending.value.(polling := true)))
    case _ => r
  }

  function ResetPoll(r: Record, requestId: string): Record {
    if IsPending(r, requestId) then r.(pending := Some(r.pending.value.(polling := false))) else r
  }

  function ClearAttempt(r: Record, requestId: string): Record {
    if IsPending(r, requestId) then Drop(r).(generation := r.generation + 1) else r
  }

  predicate Active(r: Record, requestId: string) {
    IsPending(r, requestId) && r.pending.value.polling
    && r.clientAttemptId == Some(r.pending.value.clientAttemptId)
  }

  function CommitOutcome(r: Record, requestId: string, now: nat, saves: bool): Commit {
    if !Active(r, requestId) then CancelledOrReplaced
    else if Overdue(r, now) then Expired
    else if saves then Stored
    else StoreFailed
  }

  function CommitPoll(r: Record, requestId: string): Record {
    if Active(r, requestId) then Drop(r) else r
  }

  predicate CancelApplies(r: Record, clientAttemptId: string) { r.clientAttemptId == Some(clientAttemptId) }

  function Cancel(r: Record, clientAttemptId: string): Record {
    if CancelApplies(r, clientAttemptId) then Record(r.generation + 1, None, None) else r
  }

  /** The mutable record itself; every method is one locked section of a command. */
  class BrowserAuthState {
    var generation: nat
    var clientAttemptId: Option<string>
    var pending: Option<Attempt>

    constructor ()
      ensures View() == Idle
    {
      generation, clientAttemptId, pending := 0, None, None;
    }

    ghost function View(): Record
      reads this
    {
      Record(generation, clientAttemptId, pending)
    }

    /** Opens a new start and hands the displaced attempt to the caller. */
    method Begin(client: string) returns (myGeneration: nat, previous: Option<Attempt>)
      modifies this
      ensures View() == BeginStart(old(View()), client)
      ensures myGeneration == View().generation > old(View()).generation
      ensures previous == old(pending)
    {
      generation := generation + 1;
      clientAttemptId := Some(client);
      myGeneration, previous := generation, pending;
      pending := None;
    }

    /** Installs the attempt unless a later start or a cancel came between. */
    method TryInstall(myGeneration: nat, attempt: Attempt) returns (installed: bool)
      modifies this
      ensures View() == Install(old(View()), myGeneration, attempt)
      ensures installed == Installable(old(View()), attempt.clientAttemptId, myGeneration)
    {
      installed := generation == myGeneration && clientAttemptId == Some(attempt.clientAttemptId);
      if installed {
        pending := Some(attempt);
      }
    }

    method ClearStartIfCurrent(client: string, myGeneration: nat)
      modifies this
      ensures View() == ClearStart(old(View()), client, myGeneration)
    {
      if generation == myGeneration && clientAttemptId == Some(client) {
        clientAttemptId := None;
        pending := None;
      }
    }

    /** The deadline is checked before the request id, so any poll can expire the pending attempt. */
    method ClaimForPoll(requestId: string, now: nat) returns (claim: Claim)
      modifies this
      ensures View() == ClaimPoll(old(View()), requestId, now)
      ensures claim == ClaimOutcome(old(View()), requestId, now)
      ensures var was := old(pending);
        match claim
        case ClaimAbsent => was.None?
        case ClaimExpired => was.Some? && was.value.expiresAt <= now
        case ClaimReplaced => was.Some? && now < was.value.expiresAt && was.value.requestId != requestId
        case ClaimBusy =>
          was.Some? && now < was.value.expiresAt && was.value.requestId == requestId && was.value.polling
        case Claimed(verifier) =>
          && was.Some? && now < was.value.expiresAt && was.value.requestId == requestId && !was.value.polling
          && verifier == was.value.verifier && pending == Some(was.value.(polling := true))
    {
      if pending.Some? && pending.value.expiresAt <= now {
        pending, clientAttemptId := None, None;
        return ClaimExpired;
      }
      if pending.None? {
        return ClaimAbsent;
      }
      var attempt := pending.value;
      if attempt.requestId != requestId {
        return ClaimReplaced;
      }
      if attempt.polling {
        return ClaimBusy;
      }
      pending := Some(attempt.(polling := true));
      claim := Claimed(attempt.verifier);
    }

    method ResetBrowserPoll(requestId: string)
      modifies this
      ensures View() == ResetPoll(old(View()), requestId)
    {
      if pending.Some? && pending.value.requestId == requestId {
        pending := Some(pending.value.(polling := false));
      }
    }

    method ClearBrowserAttempt(requestId: string)
      modifies this
      ensures View() == ClearAttempt(old(View()), requestId)
    {
      if pending.Some? && pending.value.requestId == requestId {
        pending := None;
        clientAttemptId := None;
        generation := generation + 1;
      }
    }

    /** Commits a received session; `saves` is the result of writing it to the credential store. */
    method CommitSession(requestId: string, now: nat, saves: bool) returns (commit: Commit)
      modifies this
      ensures View() == CommitPoll(old(View()), requestId)
      ensures commit == CommitOutcome(old(View()), requestId, now, saves)
      ensures var was := old(pending);
        var wanted := was.Some? && was.value.requestId == requestId && was.value.polling
                      && old(clientAttemptId) == Some(was.value.clientAttemptId);
        match commit
        case CancelledOrReplaced => !wanted
        case Expired => wanted && was.value.expiresAt <= now
        case Stored => wanted && now < was.value.expiresAt && saves
        case StoreFailed => wanted && now < was.value.expiresAt && !saves
    {
      var active := pending.Some? && pending.value.requestId == requestId && pending.value.polling
                    && Some(pending.value.clientAttemptId) == clientAttemptId;
      if !active {
        return CancelledOrReplaced;
      }
      var overdue := pending.value.expiresAt <= now;
      pending := None;
      clientAttemptId := None;
      commit := if overdue then Expired else if saves then Stored else StoreFailed;
    }

    /** Cancels the attempt the client names; anything else is left alone. */
    method CancelAttempt(client: string) returns (attempt: Option<Attempt>)
      modifies this
      ensures View() == Cancel(old(View()), client)
      ensures attempt == if CancelApplies(old(View()), client) then old(pending) else None
    {
      if clientAttemptId != Some(client) {
        return None;
      }
      generation := generation + 1;
      clientAttemptId := None;
      attempt := pending;
      pending := None;
    }
  }
}
