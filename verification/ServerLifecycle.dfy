/** The lifecycle automaton that turns observed server states into notifications. */
module ServerLifecycle {
  import opened Options
  import opened Notifications

  datatype Lifecycle = Lifecycle(state: string, expectedStop: bool)

  predicate Terminal(state: string) { state == "stopped" || state == "crashed" }

  predicate Live(state: string) { state == "starting" || state == "running" || state == "stopping" }

  function Transition(previous: string, current: string, expectedStop: bool): Option<EventKind> {
    if previous == current then None
    else if previous == "starting" && current == "running" then Some(Started)
    else if Live(previous) && Terminal(current) then
      Some(if expectedStop && current == "stopped" then Stopped else Crashed)
    else None
  }

  /** What happens to one server. */
  datatype Action = Spawned | Stopping | StopFailed | Observed(state: string)

  function Next(entry: Option<Lifecycle>, action: Action): Option<Lifecycle> {
    match action
    case Spawned => Some(Lifecycle("starting", false))
    case Stopping => if entry.Some? then Some(entry.value.(expectedStop := true)) else None
    case StopFailed => if entry.Some? then Some(entry.value.(expectedStop := false)) else None
    case Observed(state) =>
      Some(Lifecycle(state, entry.Some? && entry.value.expectedStop && !Terminal(state)))
  }

  function Emitted(entry: Option<Lifecycle>, action: Action): Option<EventKind> {
    if action.Observed? && entry.Some?
    then Transition(entry.value.state, action.state, entry.value.expectedStop) else None
  }

  /** The table of all servers. */
  class LifecycleTable {
    var states: map<string, Lifecycle>

    constructor ()
      ensures states == map[]
    {
      states := map[];
    }

    ghost function Entry(id: string): Option<Lifecycle>
      reads this
    {
      if id in states then Some(states[id]) else None
    }

    method Spawn(id: string)
      modifies this
      ensures Entry(id) == Next(old(Entry(id)), Spawned) && states - {id} == old(states) - {id}
    {
      states := states[id := Lifecycle("starting", false)];
    }

    method Stop(id: string)
      modifies this
      ensures Entry(id) == Next(old(Entry(id)), Stopping) && states - {id} == old(states) - {id}
    {
      if id in states {
        states := states[id := states[id].(expectedStop := true)];
      }
    }

    method FailStop(id: string)
      modifies this
      ensures Entry(id) == Next(old(Entry(id)), StopFailed) && states - {id} == old(states) - {id}
    {
      if id in states {
        states := states[id := states[id].(expectedStop := false)];
      }
    }

    /** A server seen for the first time is only remembered. */
    method Observe(id: string, state: string) returns (event: Option<EventKind>)
      modifies this
      ensures Entry(id) == Next(old(Entry(id)), Observed(state)) && states - {id} == old(states) - {id}
      ensures event == Emitted(old(Entry(id)), Observed(state))
    {
      if id !in states {
        states := states[id := Lifecycle(state, false)];
        return None;
      }
      var previous := states[id];
      event := Transition(previous.state, state, previous.expectedStop);
      states := states[id := Lifecycle(state, if Terminal(state) then false else previous.expectedStop)];
    }
  }

  // ---------------------------------------------------------------- whole histories of one server

  function After(trace: seq<Action>): Option<Lifecycle> {
    if trace == [] then None else Next(After(trace[..|trace| - 1]), trace[|trace| - 1])
  }

  /** The notification for the k-th action of a history. */
  function EventAt(trace: seq<Action>, k: nat): Option<EventKind>
    requires k < |trace|
  {
    Emitted(After(trace[..k]), trace[k])
  }

  /** The action puts the server into this state. */
  predicate Shows(action: Action, state: string) {
    action == Observed(state) || (action.Spawned? && state == "starting")
  }

  predicate SetsState(action: Action) { action.Spawned? || action.Observed? }

  /** The last action that set a state set this one. */
  ghost predicate LastShown(trace: seq<Action>, state: string) {
    exists j | 0 <= j < |trace| ::
      Shows(trace[j], state) && forall k | j < k < |trace| :: !SetsState(trace[k])
  }

  /** The j-th action requested a stop of a known server, and no failure, new spawn or exit has withdrawn it. */
  ghost predicate StandsFrom(trace: seq<Action>, j: nat)
    requires j < |trace|
  {
    && trace[j].Stopping? && (exists i | 0 <= i < j :: SetsState(trace[i]))
    && forall k | j < k < |trace| :: !Withdraws(trace[k])
  }

  ghost predicate StopStands(trace: seq<Action>) {
    exists j | 0 <= j < |trace| :: StandsFrom(trace, j)
  }

  predicate Withdraws(action: Action) {
    action.Spawned? || action.StopFailed? || action == Observed("stopped") || action == Observed("crashed")
  }

  lemma {:induction false} KnownExactly(trace: seq<Action>)
    ensures After(trace).Some? <==> exists i | 0 <= i < |trace| :: SetsState(trace[i])
  {
    if trace != [] {
      var rest, n := trace[..|trace| - 1], |trace| - 1;
      KnownExactly(rest);
      assert forall i | 0 <= i < n :: rest[i] == trace[i];
      if SetsState(trace[n]) {
      } else if After(rest).Some? {
        var i :| 0 <= i < n && SetsState(rest[i]);
        assert SetsState(trace[i]);
      }
    }
  }

  lemma ShownAfter(trace: seq<Action>, state: string)
    requires trace != []
    ensures LastShown(trace, state) <==>
      if SetsState(trace[|trace| - 1]) then Shows(trace[|trace| - 1], state) else LastShown(trace[..|trace| - 1], state)
  {
    var rest, n := trace[..|trace| - 1], |trace| - 1;
    assert forall i | 0 <= i < n :: rest[i] == trace[i];
    if SetsState(trace[n]) {
      assert Shows(trace[n], state) ==> LastShown(trace, state);
    } else {
      if LastShown(rest, state) {
        var j :| 0 <= j < n && Shows(rest[j], state) && forall k | j < k < n :: !SetsState(rest[k]);
        assert Shows(trace[j], state);
      }
      if LastShown(trace, state) {
        var j :| 0 <= j < |trace| && Shows(trace[j], state) && forall k | j < k < |trace| :: !SetsState(trace[k]);
        assert Shows(rest[j], state);
      }
    }
  }

  lemma {:induction false} StateExactly(trace: seq<Action>, state: string)
    ensures After(trace).Some? && After(trace).value.state == state <==> LastShown(trace, state)
  {
    if trace != [] {
      StateExactly(trace[..|trace| - 1], state);
      ShownAfter(trace, state);
    }
  }

  lemma {:induction false} StopExactly(trace: seq<Action>)
    ensures After(trace).Some? && After(trace).value.expectedStop <==> StopStands(trace)
  {
    hide StandsFrom;
    if trace != [] {
      StopExactly(trace[..|trace| - 1]);
      if trace[|trace| - 1].Stopping? {
        StopRequested(trace);
      } else if Withdraws(trace[|trace| - 1]) {
        StopWithdrawn(trace);
      } else {
        StopCarries(trace);
      }
    }
  }

  lemma StopRequested(trace: seq<Action>)
    requires trace != [] && trace[|trace| - 1].Stopping?
    ensures StopStands(trace) <==> After(trace[..|trace| - 1]).Some?
  {
    hide After, Withdraws, SetsState;
    var rest, n := trace[..|trace| - 1], |trace| - 1;
    KnownExactly(rest);
    if After(rest).Some? {
      var i :| 0 <= i < n && SetsState(rest[i]);
      assert SetsState(trace[i]);
      assert StandsFrom(trace, n);
    }
    if StopStands(trace) {
      var j :| 0 <= j < |trace| && StandsFrom(trace, j);
      var i :| 0 <= i < j && SetsState(trace[i]);
      assert SetsState(rest[i]);
    }
  }

  lemma StopWithdrawn(trace: seq<Action>)
    requires trace != [] && Withdraws(trace[|trace| - 1])
    ensures !StopStands(trace)
  {
    forall j | 0 <= j < |trace| ensures !StandsFrom(trace, j) {
      assert j == |trace| - 1 || !(forall k | j < k < |trace| :: !Withdraws(trace[k]));
    }
  }

  /** An action that neither requests nor withdraws a stop leaves the request standing or not. */
  lemma StopCarries(trace: seq<Action>)
    requires trace != [] && !trace[|trace| - 1].Stopping? && !Withdraws(trace[|trace| - 1])
    ensures StopStands(trace) <==> StopStands(trace[..|trace| - 1])
  {
    hide StandsFrom;
    var rest, n := trace[..|trace| - 1], |trace| - 1;
    if StopStands(rest) {
      var j :| 0 <= j < n && StandsFrom(rest, j);
      StandsOn(trace, j);
    }
    if StopStands(trace) {
      var j :| 0 <= j <= n && StandsFrom(trace, j);
      assert j < n by { StandsAtRequest(trace, j); }
      StandsOn(trace, j);
    }
  }

  lemma StandsAtRequest(trace: seq<Action>, j: nat)
    requires j < |trace| && StandsFrom(trace, j)
    ensures trace[j].Stopping?
  {
  }

  lemma StandsOn(trace: seq<Action>, j: nat)
    requires j < |trace| - 1 && !Withdraws(trace[|trace| - 1])
    ensures StandsFrom(trace, j) <==> StandsFrom(trace[..|trace| - 1], j)
  {
    hide SetsState, Withdraws;
    var rest := trace[..|trace| - 1];
    assert forall i | 0 <= i < |rest| :: rest[i] == trace[i];
    if StandsFrom(rest, j) {
      var i :| 0 <= i < j && SetsState(rest[i]);
      assert SetsState(trace[i]);
    }
    if StandsFrom(trace, j) {
      var i :| 0 <= i < j && SetsState(trace[i]);
      assert SetsState(rest[i]);
    }
  }

  /** When a "started" notification goes out. */
  lemma StartedExactly(trace: seq<Action>, k: nat)
    requires k < |trace|
    ensures EventAt(trace, k) == Some(Started) <==> trace[k] == Observed("running") && LastShown(trace[..k], "starting")
  {
    StateExactly(trace[..k], "starting");
  }

  /** The server was last seen starting, running or stopping. */
  ghost predicate WasAlive(trace: seq<Action>) {
    LastShown(trace, "starting") || LastShown(trace, "running") || LastShown(trace, "stopping")
  }

  /** When an exit is reported, and whether it counts as a requested stop. */
  lemma ExitExactly(trace: seq<Action>, k: nat)
    requires k < |trace|
    ensures EventAt(trace, k) == Some(Stopped) <==>
      trace[k] == Observed("stopped") && StopStands(trace[..k]) && WasAlive(trace[..k])
    ensures EventAt(trace, k) == Some(Crashed) <==>
      (trace[k] == Observed("crashed") || (trace[k] == Observed("stopped") && !StopStands(trace[..k])))
      && WasAlive(trace[..k])
    ensures EventAt(trace, k) != Some(Test)
  {
    StopExactly(trace[..k]);
    var entry := After(trace[..k]);
    if entry.Some? {
      StateExactly(trace[..k], entry.value.state);
    }
    forall state | LastShown(trace[..k], state) ensures entry.Some? && entry.value.state == state {
      StateExactly(trace[..k], state);
    }
  }

  predicate ShowsAlive(action: Action) {
    Shows(action, "starting") || Shows(action, "running") || Shows(action, "stopping")
  }

  lemma SeenAlive(trace: seq<Action>) returns (m: nat)
    requires WasAlive(trace)
    ensures m < |trace| && ShowsAlive(trace[m]) && forall i | m < i < |trace| :: !SetsState(trace[i])
  {
    hide Shows, SetsState;
    if LastShown(trace, "starting") {
      m :| 0 <= m < |trace| && Shows(trace[m], "starting") && forall i | m < i < |trace| :: !SetsState(trace[i]);
    } else if LastShown(trace, "running") {
      m :| 0 <= m < |trace| && Shows(trace[m], "running") && forall i | m < i < |trace| :: !SetsState(trace[i]);
    } else {
      m :| 0 <= m < |trace| && Shows(trace[m], "stopping") && forall i | m < i < |trace| :: !SetsState(trace[i]);
    }
  }

  /** Between two reported exits the server was alive. */
  lemma ExitsAlternate(trace: seq<Action>, j: nat, k: nat)
    requires j < k < |trace|
    requires EventAt(trace, j) == Some(Stopped) || EventAt(trace, j) == Some(Crashed)
    requires EventAt(trace, k) == Some(Stopped) || EventAt(trace, k) == Some(Crashed)
    ensures exists m :: j < m < k && ShowsAlive(trace[m])
  {
    hide After, Emitted, EventAt, StopStands, WasAlive;
    ExitExactly(trace, j);
    ExitExactly(trace, k);
    var m := SeenAlive(trace[..k]);
    assert trace[..k][j] == trace[j] && SetsState(trace[..k][j]);
    assert trace[..k][m] == trace[m] && ShowsAlive(trace[m]);
  }
}
