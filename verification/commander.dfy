/**
 * The command channel to the Matter server (matter_commander.py): connecting on demand,
 * sending an OnOff command, and reconnecting once when the failure looks like a lost
 * connection. The Matter client library is an oracle: every external call it makes is
 * recorded in a call log, and the outcome of each call is an input.
 */
module Commander {
  import opened Wrappers
  import opened Text
  import opened Models

  /** The OnOff cluster commands. */
  datatype OnOffCommand = On | Off | Toggle

  /** The command object for an action, or `None` for an action outside on/off/toggle. */
  function CommandFor(action: string): (r: Option<OnOffCommand>)
    ensures r.Some? <==> action in {ActionOn, ActionOff, ActionToggle}
  {
    if action == ActionOn then Some(On)
    else if action == ActionOff then Some(Off)
    else if action == ActionToggle then Some(Toggle)
    else None
  }

  /** What one `send_device_command`, bounded by `wait_for`, comes back with. */
  datatype SendOutcome =
    | Ok(reply: int)
    | NotConnected(message: string)
    | InvalidState(message: string)
    | Timeout
    | Other(typeName: string, message: string)

  /** `type(e).__name__` of the exception a failed send raised. */
  function TypeName(o: SendOutcome): string
    requires !o.Ok?
  {
    match o
    case NotConnected(_) => "NotConnected"
    case InvalidState(_) => "InvalidStateError"
    case Timeout => "TimeoutError"
    case Other(typeName, _) => typeName
  }

  /** `str(e)` of the exception a failed send raised. */
  function Message(o: SendOutcome): string
    requires !o.Ok?
  {
    match o
    case NotConnected(message) => message
    case InvalidState(message) => message
    case Timeout => ""
    case Other(_, message) => message
  }

  /** The test that sends a failure down the reconnect-and-retry path. */
  predicate ConnectionLost(o: SendOutcome)
    requires !o.Ok?
  {
    Contains(Message(o), "Not connected") || Contains(TypeName(o), "InvalidState")
  }

  /** The external calls the commander makes, in the order it makes them. */
  datatype Call =
    | OpenSession
    | ClientConnect
    | ClientDisconnect
    | Send(nodeId: int, endpoint: int, command: OnOffCommand)
    | CloseSession

  /** Why an operation raised. */
  datatype Error =
    | LibraryMissing
    | ConnectFailed
    | DisconnectFailed
    | NoClient
    | InvalidAction(action: string)
    | SendFailed(outcome: SendOutcome)

  /**
   * The commander's observable state: whether `client` is set, whether `session` is
   * an open session, and every external call so far.
   */
  datatype Channel = Channel(client: bool, session: bool, calls: seq<Call>)

  /** The outcomes of the external calls one `set_onoff` may make, in order. */
  datatype Oracle = Oracle(connect: bool, first: SendOutcome, reconnect: bool, retry: SendOutcome)

  /** A client is only ever created on an open session. */
  predicate Valid(c: Channel) {
    c.client ==> c.session
  }

  /** Number of sends in a call log. */
  function SendCount(calls: seq<Call>): nat {
    if calls == [] then 0
    else SendCount(calls[..|calls| - 1]) + (if calls[|calls| - 1].Send? then 1 else 0)
  }

  /** Number of connects in a call log. */
  function ConnectCount(calls: seq<Call>): nat {
    if calls == [] then 0
    else ConnectCount(calls[..|calls| - 1]) + (if calls[|calls| - 1].ClientConnect? then 1 else 0)
  }

  lemma {:induction false} CountsAppend(a: seq<Call>, b: seq<Call>)
    ensures SendCount(a + b) == SendCount(a) + SendCount(b)
    ensures ConnectCount(a + b) == ConnectCount(a) + ConnectCount(b)
    decreases |b|
  {
    if b == [] {
      assert a + b == a;
    } else {
      assert (a + b)[..|a + b| - 1] == a + b[..|b| - 1];
      CountsAppend(a, b[..|b| - 1]);
    }
  }

  // ---------------------------------------------------------------------------
  // The operations, as functions of the state and the oracle's outcomes

  /**
   * `connect`: without the library, raise before touching anything; otherwise open a
   * session if there is none, create the client (it stays set even when its `connect`
   * fails) and connect it.
   */
  function ConnectSpec(library: bool, c: Channel, connectOk: bool): (Outcome<Error>, Channel) {
    if !library then (Fail(LibraryMissing), c)
    else
      var c1 := if c.session then c else c.(session := true, calls := c.calls + [OpenSession]);
      var c2 := c1.(client := true, calls := c1.calls + [ClientConnect]);
      (if connectOk then Pass else Fail(ConnectFailed), c2)
  }

  /** `ensure_connected`: connect only when there is no client. */
  function EnsureConnectedSpec(library: bool, c: Channel, connectOk: bool): (Outcome<Error>, Channel) {
    if c.client then (Pass, c) else ConnectSpec(library, c, connectOk)
  }

  /**
   * `close`: disconnect the client if there is one; whatever that does, clear the
   * client and close and clear the session. A failed disconnect is raised afterwards.
   */
  function CloseSpec(c: Channel, disconnectOk: bool): (Outcome<Error>, Channel) {
    var c1 := if c.client then c.(calls := c.calls + [ClientDisconnect]) else c;
    var c2 := c1.(client := false);
    var c3 := if c2.session then c2.(session := false, calls := c2.calls + [CloseSession]) else c2;
    (if c.client && !disconnectOk then Fail(DisconnectFailed) else Pass, c3)
  }

  /**
   * `_reconnect_and_retry`: disconnect the old client (an error there is swallowed),
   * clear it, connect afresh, and send the same command once more.
   */
  function ReconnectAndRetrySpec(library: bool, c: Channel, nodeId: int, endpoint: int, cmd: OnOffCommand, o: Oracle)
    : (Result<int, Error>, Channel)
  {
    var c1 := if c.client then c.(calls := c.calls + [ClientDisconnect]) else c;
    var c2 := c1.(client := false);
    var (r, c3) := ConnectSpec(library, c2, o.reconnect);
    if r.Fail? then (Failure(r.error), c3)
    else
      var c4 := c3.(calls := c3.calls + [Send(nodeId, endpoint, cmd)]);
      match o.retry
      case Ok(reply) => (Success(reply), c4)
      case _ => (Failure(SendFailed(o.retry)), c4)
  }

  /**
   * `set_onoff`: make sure there is a client, check the action, send; on a failure that
   * looks like a lost connection, reconnect and retry once and return nothing; any other
   * failure is raised as it is.
   */
  function SetOnOffSpec(library: bool, c: Channel, nodeId: int, endpoint: int, action: string, o: Oracle)
    : (Result<Option<int>, Error>, Channel)
  {
    var (r1, c1) := EnsureConnectedSpec(library, c, o.connect);
    if r1.Fail? then (Failure(r1.error), c1)
    else if !c1.client then (Failure(NoClient), c1)
    else
      match CommandFor(action)
      case None => (Failure(InvalidAction(action)), c1)
      case Some(cmd) =>
        var c2 := c1.(calls := c1.calls + [Send(nodeId, endpoint, cmd)]);
        if o.first.Ok? then (Success(Some(o.first.reply)), c2)
        else if ConnectionLost(o.first) then
          var (r3, c3) := ReconnectAndRetrySpec(library, c2, nodeId, endpoint, cmd, o);
          (if r3.Success? then Success(None) else Failure(r3.error), c3)
        else (Failure(SendFailed(o.first)), c2)
  }

  // ---------------------------------------------------------------------------
  // What the operations promise

  /** Only a lost connection is retried: a timeout never is, an invalid-state error always is. */
  lemma ConnectionLostClassification(message: string, typeName: string)
    ensures !ConnectionLost(Timeout)
    ensures ConnectionLost(InvalidState(message))
    ensures ConnectionLost(NotConnected(message)) <==> Contains(message, "Not connected")
    ensures ConnectionLost(Other(typeName, message))
        <==> Contains(message, "Not connected") || Contains(typeName, "InvalidState")
  {
    var t := "InvalidStateError";
    assert t[..|"InvalidState"|] == "InvalidState";
    ContainsAt(t, "InvalidState", 0);
    assert !Contains("", "Not connected");
    NotInvalidStateName("TimeoutError");
    NotInvalidStateName("NotConnected");
  }

  /** A twelve-letter type name that does not start with 'I' cannot contain "InvalidState". */
  lemma NotInvalidStateName(name: string)
    requires |name| == |"InvalidState"| && name[0] != 'I'
    ensures !Contains(name, "InvalidState")
  {
    ContainsSameLength(name, "InvalidState");
  }

  /**
   * `ensure_connected` calls `connect` exactly when there is no client (and the library
   * is installed); with a client it changes nothing.
   */
  lemma EnsureConnectedConnectsIffNoClient(library: bool, c: Channel, connectOk: bool)
    ensures var (r, c') := EnsureConnectedSpec(library, c, connectOk);
      && ConnectCount(c'.calls) == ConnectCount(c.calls) + (if !c.client && library then 1 else 0)
      && SendCount(c'.calls) == SendCount(c.calls)
      && (c.client ==> r == Pass && c' == c)
  {
    var c1 := if c.session then c else c.(session := true, calls := c.calls + [OpenSession]);
    CountsAppend(c.calls, [OpenSession]);
    CountsAppend(c1.calls, [ClientConnect]);
    assert [OpenSession][..0] == [] && [ClientConnect][..0] == [];
  }

  /** Once connected, a second `ensure_connected` does nothing. */
  lemma EnsureConnectedIdempotent(library: bool, c: Channel, ok1: bool, ok2: bool)
    requires EnsureConnectedSpec(library, c, ok1).0 == Pass
    ensures var c1 := EnsureConnectedSpec(library, c, ok1).1;
      EnsureConnectedSpec(library, c1, ok2) == (Pass, c1)
  {
  }

  /**
   * A failed `connect` leaves the client set, so the next `ensure_connected` does not
   * try again.
   */
  lemma FailedConnectKeepsClient(c: Channel, ok: bool)
    requires !c.client
    ensures var (r, c1) := EnsureConnectedSpec(true, c, false);
      r == Fail(ConnectFailed) && c1.client && EnsureConnectedSpec(true, c1, ok) == (Pass, c1)
  {
  }

  /** `close` always leaves neither client nor session, and raises only when the disconnect failed. */
  lemma CloseClears(c: Channel, disconnectOk: bool)
    ensures var (r, c') := CloseSpec(c, disconnectOk);
      && !c'.client && !c'.session
      && (r.Fail? <==> c.client && !disconnectOk)
      && SendCount(c'.calls) == SendCount(c.calls)
  {
    var c1 := if c.client then c.(calls := c.calls + [ClientDisconnect]) else c;
    CountsAppend(c.calls, [ClientDisconnect]);
    CountsAppend(c1.calls, [CloseSession]);
    assert [ClientDisconnect][..0] == [] && [CloseSession][..0] == [];
  }

  /** Every operation keeps the client on an open session. */
  lemma OperationsKeepValid(library: bool, c: Channel, nodeId: int, endpoint: int, action: string, o: Oracle, ok: bool)
    requires Valid(c)
    ensures Valid(EnsureConnectedSpec(library, c, ok).1)
    ensures Valid(CloseSpec(c, ok).1)
    ensures Valid(SetOnOffSpec(library, c, nodeId, endpoint, action, o).1)
    ensures Valid(ConnectSpec(library, c, ok).1)
  {
  }

  /** An action outside on/off/toggle is rejected and nothing is sent. */
  lemma InvalidActionSendsNothing(library: bool, c: Channel, nodeId: int, endpoint: int, action: string, o: Oracle)
    requires action !in {ActionOn, ActionOff, ActionToggle}
    ensures var (r, c') := SetOnOffSpec(library, c, nodeId, endpoint, action, o);
      && r.Failure?
      && (EnsureConnectedSpec(library, c, o.connect).0 == Pass ==> r.error == InvalidAction(action))
      && SendCount(c'.calls) == SendCount(c.calls)
  {
    EnsureConnectedConnectsIffNoClient(library, c, o.connect);
  }

  /**
   * With a client and a valid action, `set_onoff` goes down exactly one of these paths,
   * named by the calls it appends:
   *  - the send succeeds: one send, its reply returned;
   *  - it fails without a lost connection: one send, that failure raised;
   *  - it fails with a lost connection: the send, a disconnect, a connect and (when the
   *    connect succeeds) the same send again; a successful retry returns nothing, a failed
   *    one is raised. There is never a third send.
   */
  lemma SetOnOffPaths(c: Channel, nodeId: int, endpoint: int, action: string, o: Oracle)
    requires c.client && c.session
    requires CommandFor(action).Some?
    ensures var cmd := CommandFor(action).value;
      var send := Send(nodeId, endpoint, cmd);
      var (r, c') := SetOnOffSpec(true, c, nodeId, endpoint, action, o);
      if o.first.Ok? then
        r == Success(Some(o.first.reply)) && c'.calls == c.calls + [send]
      else if !ConnectionLost(o.first) then
        r == Failure(SendFailed(o.first)) && c'.calls == c.calls + [send]
      else if !o.reconnect then
        r == Failure(ConnectFailed) && c'.calls == c.calls + [send, ClientDisconnect, ClientConnect]
      else if o.retry.Ok? then
        r == Success(None) && c'.calls == c.calls + [send, ClientDisconnect, ClientConnect, send]
      else
        r == Failure(SendFailed(o.retry)) && c'.calls == c.calls + [send, ClientDisconnect, ClientConnect, send]
  {
    var send := Send(nodeId, endpoint, CommandFor(action).value);
    assert c.calls + [send] + [ClientDisconnect] + [ClientConnect] == c.calls + [send, ClientDisconnect, ClientConnect];
    assert c.calls + [send] + [ClientDisconnect] + [ClientConnect] + [send] == c.calls + [send, ClientDisconnect, ClientConnect, send];
  }

  /**
   * The reconnect disconnects and clears the old client before `connect` runs. Without the
   * library no client is left; with it a new client is set whatever `connect` reports, and
   * the command is sent again only after a successful connect.
   */
  lemma ReconnectClearsClientFirst(library: bool, c: Channel, nodeId: int, endpoint: int, cmd: OnOffCommand, o: Oracle)
    ensures var (r, c') := ReconnectAndRetrySpec(library, c, nodeId, endpoint, cmd, o);
      var dropped := c.calls + (if c.client then [ClientDisconnect] else []);
      var connected := dropped + (if c.session then [] else [OpenSession]) + [ClientConnect];
      if !library then
        r == Failure(LibraryMissing) && !c'.client && c'.calls == dropped
      else
        c'.client && c'.session &&
        if !o.reconnect then r == Failure(ConnectFailed) && c'.calls == connected
        else c'.calls == connected + [Send(nodeId, endpoint, cmd)]
  {
  }

  /** A connect never sends. */
  lemma ConnectSendsNothing(library: bool, c: Channel, ok: bool)
    ensures SendCount(ConnectSpec(library, c, ok).1.calls) == SendCount(c.calls)
  {
    EnsureConnectedConnectsIffNoClient(library, c.(client := false), ok);
  }

  /** One more call adds one send exactly when it is a send. */
  lemma SendCountSnoc(calls: seq<Call>, call: Call)
    ensures SendCount(calls + [call]) == SendCount(calls) + (if call.Send? then 1 else 0)
  {
    assert (calls + [call])[..|calls|] == calls;
  }

  /** The reconnect path sends at most once. */
  lemma ReconnectSendsAtMostOnce(library: bool, c: Channel, nodeId: int, endpoint: int, cmd: OnOffCommand, o: Oracle)
    ensures var c' := ReconnectAndRetrySpec(library, c, nodeId, endpoint, cmd, o).1;
      SendCount(c.calls) <= SendCount(c'.calls) <= SendCount(c.calls) + 1
  {
    var c1 := if c.client then c.(calls := c.calls + [ClientDisconnect]) else c;
    SendCountSnoc(c.calls, ClientDisconnect);
    var c2 := c1.(client := false);
    ConnectSendsNothing(library, c2, o.reconnect);
    var c3 := ConnectSpec(library, c2, o.reconnect).1;
    SendCountSnoc(c3.calls, Send(nodeId, endpoint, cmd));
  }

  /** A `set_onoff` sends at most twice, whatever the state and the outcomes. */
  lemma AtMostTwoSends(library: bool, c: Channel, nodeId: int, endpoint: int, action: string, o: Oracle)
    ensures var c' := SetOnOffSpec(library, c, nodeId, endpoint, action, o).1;
      SendCount(c.calls) <= SendCount(c'.calls) <= SendCount(c.calls) + 2
  {
    var e := EnsureConnectedSpec(library, c, o.connect);
    EnsureConnectedConnectsIffNoClient(library, c, o.connect);
    if e.0.Pass? && e.1.client && CommandFor(action).Some? {
      var cmd := CommandFor(action).value;
      var c2 := e.1.(calls := e.1.calls + [Send(nodeId, endpoint, cmd)]);
      CountsAppend(e.1.calls, [Send(nodeId, endpoint, cmd)]);
      assert [Send(nodeId, endpoint, cmd)][..0] == [];
      if !o.first.Ok? && ConnectionLost(o.first) {
        ReconnectSendsAtMostOnce(library, c2, nodeId, endpoint, cmd, o);
        assert SetOnOffSpec(library, c, nodeId, endpoint, action, o).1
            == ReconnectAndRetrySpec(library, c2, nodeId, endpoint, cmd, o).1;
      } else {
        assert SetOnOffSpec(library, c, nodeId, endpoint, action, o).1 == c2;
      }
    } else {
      assert SetOnOffSpec(library, c, nodeId, endpoint, action, o).1 == e.1;
    }
  }

  // ---------------------------------------------------------------------------
  // The commander object

  /** `MatterCommander`, with the lock reduced to plain sequencing. */
  class MatterCommander {
    /** Whether `MatterClient` and `Clusters` could be imported. */
    const library: bool
    var client: bool
    var session: bool
    var calls: seq<Call>

    function State(): Channel
      reads this
    {
      Channel(client, session, calls)
    }

    constructor (library: bool)
      ensures this.library == library && State() == Channel(false, false, [])
      ensures Valid(State())
    {
      this.library := library;
      client := false;
      session := false;
      calls := [];
    }

    method Connect(connectOk: bool) returns (r: Outcome<Error>)
      modifies this
      ensures (r, State()) == ConnectSpec(library, old(State()), connectOk)
      ensures old(Valid(State())) ==> Valid(State())
    {
      if !library {
        return Fail(LibraryMissing);
      }
      if !session {
        session := true;
        calls := calls + [OpenSession];
      }
      client := true;
      calls := calls + [ClientConnect];
      r := if connectOk then Pass else Fail(ConnectFailed);
    }

    method EnsureConnected(connectOk: bool) returns (r: Outcome<Error>)
      modifies this
      ensures (r, State()) == EnsureConnectedSpec(library, old(State()), connectOk)
      ensures old(Valid(State())) ==> Valid(State())
    {
      if !client {
        r := Connect(connectOk);
        return;
      }
      r := Pass;
    }

    method Close(disconnectOk: bool) returns (r: Outcome<Error>)
      modifies this
      ensures (r, State()) == CloseSpec(old(State()), disconnectOk)
      ensures Valid(State())
    {
      r := Pass;
      if client {
        calls := calls + [ClientDisconnect];
        if !disconnectOk {
          r := Fail(DisconnectFailed);
        }
      }
      client := false;
      if session {
        session := false;
        calls := calls + [CloseSession];
      }
    }

    method ReconnectAndRetry(nodeId: int, endpoint: int, cmd: OnOffCommand, o: Oracle) returns (r: Result<int, Error>)
      modifies this
      ensures (r, State()) == ReconnectAndRetrySpec(library, old(State()), nodeId, endpoint, cmd, o)
      ensures Valid(State())
    {
      if client {
        calls := calls + [ClientDisconnect];
      }
      client := false;
      var connected := Connect(o.reconnect);
      if connected.Fail? {
        return Failure(connected.error);
      }
      calls := calls + [Send(nodeId, endpoint, cmd)];
      if o.retry.Ok? {
        r := Success(o.retry.reply);
      } else {
        r := Failure(SendFailed(o.retry));
      }
    }

    method SetOnOff(nodeId: int, endpoint: int, action: string, o: Oracle) returns (r: Result<Option<int>, Error>)
      modifies this
      ensures (r, State()) == SetOnOffSpec(library, old(State()), nodeId, endpoint, action, o)
      ensures old(Valid(State())) ==> Valid(State())
    {
      var connected := EnsureConnected(o.connect);
      if connected.Fail? {
        return Failure(connected.error);
      }
      if !client {
        return Failure(NoClient);
      }
      var cmd := CommandFor(action);
      if cmd.None? {
        return Failure(InvalidAction(action));
      }
      calls := calls + [Send(nodeId, endpoint, cmd.value)];
      if o.first.Ok? {
        return Success(Some(o.first.reply));
      }
      if ConnectionLost(o.first) {
        var retried := ReconnectAndRetry(nodeId, endpoint, cmd.value, o);
        r := if retried.Success? then Success(None) else Failure(retried.error);
        return;
      }
      r := Failure(SendFailed(o.first));
    }
  }
}
