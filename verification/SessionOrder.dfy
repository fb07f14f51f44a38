/** The order a session keeps: requests and their answers, heartbeats and theirs.

    A ledger watches a trace action by action. It allows one open request at a time, answered under its own
    id before anything else is read, and one open heartbeat at a time, numbered without gaps. Every trace of
    every session is one the ledger allows; what that means for the ids is proved of the ledger alone.
 */
module SessionOrder {
  import opened Outcomes
  import opened Handshake
  import opened Frame
  import opened Session

  /* Reading a trace. */

  function AsRequest(action: Action): Option<nat> {
    match action
    case Received(Envelope(id, Some(Request(_)))) => Some(id)
    case _ => None
  }

  function AsResponse(action: Action): Option<nat> {
    match action
    case Sent(Envelope(id, Some(Response(_)))) => Some(id)
    case _ => None
  }

  function AsHeartbeat(action: Action): Option<nat> {
    match action
    case Sent(Envelope(id, Some(Request(Some(HeartbeatRequest))))) => Some(id)
    case _ => None
  }

  function AsAccepted(action: Action): Option<nat> {
    match action
    case Accepted(id) => Some(id)
    case _ => None
  }

  /** The ids of the actions of one sort, in order. */
  function Select(sort: Action -> Option<nat>, trace: seq<Action>): seq<nat> {
    if trace == [] then []
    else Select(sort, trace[..|trace| - 1]) + One(sort(trace[|trace| - 1]))
  }

  function One(id: Option<nat>): seq<nat> {
    if id.Some? then [id.value] else []
  }

  /* The ledger. */

  datatype Ledger = Ledger(owed: Option<nat>, pending: Option<nat>, nextId: nat)

  /** The ledger after an action, or none when the action is out of order. */
  function Posted(ledger: Ledger, action: Action): Option<Ledger> {
    match action
    case Received(envelope) =>
      if ledger.owed.Some? then None else Some(ledger.(owed := AsRequest(action)))
    case Called(_) =>
      if ledger.owed.None? then None else Some(ledger)
    case Accepted(id) =>
      if ledger.pending != Some(id) then None else Some(ledger.(pending := None))
    case Opened(_) =>
      if ledger.owed.Some? then None else Some(ledger)
    case Sent(envelope) =>
      if AsResponse(action).Some? then
        if ledger.owed != AsResponse(action) then None else Some(ledger.(owed := None))
      else if ledger.owed.Some? then None
      else if AsHeartbeat(action).None? then Some(ledger)
      else if ledger.pending.Some? || envelope.id != ledger.nextId || ledger.nextId >= U32_MAX then None
      else Some(Ledger(None, Some(envelope.id), ledger.nextId + 1))
  }

  function Kept(ledger: Ledger, trace: seq<Action>): Option<Ledger> {
    if trace == [] then Some(ledger)
    else
      match Kept(ledger, trace[..|trace| - 1])
      case None => None
      case Some(before) => Posted(before, trace[|trace| - 1])
  }

  lemma {:induction false} KeptConcat(ledger: Ledger, a: seq<Action>, b: seq<Action>)
    ensures Kept(ledger, a + b) == if Kept(ledger, a).None? then None else Kept(Kept(ledger, a).value, b)
  {
    if b == [] {
      assert a + b == a;
    } else {
      KeptConcat(ledger, a, b[..|b| - 1]);
      assert (a + b)[..|a + b| - 1] == a + b[..|b| - 1];
    }
  }

  lemma KeptPrefix(ledger: Ledger, trace: seq<Action>, n: nat)
    requires n <= |trace| && Kept(ledger, trace).Some?
    ensures Kept(ledger, trace[..n]).Some?
  {
    KeptConcat(ledger, trace[..n], trace[n..]);
    assert trace[..n] + trace[n..] == trace;
  }

  lemma KeptOne(ledger: Ledger, action: Action)
    ensures Kept(ledger, [action]) == Posted(ledger, action)
  {
    assert [action][..0] == [];
  }

  lemma KeptTwo(ledger: Ledger, first: Action, second: Action)
    requires Posted(ledger, first).Some?
    ensures Kept(ledger, [first] + [second]) == Posted(Posted(ledger, first).value, second)
  {
    KeptOne(ledger, first);
    assert ([first] + [second])[..1] == [first];
  }

  lemma {:induction false} KeptCalls(ledger: Ledger, calls: seq<Call>)
    requires ledger.owed.Some?
    ensures Kept(ledger, Calls(calls)) == Some(ledger)
  {
    if calls != [] {
      var front := calls[..|calls| - 1];
      KeptCalls(ledger, front);
      assert Calls(calls)[..|calls| - 1] == Calls(front);
    }
  }

  /* What the ledger allows. */

  /** Requests are answered in order, each once under its own id, but for the one that is open. */
  lemma {:induction false} AnswersFollowRequests(ledger: Ledger, trace: seq<Action>)
    requires ledger.owed.None? && Kept(ledger, trace).Some?
    ensures Select(AsRequest, trace) == Select(AsResponse, trace) + One(Kept(ledger, trace).value.owed)
  {
    if trace != [] {
      AnswersFollowRequests(ledger, trace[..|trace| - 1]);
    }
  }

  /** Heartbeats are accepted in the order they were sent, but for the one that is open. */
  lemma {:induction false} AcceptedFollowSent(ledger: Ledger, trace: seq<Action>)
    requires Kept(ledger, trace).Some?
    ensures One(ledger.pending) + Select(AsHeartbeat, trace) ==
              Select(AsAccepted, trace) + One(Kept(ledger, trace).value.pending)
  {
    if trace != [] {
      var front, last := trace[..|trace| - 1], trace[|trace| - 1];
      var before := Kept(ledger, front).value;
      AcceptedFollowSent(ledger, front);
      OneMore(One(ledger.pending), Select(AsHeartbeat, front), AsHeartbeat(last), Select(AsAccepted, front),
              before.pending, AsAccepted(last), Posted(before, last).value.pending);
    }
  }

  lemma OneMore(first: seq<nat>, sent: seq<nat>, sending: Option<nat>, accepted: seq<nat>, before: Option<nat>,
                accepting: Option<nat>, after: Option<nat>)
    requires first + sent == accepted + One(before)
    requires if sending.Some? then before.None? && accepting.None? && after == sending
             else if accepting.Some? then before == accepting && after.None?
             else after == before
    ensures first + (sent + One(sending)) == (accepted + One(accepting)) + One(after)
  {
    assert first + (sent + One(sending)) == (accepted + One(before)) + One(sending);
  }

  /** Ids from `first` on, each one more than the last, and short of the end of the range. */
  ghost predicate Consecutive(ids: seq<nat>, first: nat) {
    forall k :: 0 <= k < |ids| ==> ids[k] == first + k < U32_MAX
  }

  /** Heartbeats are numbered from the ledger's next id on, without gaps, and short of the end of the range. */
  lemma {:induction false} SentAreConsecutive(ledger: Ledger, trace: seq<Action>)
    requires Kept(ledger, trace).Some?
    ensures Kept(ledger, trace).value.nextId == ledger.nextId + |Select(AsHeartbeat, trace)|
    ensures Consecutive(Select(AsHeartbeat, trace), ledger.nextId)
  {
    if trace != [] {
      var front, last := trace[..|trace| - 1], trace[|trace| - 1];
      SentAreConsecutive(ledger, front);
      var before, sent := Kept(ledger, front).value, Select(AsHeartbeat, front);
      if AsHeartbeat(last).Some? {
        assert before.nextId == ledger.nextId + |sent| && AsHeartbeat(last) == Some(before.nextId);
        NextIsConsecutive(sent, ledger.nextId);
      } else {
        assert sent + [] == sent;
      }
    }
  }

  lemma NextIsConsecutive(ids: seq<nat>, first: nat)
    requires Consecutive(ids, first) && first + |ids| < U32_MAX
    ensures Consecutive(ids + [first + |ids|], first)
  {
  }

  /* Serving keeps the ledger. */

  /** The id of a request whose answer does not get through, if this turn reads one. */
  function LostOn(turn: Turn): Option<nat> {
    if turn.fault.Some? && turn.read.Ok? then AsRequest(Received(turn.read.value)) else None
  }

  lemma {:induction false} TurnKeepsLedger(session: Agreement, handlers: Handlers, i: nat, turn: Turn, nextId: nat,
                                           pending: Option<nat>)
    ensures var step := ServeTurn(session, handlers, i, turn, nextId, pending);
            var ledger := Kept(Ledger(None, pending, nextId), step.trace);
            && ledger.Some?
            && (step.Go? ==> ledger.value == Ledger(None, step.pending, step.nextId) && LostOn(turn).None?)
            && (step.Stop? ==> ledger.value.owed == LostOn(turn))
  {
    if turn.read.Err? {
      QuietTurnKeepsLedger(session, handlers, i, turn, nextId, pending);
    } else if AsRequest(Received(turn.read.value)).Some? {
      AnswerKeepsLedger(session, handlers, i, turn, nextId, pending);
    } else {
      OtherTurnKeepsLedger(session, handlers, i, turn, nextId, pending);
    }
  }

  lemma {:induction false} QuietTurnKeepsLedger(session: Agreement, handlers: Handlers, i: nat, turn: Turn, nextId: nat,
                                                pending: Option<nat>)
    requires turn.read.Err?
    ensures var step := ServeTurn(session, handlers, i, turn, nextId, pending);
            Kept(Ledger(None, pending, nextId), step.trace) ==
            Some(if step.Go? then Ledger(None, step.pending, step.nextId) else Ledger(None, pending, nextId))
  {
    KeptOne(Ledger(None, pending, nextId), Sent(RequestEnvelope(nextId, HeartbeatRequest)));
  }

  lemma {:induction false} OtherTurnKeepsLedger(session: Agreement, handlers: Handlers, i: nat, turn: Turn, nextId: nat,
                                                pending: Option<nat>)
    requires turn.read.Ok? && AsRequest(Received(turn.read.value)).None?
    ensures var step := ServeTurn(session, handlers, i, turn, nextId, pending);
            Kept(Ledger(None, pending, nextId), step.trace) ==
            Some(if step.Go? then Ledger(None, step.pending, step.nextId) else Ledger(None, pending, nextId))
  {
    var ledger, heard := Ledger(None, pending, nextId), Received(turn.read.value);
    KeptOne(ledger, heard);
    KeptTwo(ledger, heard, Accepted(turn.read.value.id));
  }

  lemma {:induction false} AnswerKeepsLedger(session: Agreement, handlers: Handlers, i: nat, turn: Turn, nextId: nat,
                                             pending: Option<nat>)
    requires turn.read.Ok? && AsRequest(Received(turn.read.value)).Some?
    ensures var trace := ServeTurn(session, handlers, i, turn, nextId, pending).trace;
            Kept(Ledger(None, pending, nextId), trace) == Some(Ledger(LostOn(turn), pending, nextId))
  {
    var ledger, envelope := Ledger(None, pending, nextId), turn.read.value;
    var owing := ledger.(owed := Some(envelope.id));
    var (calls, response) := Answer(session, handlers, i, envelope.body.value.request);
    var heard, said := [Received(envelope)], Sent(ResponseEnvelope(envelope.id, response));
    KeptOne(ledger, Received(envelope));
    KeptCalls(owing, calls);
    KeptConcat(ledger, heard, Calls(calls));
    KeptOne(owing, said);
    KeptConcat(ledger, heard + Calls(calls), [said]);
  }

  /** The turn serving ends on, or the end of the script. */
  function ServedThrough(session: Agreement, handlers: Handlers, turns: seq<Turn>, i: nat, nextId: nat,
                         pending: Option<nat>): (last: nat)
    requires i <= |turns|
    ensures i <= last <= |turns|
    decreases |turns| - i
  {
    if i == |turns| then i
    else
      match ServeTurn(session, handlers, i, turns[i], nextId, pending)
      case Stop(_, _) => i
      case Go(_, nextId', pending') => ServedThrough(session, handlers, turns, i + 1, nextId', pending')
  }

  /** Over every host script, serving keeps the ledger; it leaves a request open exactly when the turn it
      ends on reads one and cannot write. */
  lemma {:induction false} ServingKeepsLedger(session: Agreement, handlers: Handlers, turns: seq<Turn>, i: nat,
                                              nextId: nat, pending: Option<nat>)
    requires i <= |turns|
    ensures var ledger := Kept(Ledger(None, pending, nextId),
                               ServeRun(session, handlers, turns, i, nextId, pending).trace);
            var last := ServedThrough(session, handlers, turns, i, nextId, pending);
            ledger.Some? && ledger.value.owed == if last < |turns| then LostOn(turns[last]) else None
    decreases |turns| - i
  {
    if i < |turns| {
      TurnKeepsLedger(session, handlers, i, turns[i], nextId, pending);
      var step := ServeTurn(session, handlers, i, turns[i], nextId, pending);
      if step.Go? {
        ServingKeepsLedger(session, handlers, turns, i + 1, step.nextId, step.pending);
        KeptConcat(Ledger(None, pending, nextId), step.trace,
                   ServeRun(session, handlers, turns, i + 1, step.nextId, step.pending).trace);
      }
    }
  }

  /* The opening keeps it too. */

  const BLANK := Ledger(None, None, FIRST_HEARTBEAT_REQUEST_ID)

  lemma {:induction false} GreetingKeepsLedger(turns: seq<Turn>, agentVersion: string)
    ensures var stage := GreetRun(turns, None, agentVersion);
            && Kept(BLANK, stage.trace) == Some(BLANK.(owed := if turns == [] then None else LostOn(turns[0])))
            && (stage.result.Ok? ==> turns != [] && LostOn(turns[0]).None?)
  {
    var hello := Sent(HelloEnvelope(agentVersion));
    KeptOne(BLANK, hello);
    if ReadAt(turns, 0).Ok? {
      var heard, refusal := Received(turns[0].read.value), Sent(ResponseEnvelope(turns[0].read.value.id, REFUSAL));
      KeptTwo(BLANK, hello, heard);
      var owing := Posted(BLANK, heard).value;
      KeptConcat(BLANK, [hello] + [heard], [refusal]);
      KeptOne(owing, refusal);
      assert [hello] + [heard] + [] == [hello] + [heard];
    }
  }

  /** A challenge that cannot be answered: its nonce has the wrong length. */
  predicate IsBadChallenge(turn: Turn) {
    && turn.read.Ok? && turn.read.value.body.Some? && turn.read.value.body.value.Request?
    && turn.read.value.body.value.request.Some?
    && turn.read.value.body.value.request.value.AuthenticateRequest?
    && |turn.read.value.body.value.request.value.nonce| != NONCE_LEN
  }

  lemma {:induction false} ProofKeepsLedger(turns: seq<Turn>, tag: seq<Byte> -> seq<Byte>)
    ensures var stage := AuthenticateRun(turns, tag);
            && Kept(BLANK, stage.trace) == Some(BLANK.(owed := LostAt(turns, 1)))
            && (stage.result.Ok? ==> |turns| >= 2 && LostAt(turns, 1).None?)
  {
    if ReadAt(turns, 1).Ok? {
      var envelope := turns[1].read.value;
      var heard := Received(envelope);
      KeptOne(BLANK, heard);
      if AsRequest(heard).Some? {
        var owing := BLANK.(owed := Some(envelope.id));
        forall kind: ResponseKind
          ensures Kept(BLANK, [heard] + [Sent(ResponseEnvelope(envelope.id, kind))]) == Some(BLANK)
        {
          KeptTwo(BLANK, heard, Sent(ResponseEnvelope(envelope.id, kind)));
        }
        assert [heard] + [] == [heard];
      }
    }
  }

  /* The whole connection. */

  /** The turn a connection ends on: the hello's, the challenge's, or the one serving ends on. */
  function LastTurn(turns: seq<Turn>, agentVersion: string, tag: seq<Byte> -> seq<Byte>, handlers: Handlers): nat {
    var greeting := GreetRun(turns, None, agentVersion).result;
    if greeting.Err? then 0
    else if AuthenticateRun(turns, tag).result.Err? then 1
    else ServedThrough(greeting.value, handlers, turns, 2, FIRST_HEARTBEAT_REQUEST_ID, None)
  }

  /** The id of the request that goes unanswered when a connection ends on turn `k`: one whose answer cannot
      be written, or a challenge that has none. */
  function LostAt(turns: seq<Turn>, k: nat): Option<nat> {
    if k >= |turns| then None
    else if k == 1 && IsBadChallenge(turns[k]) then Some(turns[k].read.value.id)
    else LostOn(turns[k])
  }

  lemma {:induction false} SessionKeepsLedger(turns: seq<Turn>, helloFault: Option<FrameError>, agentVersion: string,
                           tag: seq<Byte> -> seq<Byte>, handlers: Handlers)
    ensures var ledger := Kept(BLANK, SessionRun(turns, helloFault, agentVersion, tag, handlers).trace);
            && ledger.Some?
            && ledger.value.owed ==
               if helloFault.Some? then None else LostAt(turns, LastTurn(turns, agentVersion, tag, handlers))
  {
    if helloFault.None? {
      var greeting, proof := GreetRun(turns, None, agentVersion), AuthenticateRun(turns, tag);
      GreetingKeepsLedger(turns, agentVersion);
      if greeting.result.Ok? {
        ProofKeepsLedger(turns, tag);
        KeptConcat(BLANK, greeting.trace, proof.trace);
        if proof.result.Ok? {
          var opening, session := greeting.trace + proof.trace, greeting.result.value;
          KeptConcat(BLANK, opening, [Opened(session)]);
          KeptOne(BLANK, Opened(session));
          ServingKeepsLedger(session, handlers, turns, 2, FIRST_HEARTBEAT_REQUEST_ID, None);
          KeptConcat(BLANK, opening + [Opened(session)],
                     ServeRun(session, handlers, turns, 2, FIRST_HEARTBEAT_REQUEST_ID, None).trace);
        }
      }
    }
  }

  /** At every moment of every connection: the requests read are the ones answered, in order and each under
      its own id, and at most one more; the heartbeats sent are numbered from two without gaps or wrap, and
      are the ones accepted, in order, and at most one more. */
  lemma {:induction false} SessionsStayInOrder(turns: seq<Turn>, helloFault: Option<FrameError>, agentVersion: string,
                            tag: seq<Byte> -> seq<Byte>, handlers: Handlers, n: nat)
    returns (owed: Option<nat>, pending: Option<nat>)
    requires n <= |SessionRun(turns, helloFault, agentVersion, tag, handlers).trace|
    ensures var soFar := SessionRun(turns, helloFault, agentVersion, tag, handlers).trace[..n];
            && Select(AsRequest, soFar) == Select(AsResponse, soFar) + One(owed)
            && Select(AsHeartbeat, soFar) == Select(AsAccepted, soFar) + One(pending)
            && Consecutive(Select(AsHeartbeat, soFar), FIRST_HEARTBEAT_REQUEST_ID)
  {
    var trace := SessionRun(turns, helloFault, agentVersion, tag, handlers).trace;
    SessionKeepsLedger(turns, helloFault, agentVersion, tag, handlers);
    KeptPrefix(BLANK, trace, n);
    var ledger := Kept(BLANK, trace[..n]).value;
    owed, pending := ledger.owed, ledger.pending;
    AnswersFollowRequests(BLANK, trace[..n]);
    AcceptedFollowSent(BLANK, trace[..n]);
    assert One(None) + Select(AsHeartbeat, trace[..n]) == Select(AsHeartbeat, trace[..n]);
    SentAreConsecutive(BLANK, trace[..n]);
  }

  /** When a connection is over, a request is left unanswered if and only if the turn it ended on read one
      and could not write, or read a challenge with a nonce of the wrong length; and it is that one. */
  lemma {:induction false} UnansweredRequests(turns: seq<Turn>, helloFault: Option<FrameError>, agentVersion: string,
                           tag: seq<Byte> -> seq<Byte>, handlers: Handlers)
    ensures var trace := SessionRun(turns, helloFault, agentVersion, tag, handlers).trace;
            var last := LastTurn(turns, agentVersion, tag, handlers);
            && Select(AsRequest, trace) ==
               Select(AsResponse, trace) + One(if helloFault.Some? then None else LostAt(turns, last))
  {
    var trace := SessionRun(turns, helloFault, agentVersion, tag, handlers).trace;
    SessionKeepsLedger(turns, helloFault, agentVersion, tag, handlers);
    AnswersFollowRequests(BLANK, trace);
  }

  /** So with a host that challenges properly and a transport that writes, every request is answered. */
  lemma {:induction false} EveryRequestIsAnswered(turns: seq<Turn>, agentVersion: string, tag: seq<Byte> -> seq<Byte>,
                                                  handlers: Handlers)
    requires forall k :: 0 <= k < |turns| ==> turns[k].fault.None?
    requires |turns| >= 2 ==> !IsBadChallenge(turns[1])
    ensures var trace := SessionRun(turns, None, agentVersion, tag, handlers).trace;
            Select(AsRequest, trace) == Select(AsResponse, trace)
  {
    UnansweredRequests(turns, None, agentVersion, tag, handlers);
  }

  /* Heartbeats and the byte stream. */

  lemma {:induction false} TurnHeartbeat(session: Agreement, handlers: Handlers, i: nat, turn: Turn, nextId: nat,
                                         pending: Option<nat>, n: nat)
    requires n < |ServeTurn(session, handlers, i, turn, nextId, pending).trace|
    requires AsHeartbeat(ServeTurn(session, handlers, i, turn, nextId, pending).trace[n]).Some?
    ensures turn.read == Err(Idle) && n == 0
  {
  }

  /** A heartbeat is sent on a turn whose read found the connection idle, and first thing on that turn: what
      precedes it in the trace is what the earlier turns alone bring about. */
  lemma {:induction false} ServedHeartbeatIsOnAnIdleTurn(session: Agreement, handlers: Handlers, turns: seq<Turn>,
                                                         i: nat, nextId: nat, pending: Option<nat>, n: nat)
    returns (k: nat)
    requires i <= |turns| && n < |ServeRun(session, handlers, turns, i, nextId, pending).trace|
    requires AsHeartbeat(ServeRun(session, handlers, turns, i, nextId, pending).trace[n]).Some?
    ensures i <= k < |turns| && turns[k].read == Err(Idle)
    ensures ServeRun(session, handlers, turns[..k], i, nextId, pending).trace
         == ServeRun(session, handlers, turns, i, nextId, pending).trace[..n]
    decreases |turns| - i
  {
    var step := ServeTurn(session, handlers, i, turns[i], nextId, pending);
    var trace := ServeRun(session, handlers, turns, i, nextId, pending).trace;
    if n < |step.trace| {
      assert trace[n] == step.trace[n];
      TurnHeartbeat(session, handlers, i, turns[i], nextId, pending, n);
      k := i;
    } else {
      var rest := ServeRun(session, handlers, turns, i + 1, step.nextId, step.pending).trace;
      var later := n - |step.trace|;
      assert trace[n] == rest[later];
      k := ServedHeartbeatIsOnAnIdleTurn(session, handlers, turns, i + 1, step.nextId, step.pending, later);
      assert turns[..k][i] == turns[i];
      assert trace[..n] == step.trace + rest[..later];
    }
  }

  /** The same of the whole connection. */
  lemma {:induction false} HeartbeatsAreSentWhenIdle(turns: seq<Turn>, helloFault: Option<FrameError>,
                                                     agentVersion: string, tag: seq<Byte> -> seq<Byte>,
                                                     handlers: Handlers, n: nat) returns (k: nat)
    requires n < |SessionRun(turns, helloFault, agentVersion, tag, handlers).trace|
    requires AsHeartbeat(SessionRun(turns, helloFault, agentVersion, tag, handlers).trace[n]).Some?
    ensures 2 <= k < |turns| && turns[k].read == Err(Idle)
    ensures SessionRun(turns[..k], helloFault, agentVersion, tag, handlers).trace
         == SessionRun(turns, helloFault, agentVersion, tag, handlers).trace[..n]
  {
    var trace := SessionRun(turns, helloFault, agentVersion, tag, handlers).trace;
    var greeting, proof := GreetRun(turns, helloFault, agentVersion), AuthenticateRun(turns, tag);
    OnlyServingBeats(turns, helloFault, agentVersion, tag, handlers, n);
    var session, opening := greeting.result.value, greeting.trace + proof.trace + [Opened(greeting.result.value)];
    var served := ServeRun(session, handlers, turns, 2, FIRST_HEARTBEAT_REQUEST_ID, None).trace;
    assert trace == opening + served;
    k := ServedHeartbeatIsOnAnIdleTurn(session, handlers, turns, 2, FIRST_HEARTBEAT_REQUEST_ID, None, n - |opening|);
    SameOpening(turns, k, helloFault, agentVersion, tag);
    assert trace[..n] == opening + served[..n - |opening|];
  }

  /** Nothing before the session is open is a heartbeat. */
  lemma {:induction false} OnlyServingBeats(turns: seq<Turn>, helloFault: Option<FrameError>, agentVersion: string,
                         tag: seq<Byte> -> seq<Byte>, handlers: Handlers, n: nat)
    requires n < |SessionRun(turns, helloFault, agentVersion, tag, handlers).trace|
    ensures var greeting, proof := GreetRun(turns, helloFault, agentVersion), AuthenticateRun(turns, tag);
            AsHeartbeat(SessionRun(turns, helloFault, agentVersion, tag, handlers).trace[n]).Some? ==>
              greeting.result.Ok? && proof.result.Ok? && n > |greeting.trace| + |proof.trace|
  {
    var trace := SessionRun(turns, helloFault, agentVersion, tag, handlers).trace;
    var greeting, proof := GreetRun(turns, helloFault, agentVersion), AuthenticateRun(turns, tag);
    OpeningHasNoHeartbeat(turns, helloFault, agentVersion, tag);
    if n < |greeting.trace| {
      assert trace[n] == greeting.trace[n];
    } else if n < |greeting.trace| + |proof.trace| {
      assert trace[n] == proof.trace[n - |greeting.trace|];
    }
  }

  lemma {:induction false} OpeningHasNoHeartbeat(turns: seq<Turn>, helloFault: Option<FrameError>, agentVersion: string,
                              tag: seq<Byte> -> seq<Byte>)
    ensures forall action :: action in GreetRun(turns, helloFault, agentVersion).trace ==> AsHeartbeat(action).None?
    ensures forall action :: action in AuthenticateRun(turns, tag).trace ==> AsHeartbeat(action).None?
  {
  }

  lemma {:induction false} SameOpening(turns: seq<Turn>, k: nat, helloFault: Option<FrameError>, agentVersion: string,
                    tag: seq<Byte> -> seq<Byte>)
    requires 2 <= k <= |turns|
    ensures GreetRun(turns[..k], helloFault, agentVersion) == GreetRun(turns, helloFault, agentVersion)
    ensures AuthenticateRun(turns[..k], tag) == AuthenticateRun(turns, tag)
  {
    assert turns[..k][0] == turns[0] && turns[..k][1] == turns[1];
  }

  /** The turns' reads are what reading frame after frame from a transport gives. */
  ghost predicate ReadFrom(turns: seq<Turn>, codec: Codec<Envelope>, script: Script) {
    && |turns| <= |ReadAll(codec, script)|
    && forall k :: 0 <= k < |turns| ==> turns[k].read == ReadAll(codec, script)[k]
  }

  /** No heartbeat is ever written inside a frame of the host's: over every transport and every session on
      it, when a heartbeat is sent the bytes taken off the stream are whole frames. */
  lemma {:induction false} HeartbeatsAreBetweenFrames(codec: Codec<Envelope>, script: Script, turns: seq<Turn>,
                                                      helloFault: Option<FrameError>,
                                                      agentVersion: string, tag: seq<Byte> -> seq<Byte>,
                                                      handlers: Handlers, n: nat)
    returns (k: nat, frames: seq<seq<Byte>>)
    requires ReadFrom(turns, codec, script)
    requires n < |SessionRun(turns, helloFault, agentVersion, tag, handlers).trace|
    requires AsHeartbeat(SessionRun(turns, helloFault, agentVersion, tag, handlers).trace[n]).Some?
    ensures k < |turns| && turns[k].read == Err(Idle)
    ensures SessionRun(turns[..k], helloFault, agentVersion, tag, handlers).trace
         == SessionRun(turns, helloFault, agentVersion, tag, handlers).trace[..n]
    ensures Bytes(script) == Concat(frames) + Bytes(RestAfter(codec, script, k + 1))
    ensures forall i :: 0 <= i < |frames| ==> IsFrame(frames[i])
    ensures |frames| == EnvelopesRead(codec, script, k + 1)
  {
    k := HeartbeatsAreSentWhenIdle(turns, helloFault, agentVersion, tag, handlers, n);
    assert ReadAll(codec, script)[k] == Err(Idle);
    ReadsWellBefore(codec, script, k + 1);
    frames := IdleIsBetweenFrames(codec, script, k + 1);
  }
}
