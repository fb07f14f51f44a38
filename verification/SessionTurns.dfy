/** What a connection does, turn by turn, judged by its trace alone.

    How a connection opens, or why it does not, is read off the host's first two messages. From then on each
    turn is judged by what came before it in the trace: how many heartbeats were sent and how many were
    accepted. No state is carried but the trace.
 */
module SessionTurns {
  import opened Outcomes
  import opened Handshake
  import opened Frame
  import opened Session
  import opened SessionOrder

  /* How a connection opens. */

  /** A hello answer that some host could have come to with this agent's offer. */
  ghost predicate CouldBeAgreed(chosen: Option<Version>, agreed: seq<int>) {
    && chosen.Some? && (exists host :: NegotiateVersion(host, CURRENT_VERSION) == Ok(chosen.value))
    && exists offer :: AllToWire(AgreedCapabilities(offer, AllToWire(AGENT_CAPABILITIES))) == agreed
  }

  /** The agent accepts exactly the answers that some host could have come to, as they are. */
  lemma {:induction false} HelloIsAccepted(chosen: Option<Version>, agreed: seq<int>)
    ensures Confirm(chosen, agreed).Ok? <==> CouldBeAgreed(chosen, agreed)
    ensures Confirm(chosen, agreed).Ok? ==>
              chosen == Some(Confirm(chosen, agreed).value.version) &&
              AllToWire(Confirm(chosen, agreed).value.capabilities) == agreed
    ensures Confirm(chosen, agreed).Err? ==> Confirm(chosen, agreed).error == InvalidHello
  {
    ConfirmsWhatIsNegotiated(CURRENT_VERSION, if chosen.Some? then chosen.value else Version(0, 0));
    if Confirm(chosen, agreed).Ok? {
      AgreementIsMutual(chosen, agreed);
      ConfirmsOnlyAgreements(AGENT_CAPABILITIES, agreed);
    }
    if CouldBeAgreed(chosen, agreed) {
      var offer :| AllToWire(AgreedCapabilities(offer, AllToWire(AGENT_CAPABILITIES))) == agreed;
      AgreementIsConfirmed(offer, AGENT_CAPABILITIES);
    }
  }

  /** A read that gives an acceptable answer to the hello. */
  ghost predicate IsAcceptance(read: Result<Envelope, FrameError>) {
    exists chosen, agreed ::
      read == Ok(ResponseEnvelope(HELLO_REQUEST_ID, HelloResponse(chosen, agreed))) && CouldBeAgreed(chosen, agreed)
  }

  predicate IsChallenge(read: Result<Envelope, FrameError>) {
    && read.Ok? && read.value.body.Some? && read.value.body.value.Request? && read.value.body.value.request.Some?
    && read.value.body.value.request.value.AuthenticateRequest?
  }

  predicate IsFairChallenge(read: Result<Envelope, FrameError>) {
    IsChallenge(read) && |read.value.body.value.request.value.nonce| == NONCE_LEN
  }

  /** The hello gets out and is accepted, and a fair challenge can be answered. */
  ghost predicate Opens(turns: seq<Turn>, helloFault: Option<FrameError>) {
    && helloFault.None? && |turns| >= 2 && IsAcceptance(turns[0].read)
    && IsFairChallenge(turns[1].read) && turns[1].fault.None?
  }

  lemma GreetingAccepts(turns: seq<Turn>, agentVersion: string)
    ensures GreetRun(turns, None, agentVersion).result.Ok? <==> turns != [] && IsAcceptance(turns[0].read)
    ensures turns != [] && IsAcceptance(turns[0].read) ==>
              GreetRun(turns, None, agentVersion).trace ==
                [Sent(HelloEnvelope(agentVersion))] + [Received(turns[0].read.value)]
  {
    if turns != [] && turns[0].read.Ok? {
      var envelope := turns[0].read.value;
      match envelope.body {
        case Some(Response(Some(HelloResponse(chosen, agreed)))) =>
          HelloIsAccepted(chosen, agreed);
          assert envelope.id == HELLO_REQUEST_ID ==>
            envelope == ResponseEnvelope(HELLO_REQUEST_ID, HelloResponse(chosen, agreed));
        case _ =>
      }
    }
  }

  /** A session opens exactly then; and the opening is the hello with this build's version and capabilities, its
      answer, the challenge and its tag, under the version and capabilities of the answer. */
  lemma {:induction false} OpensExactlyWhen(turns: seq<Turn>, helloFault: Option<FrameError>, agentVersion: string,
                                            tag: seq<Byte> -> seq<Byte>, handlers: Handlers)
    ensures var trace := SessionRun(turns, helloFault, agentVersion, tag, handlers).trace;
            && ((exists session :: Opened(session) in trace) <==> Opens(turns, helloFault))
            && (Opens(turns, helloFault) ==>
                  exists session :: IsOpening(turns, agentVersion, tag, session, trace[..5]))
  {
    SessionsAreGated(turns, helloFault, agentVersion, tag, handlers);
    GreetingAccepts(turns, agentVersion);
    var trace := SessionRun(turns, helloFault, agentVersion, tag, handlers).trace;
    if Opens(turns, helloFault) {
      var session := OpeningOf(turns, agentVersion, tag, handlers);
      assert trace[4] == Opened(session);
    }
  }

  ghost predicate IsOpening(turns: seq<Turn>, agentVersion: string, tag: seq<Byte> -> seq<Byte>, session: Agreement,
                            trace: seq<Action>)
    requires Opens(turns, None)
  {
    var answer, challenge := turns[0].read.value, turns[1].read.value;
    && trace ==
       [Sent(RequestEnvelope(1, HelloRequest(CURRENT_VERSION, AllToWire(AGENT_CAPABILITIES), agentVersion))),
        Received(answer), Received(challenge),
        Sent(ResponseEnvelope(challenge.id, AuthenticateResponse(tag(challenge.body.value.request.value.nonce)))),
        Opened(session)]
    && answer == ResponseEnvelope(1, HelloResponse(Some(session.version), AllToWire(session.capabilities)))
  }

  lemma {:induction false} OpeningOf(turns: seq<Turn>, agentVersion: string, tag: seq<Byte> -> seq<Byte>,
                                     handlers: Handlers) returns (session: Agreement)
    requires Opens(turns, None)
    ensures GreetRun(turns, None, agentVersion).result == Ok(session) && AuthenticateRun(turns, tag).result == Ok(())
    ensures var stage := SessionRun(turns, None, agentVersion, tag, handlers);
            && |stage.trace| >= 5 && IsOpening(turns, agentVersion, tag, session, stage.trace[..5])
            && stage == After(stage.trace[..5],
                              ServeRun(session, handlers, turns, 2, FIRST_HEARTBEAT_REQUEST_ID, None))
  {
    GreetingAccepts(turns, agentVersion);
    session := GreetRun(turns, None, agentVersion).result.value;
    var hello := turns[0].read.value.body.value.response.value;
    HelloIsAccepted(hello.chosen, hello.agreed);
    var opening := GreetRun(turns, None, agentVersion).trace + AuthenticateRun(turns, tag).trace + [Opened(session)];
    var trace := SessionRun(turns, None, agentVersion, tag, handlers).trace;
    assert trace == opening + ServeRun(session, handlers, turns, 2, FIRST_HEARTBEAT_REQUEST_ID, None).trace;
    assert |opening| == 5 && trace[..5] == opening;
  }

  /** What a message that opens nothing leads to: a request is refused once, anything else ends the connection for
      what it is. The challenge is only ever due after the hello was accepted. */
  ghost predicate BreaksOff(before: seq<Action>, due: bool, envelope: Envelope, fault: Option<FrameError>,
                            stage: Stage<()>) {
    var heard := before + [Received(envelope)];
    match envelope.body
    case Some(Request(_)) =>
      if due && IsChallenge(Ok(envelope)) && !IsFairChallenge(Ok(envelope)) then stage == Stage(heard, Err(Malformed))
      else if fault.Some? then stage == Stage(heard, Err(Faulted(fault.value)))
      else stage == Stage(heard + [Sent(ResponseEnvelope(envelope.id, REFUSAL))], Err(OutOfOrder))
    case Some(Response(Some(ErrorResponse(code, message)))) => stage == Stage(heard, Err(Refused(code, message)))
    case Some(Response(Some(kind))) =>
      stage == Stage(heard, Err(if !due && kind.HelloResponse? && envelope.id == 1 then InvalidHello else OutOfOrder))
    case _ => stage == Stage(heard, Err(Malformed))
  }

  /** Why a connection does not open, over every host. */
  lemma {:induction false} FailsToOpen(turns: seq<Turn>, helloFault: Option<FrameError>, agentVersion: string,
                                       tag: seq<Byte> -> seq<Byte>, handlers: Handlers)
    requires !Opens(turns, helloFault)
    ensures var stage := SessionRun(turns, helloFault, agentVersion, tag, handlers);
            if helloFault.Some? then stage == Stage([], Err(Faulted(helloFault.value)))
            else
              var hello := [Sent(HelloEnvelope(agentVersion))];
              var due := turns != [] && IsAcceptance(turns[0].read);
              var before := if due then hello + [Received(turns[0].read.value)] else hello;
              var p := if due then 1 else 0;
              match ReadAt(turns, p)
              case Err(error) => stage == Stage(before, Err(Faulted(error)))
              case Ok(envelope) => BreaksOff(before, due, envelope, FaultAt(turns, p), stage)
  {
    if helloFault.None? {
      GreetingAccepts(turns, agentVersion);
      var due := turns != [] && IsAcceptance(turns[0].read);
      if due {
        ChallengeFails(turns, agentVersion, tag, handlers);
      } else {
        HelloFails(turns, agentVersion, tag, handlers);
      }
    }
  }

  lemma {:induction false} HelloFails(turns: seq<Turn>, agentVersion: string, tag: seq<Byte> -> seq<Byte>,
                                      handlers: Handlers)
    requires !(turns != [] && IsAcceptance(turns[0].read))
    ensures var stage := SessionRun(turns, None, agentVersion, tag, handlers);
            var hello := [Sent(HelloEnvelope(agentVersion))];
            match ReadAt(turns, 0)
            case Err(error) => stage == Stage(hello, Err(Faulted(error)))
            case Ok(envelope) => BreaksOff(hello, false, envelope, FaultAt(turns, 0), stage)
  {
    GreetingAccepts(turns, agentVersion);
    if ReadAt(turns, 0).Ok? {
      var envelope := turns[0].read.value;
      assert forall kind :: [Sent(HelloEnvelope(agentVersion))] + [Received(envelope)] + [Sent(kind)]
                         == ([Sent(HelloEnvelope(agentVersion))] + [Received(envelope)]) + [Sent(kind)];
      match envelope.body {
        case Some(Response(Some(HelloResponse(chosen, agreed)))) => HelloIsAccepted(chosen, agreed);
        case _ =>
      }
    }
  }

  lemma {:induction false} ChallengeFails(turns: seq<Turn>, agentVersion: string, tag: seq<Byte> -> seq<Byte>,
                                          handlers: Handlers)
    requires turns != [] && IsAcceptance(turns[0].read) && !Opens(turns, None)
    ensures var stage := SessionRun(turns, None, agentVersion, tag, handlers);
            var before := [Sent(HelloEnvelope(agentVersion))] + [Received(turns[0].read.value)];
            match ReadAt(turns, 1)
            case Err(error) => stage == Stage(before, Err(Faulted(error)))
            case Ok(envelope) => BreaksOff(before, true, envelope, FaultAt(turns, 1), stage)
  {
    GreetingAccepts(turns, agentVersion);
    var before := [Sent(HelloEnvelope(agentVersion))] + [Received(turns[0].read.value)];
    var proof := AuthenticateRun(turns, tag);
    assert SessionRun(turns, None, agentVersion, tag, handlers) == Stage(before + proof.trace, Err(proof.result.error));
    if ReadAt(turns, 1).Ok? {
      var envelope := turns[1].read.value;
      assert before + ([Received(envelope)] + [Sent(ResponseEnvelope(envelope.id, REFUSAL))])
          == before + [Received(envelope)] + [Sent(ResponseEnvelope(envelope.id, REFUSAL))];
      match envelope.body {
        case Some(Request(_)) =>
        case _ => assert proof.trace == [Received(envelope)];
      }
    } else {
      assert before + [] == before;
    }
  }

  /* What the host may ask for, and what it gets. */

  /** What a session lets its host ask for. */
  predicate MayAsk(session: Agreement, request: Option<RequestKind>) {
    match request
    case Some(HeartbeatRequest) => true
    case Some(Reboot) => true
    case Some(AttachGpuShares(_)) => Gpu in session.capabilities
    case Some(ApplyGpuRecipe) => Gpu in session.capabilities
    case Some(ProbeGpu) => Gpu in session.capabilities
    case Some(AttachDisplayPayload(_)) => Display in session.capabilities
    case Some(ApplyDisplayRecipe(_)) => Display in session.capabilities
    case Some(UpdateDisplayPayload(_)) => Display in session.capabilities
    case _ => false
  }

  /** What a host is told of an update: the report itself, or before revision 8 what it can read of it. */
  ghost predicate Tells(report: UpdateReport, minor: nat, told: UpdateReport) {
    if minor >= DISPLAY_REBOOT_REQUIRED_REVISION then told == report
    else
      && told.versions == report.versions && told.stages == WithoutInitramfs(report.stages)
      && told.outcome == if report.outcome == OUTCOME_REBOOT_REQUIRED then OUTCOME_FAILED else report.outcome
  }

  /** The one handler a request is for is called, and what it gives on this turn is the answer. */
  ghost predicate CarriesOut(session: Agreement, handlers: Handlers, k: nat, request: RequestKind, calls: seq<Call>,
                             response: ResponseKind) {
    match request
    case HeartbeatRequest => calls == [] && response == HeartbeatResponse
    case AttachGpuShares(shares) =>
      calls == [CallAttachGpu] &&
      response == GpuSharesAttached(handlers.attachGpu(k, shares).0, handlers.attachGpu(k, shares).1)
    case ApplyGpuRecipe => calls == [CallGpuRecipe] && response == GpuRecipeApplied(handlers.applyGpuRecipe(k))
    case ProbeGpu => calls == [CallProbeGpu] && response == GpuProbed(handlers.probeGpu(k))
    case AttachDisplayPayload(share) =>
      calls == [CallAttachDisplay] &&
      response == DisplayAttached(handlers.attachDisplay(k, if share.Some? then share.value else []))
    case ApplyDisplayRecipe(mode) =>
      calls == [CallDisplayRecipe] && response == DisplayRecipeApplied(handlers.applyDisplayRecipe(k, mode))
    case UpdateDisplayPayload(target) =>
      calls == [CallUpdateDisplay] && response.DisplayUpdated? &&
      Tells(handlers.updateDisplay(k, target), session.version.minor, response.update)
    case Reboot =>
      calls == [CallReboot] &&
      response == if handlers.reboot(k).Ok? then Rebooting else ErrorResponse(Unavailable, handlers.reboot(k).error)
    case _ => false
  }

  ghost predicate Serves(session: Agreement, handlers: Handlers, k: nat, request: Option<RequestKind>, calls: seq<Call>,
                         response: ResponseKind) {
    if MayAsk(session, request) then
      response != REFUSAL && CarriesOut(session, handlers, k, request.value, calls, response)
    else calls == [] && response == REFUSAL
  }

  lemma {:induction false} RequestsAreCarriedOut(session: Agreement, handlers: Handlers, k: nat,
                                                 request: Option<RequestKind>)
    ensures var (calls, response) := Answer(session, handlers, k, request);
            Serves(session, handlers, k, request, calls, response)
  {
    if request.Some? && request.value.UpdateDisplayPayload? {
      CompatibleReport(handlers.updateDisplay(k, request.value.target), session.version.minor);
    }
  }

  /* One turn of a session. */

  /** How many heartbeats a trace has sent, and how many of them were accepted. */
  function Beats(trace: seq<Action>): nat {
    |Select(AsHeartbeat, trace)|
  }

  function Accepts(trace: seq<Action>): nat {
    |Select(AsAccepted, trace)|
  }

  /** What a turn of a session comes to, given what the connection did before it. */
  ghost predicate Conducts(session: Agreement, handlers: Handlers, k: nat, turn: Turn, before: seq<Action>,
                           after: Stage<()>) {
    match turn.read
    case Err(Closed) => after == Stage(before, Ok(()))
    case Err(Idle) =>
      if Beats(before) > Accepts(before) then after == Stage(before, Err(HeartbeatUnanswered))
      else if 2 + Beats(before) >= U32_MAX then after == Stage(before, Err(RequestIdsExhausted))
      else if turn.fault.Some? then after == Stage(before, Err(Faulted(turn.fault.value)))
      else after == Stage(before + [Sent(RequestEnvelope(2 + Beats(before), HeartbeatRequest))], Ok(()))
    case Err(error) => after == Stage(before, Err(Faulted(error)))
    case Ok(envelope) => Minds(session, handlers, k, envelope, turn.fault, before, after)
  }

  /** What a message comes to. */
  ghost predicate Minds(session: Agreement, handlers: Handlers, k: nat, envelope: Envelope, fault: Option<FrameError>,
                        before: seq<Action>, after: Stage<()>) {
    var heard := before + [Received(envelope)];
    match envelope.body
    case Some(Request(request)) =>
      exists calls, response ::
        && Serves(session, handlers, k, request, calls, response)
        && after == if fault.Some? then Stage(heard + Calls(calls), Err(Faulted(fault.value)))
                    else Stage(heard + Calls(calls) + [Sent(ResponseEnvelope(envelope.id, response))], Ok(()))
    case Some(Response(Some(ErrorResponse(code, message)))) => after == Stage(heard, Err(Refused(code, message)))
    case Some(Response(Some(kind))) =>
      if kind.HeartbeatResponse? && Beats(before) > Accepts(before) && envelope.id == 1 + Beats(before) then
        after == Stage(heard + [Accepted(envelope.id)], Ok(()))
      else after == Stage(heard, Err(OutOfOrder))
    case _ => after == Stage(heard, Err(Malformed))
  }

  function AsStage(step: Session.Step): Stage<()> {
    match step
    case Stop(trace, result) => Stage(trace, result)
    case Go(trace, _, _) => Stage(trace, Ok(()))
  }

  /** What a ledger says of the trace behind it. */
  lemma {:induction false} LedgerCounts(trace: seq<Action>)
    requires Kept(BLANK, trace).Some?
    ensures var ledger := Kept(BLANK, trace).value;
            && ledger.nextId == 2 + Beats(trace)
            && (ledger.pending.Some? <==> Beats(trace) > Accepts(trace))
            && (ledger.pending.Some? ==> ledger.pending.value == 1 + Beats(trace))
  {
    var ledger := Kept(BLANK, trace).value;
    SentAreConsecutive(BLANK, trace);
    AcceptedFollowSent(BLANK, trace);
    var sent, accepted := Select(AsHeartbeat, trace), Select(AsAccepted, trace);
    assert One(None) + sent == sent;
    assert sent == accepted + One(ledger.pending);
    assert ledger.pending.Some? ==> sent[|sent| - 1] == ledger.pending.value;
  }

  lemma {:induction false} TurnsConduct(session: Agreement, handlers: Handlers, k: nat, turn: Turn, before: seq<Action>,
                                        nextId: nat, pending: Option<nat>)
    requires Kept(BLANK, before) == Some(Ledger(None, pending, nextId))
    ensures Conducts(session, handlers, k, turn, before,
                     After(before, AsStage(ServeTurn(session, handlers, k, turn, nextId, pending))))
  {
    LedgerCounts(before);
    assert before + [] == before;
    if turn.read.Ok? {
      TurnsMind(session, handlers, k, turn, before, nextId, pending);
    }
  }

  lemma {:induction false} TurnsMind(session: Agreement, handlers: Handlers, k: nat, turn: Turn, before: seq<Action>,
                                     nextId: nat, pending: Option<nat>)
    requires turn.read.Ok? && Kept(BLANK, before) == Some(Ledger(None, pending, nextId))
    ensures Minds(session, handlers, k, turn.read.value, turn.fault, before,
                  After(before, AsStage(ServeTurn(session, handlers, k, turn, nextId, pending))))
  {
    LedgerCounts(before);
    var envelope := turn.read.value;
    var heard := [Received(envelope)];
    match envelope.body
    case Some(Request(request)) =>
      var (calls, response) := Answer(session, handlers, k, request);
      RequestsAreCarriedOut(session, handlers, k, request);
      assert before + (heard + Calls(calls)) == before + heard + Calls(calls);
      assert before + (heard + Calls(calls) + [Sent(ResponseEnvelope(envelope.id, response))])
          == before + heard + Calls(calls) + [Sent(ResponseEnvelope(envelope.id, response))];
    case _ =>
      assert before + (heard + [Accepted(envelope.id)]) == before + heard + [Accepted(envelope.id)];
  }

  /* A whole session. */

  /** The session is still being served when turn `k` comes. */
  ghost predicate ServesUntil(turns: seq<Turn>, helloFault: Option<FrameError>, agentVersion: string,
                              tag: seq<Byte> -> seq<Byte>, handlers: Handlers, k: nat) {
    && 2 <= k <= |turns| && Opens(turns, helloFault)
    && SessionRun(turns[..k], helloFault, agentVersion, tag, handlers).result.Ok?
    && forall j :: 2 <= j < k ==> turns[j].read != Err(Closed)
  }

  /** Serving up to a turn, and then that turn, under the ledger of what came before. */
  lemma {:induction false} ServingSplits(session: Agreement, handlers: Handlers, turns: seq<Turn>, i: nat, k: nat,
                                         nextId: nat, pending: Option<nat>)
    returns (nextId': nat, pending': Option<nat>)
    requires i <= k <= |turns| && ServeRun(session, handlers, turns[..k], i, nextId, pending).result.Ok?
    requires forall j :: i <= j < k ==> turns[j].read != Err(Closed)
    ensures var front := ServeRun(session, handlers, turns[..k], i, nextId, pending).trace;
            && Kept(Ledger(None, pending, nextId), front) == Some(Ledger(None, pending', nextId'))
            && ServeRun(session, handlers, turns, i, nextId, pending) ==
               After(front, ServeRun(session, handlers, turns, k, nextId', pending'))
            && (k < |turns| ==>
                  ServeRun(session, handlers, turns[..k + 1], i, nextId, pending) ==
                  After(front, AsStage(ServeTurn(session, handlers, k, turns[k], nextId', pending'))))
    decreases k - i
  {
    if i == k {
      nextId', pending' := nextId, pending;
      NothingBefore(ServeRun(session, handlers, turns, i, nextId, pending));
      if k < |turns| {
        assert turns[..k + 1][k] == turns[k];
        LastTurnAlone(session, handlers, turns[..k + 1], k, nextId, pending);
        NothingBefore(ServeRun(session, handlers, turns[..k + 1], i, nextId, pending));
      }
    } else {
      assert turns[..k][i] == turns[i];
      TurnKeepsLedger(session, handlers, i, turns[i], nextId, pending);
      var step := ServeTurn(session, handlers, i, turns[i], nextId, pending);
      nextId', pending' := ServingSplits(session, handlers, turns, i + 1, k, step.nextId, step.pending);
      var rest := ServeRun(session, handlers, turns[..k], i + 1, step.nextId, step.pending);
      KeptConcat(Ledger(None, pending, nextId), step.trace, rest.trace);
      AfterTwice(step.trace, rest.trace, ServeRun(session, handlers, turns, k, nextId', pending'));
      if k < |turns| {
        assert turns[..k + 1][i] == turns[i];
        AfterTwice(step.trace, rest.trace, AsStage(ServeTurn(session, handlers, k, turns[k], nextId', pending')));
      }
    }
  }

  lemma NothingBefore(stage: Stage<()>)
    ensures After([], stage) == stage
  {
  }

  lemma LastTurnAlone(session: Agreement, handlers: Handlers, turns: seq<Turn>, k: nat, nextId: nat,
                      pending: Option<nat>)
    requires |turns| == k + 1
    ensures ServeRun(session, handlers, turns, k, nextId, pending) ==
            AsStage(ServeTurn(session, handlers, k, turns[k], nextId, pending))
  {
  }

  lemma StillOpens(turns: seq<Turn>, helloFault: Option<FrameError>, k: nat)
    requires 2 <= k <= |turns|
    ensures Opens(turns[..k], helloFault) <==> Opens(turns, helloFault)
  {
    assert turns[..k][0] == turns[0] && turns[..k][1] == turns[1];
  }

  /** A connection served up to a turn, and that turn, from the same state. */
  lemma {:induction false} SessionSplits(turns: seq<Turn>, helloFault: Option<FrameError>, agentVersion: string,
                                         tag: seq<Byte> -> seq<Byte>, handlers: Handlers, k: nat)
    returns (session: Agreement, nextId: nat, pending: Option<nat>)
    requires ServesUntil(turns, helloFault, agentVersion, tag, handlers, k)
    ensures var before := SessionRun(turns[..k], helloFault, agentVersion, tag, handlers);
            && |before.trace| >= 5 && before.trace[4] == Opened(session)
            && Kept(BLANK, before.trace) == Some(Ledger(None, pending, nextId))
            && SessionRun(turns, helloFault, agentVersion, tag, handlers) ==
               After(before.trace, ServeRun(session, handlers, turns, k, nextId, pending))
            && (k < |turns| ==>
                  SessionRun(turns[..k + 1], helloFault, agentVersion, tag, handlers) ==
                  After(before.trace, AsStage(ServeTurn(session, handlers, k, turns[k], nextId, pending))))
  {
    session := OpeningOf(turns, agentVersion, tag, handlers);
    var opening := SessionRun(turns, None, agentVersion, tag, handlers).trace[..5];
    OpensTheSame(turns, agentVersion, tag, handlers, k, session);
    var front := ServeRun(session, handlers, turns[..k], 2, FIRST_HEARTBEAT_REQUEST_ID, None);
    nextId, pending := ServingSplits(session, handlers, turns, 2, k, FIRST_HEARTBEAT_REQUEST_ID, None);
    AfterTwice(opening, front.trace, ServeRun(session, handlers, turns, k, nextId, pending));
    OpeningKeeps(turns, agentVersion, tag, handlers, session);
    KeptConcat(BLANK, opening, front.trace);
    if k < |turns| {
      OpensTheSame(turns, agentVersion, tag, handlers, k + 1, session);
      AfterTwice(opening, front.trace, AsStage(ServeTurn(session, handlers, k, turns[k], nextId, pending)));
    }
  }

  lemma {:induction false} OpensTheSame(turns: seq<Turn>, agentVersion: string, tag: seq<Byte> -> seq<Byte>,
                                        handlers: Handlers, k: nat, session: Agreement)
    requires 2 <= k <= |turns| && Opens(turns, None)
    requires GreetRun(turns, None, agentVersion).result == Ok(session)
    ensures |SessionRun(turns, None, agentVersion, tag, handlers).trace| >= 5
    ensures SessionRun(turns[..k], None, agentVersion, tag, handlers) ==
            After(SessionRun(turns, None, agentVersion, tag, handlers).trace[..5],
                  ServeRun(session, handlers, turns[..k], 2, FIRST_HEARTBEAT_REQUEST_ID, None))
  {
    StillOpens(turns, None, k);
    SameOpening(turns, k, None, agentVersion, tag);
    var whole := OpeningOf(turns, agentVersion, tag, handlers);
    var cut := OpeningOf(turns[..k], agentVersion, tag, handlers);
  }

  /** Over every host: each turn of a session does what the trace so far and the message call for; what it does is
      added to the trace; and what ends the session ends it for good. */
  lemma {:induction false} ServesTurnByTurn(turns: seq<Turn>, helloFault: Option<FrameError>, agentVersion: string,
                                            tag: seq<Byte> -> seq<Byte>, handlers: Handlers, k: nat)
    returns (session: Agreement)
    requires ServesUntil(turns, helloFault, agentVersion, tag, handlers, k)
    ensures var before := SessionRun(turns[..k], helloFault, agentVersion, tag, handlers);
            var whole := SessionRun(turns, helloFault, agentVersion, tag, handlers);
            && |before.trace| >= 5 && before.trace[4] == Opened(session) && before.trace <= whole.trace
            && (k == |turns| ==> whole == before)
            && (k < |turns| ==>
                  var after := SessionRun(turns[..k + 1], helloFault, agentVersion, tag, handlers);
                  && Conducts(session, handlers, k, turns[k], before.trace, after)
                  && after.trace <= whole.trace
                  && (ServesUntil(turns, helloFault, agentVersion, tag, handlers, k + 1) || whole == after))
  {
    var nextId, pending;
    session, nextId, pending := SessionSplits(turns, helloFault, agentVersion, tag, handlers, k);
    var before := SessionRun(turns[..k], helloFault, agentVersion, tag, handlers).trace;
    if k == |turns| {
      assert turns[..k] == turns;
    } else {
      TurnsConduct(session, handlers, k, turns[k], before, nextId, pending);
      var step := ServeTurn(session, handlers, k, turns[k], nextId, pending);
      if step.Go? {
        AfterTwice(before, step.trace, ServeRun(session, handlers, turns, k + 1, step.nextId, step.pending));
      }
    }
  }

  lemma {:induction false} OpeningKeeps(turns: seq<Turn>, agentVersion: string, tag: seq<Byte> -> seq<Byte>,
                                        handlers: Handlers, session: Agreement)
    requires Opens(turns, None) && GreetRun(turns, None, agentVersion).result == Ok(session)
    ensures |SessionRun(turns, None, agentVersion, tag, handlers).trace| >= 5
    ensures Kept(BLANK, SessionRun(turns, None, agentVersion, tag, handlers).trace[..5]) == Some(BLANK)
  {
    var greeting, proof := GreetRun(turns, None, agentVersion), AuthenticateRun(turns, tag);
    GreetingKeepsLedger(turns, agentVersion);
    ProofKeepsLedger(turns, tag);
    KeptConcat(BLANK, greeting.trace, proof.trace);
    KeptConcat(BLANK, greeting.trace + proof.trace, [Opened(session)]);
    KeptOne(BLANK, Opened(session));
    var same := OpeningOf(turns, agentVersion, tag, handlers);
    GreetingAccepts(turns, agentVersion);
    assert SessionRun(turns, None, agentVersion, tag, handlers).trace[..5] ==
           greeting.trace + proof.trace + [Opened(session)];
  }

  /* Every request of a session. */

  /** A turn reads its message first thing, if it reads one. */
  lemma {:induction false} TurnReceives(session: Agreement, handlers: Handlers, i: nat, turn: Turn, nextId: nat,
                                        pending: Option<nat>, n: nat)
    requires n < |ServeTurn(session, handlers, i, turn, nextId, pending).trace|
    requires ServeTurn(session, handlers, i, turn, nextId, pending).trace[n].Received?
    ensures n == 0 && turn.read == Ok(ServeTurn(session, handlers, i, turn, nextId, pending).trace[n].envelope)
  {
  }

  /** A request in the trace of serving was read on a turn that serving came to. */
  lemma {:induction false} ReadOnATurn(session: Agreement, handlers: Handlers, turns: seq<Turn>, i: nat, nextId: nat,
                                       pending: Option<nat>, n: nat)
    returns (k: nat)
    requires i <= |turns| && n < |ServeRun(session, handlers, turns, i, nextId, pending).trace|
    requires ServeRun(session, handlers, turns, i, nextId, pending).trace[n].Received?
    ensures i <= k < |turns|
    ensures turns[k].read == Ok(ServeRun(session, handlers, turns, i, nextId, pending).trace[n].envelope)
    ensures var front := ServeRun(session, handlers, turns[..k], i, nextId, pending);
            front.result.Ok? && front.trace == ServeRun(session, handlers, turns, i, nextId, pending).trace[..n]
    ensures forall j :: i <= j < k ==> turns[j].read != Err(Closed)
    decreases |turns| - i
  {
    var step := ServeTurn(session, handlers, i, turns[i], nextId, pending);
    var trace := ServeRun(session, handlers, turns, i, nextId, pending).trace;
    if n < |step.trace| {
      assert trace[n] == step.trace[n];
      TurnReceives(session, handlers, i, turns[i], nextId, pending, n);
      k := i;
    } else {
      var rest := ServeRun(session, handlers, turns, i + 1, step.nextId, step.pending).trace;
      var later := n - |step.trace|;
      assert trace[n] == rest[later];
      k := ReadOnATurn(session, handlers, turns, i + 1, step.nextId, step.pending, later);
      assert turns[..k][i] == turns[i];
      assert trace[..n] == step.trace + rest[..later];
    }
  }

  /** The same of the whole connection: what precedes the message is what the earlier turns alone bring about. */
  lemma {:induction false} ServedOnATurn(turns: seq<Turn>, helloFault: Option<FrameError>, agentVersion: string,
                                         tag: seq<Byte> -> seq<Byte>, handlers: Handlers, n: nat)
    returns (session: Agreement, k: nat)
    requires Opens(turns, helloFault) && 5 <= n < |SessionRun(turns, helloFault, agentVersion, tag, handlers).trace|
    requires SessionRun(turns, helloFault, agentVersion, tag, handlers).trace[n].Received?
    ensures var whole := SessionRun(turns, helloFault, agentVersion, tag, handlers);
            && ServesUntil(turns, helloFault, agentVersion, tag, handlers, k) && k < |turns|
            && turns[k].read == Ok(whole.trace[n].envelope) && whole.trace[4] == Opened(session)
            && SessionRun(turns[..k], helloFault, agentVersion, tag, handlers).trace == whole.trace[..n]
  {
    var whole := SessionRun(turns, None, agentVersion, tag, handlers);
    session := OpeningOf(turns, agentVersion, tag, handlers);
    var served := ServeRun(session, handlers, turns, 2, FIRST_HEARTBEAT_REQUEST_ID, None).trace;
    assert whole.trace[n] == served[n - 5];
    k := ReadOnATurn(session, handlers, turns, 2, FIRST_HEARTBEAT_REQUEST_ID, None, n - 5);
    OpensTheSame(turns, agentVersion, tag, handlers, k, session);
    assert whole.trace[..n] == whole.trace[..5] + served[..n - 5];
  }

  /** Over every host: a request read once the session is open is followed by exactly the one call it is for, and then
      by its answer under its own id with what that handler gave on that turn; or by its refusal alone, exactly when it
      is unknown, out of place or not among the agreed capabilities; or, when the answer cannot be written, by the call
      and nothing more. */
  lemma {:induction false} RequestsAreServed(turns: seq<Turn>, helloFault: Option<FrameError>, agentVersion: string,
                                             tag: seq<Byte> -> seq<Byte>, handlers: Handlers, n: nat)
    returns (session: Agreement, k: nat, calls: seq<Call>, response: ResponseKind)
    requires Opens(turns, helloFault) && 5 <= n < |SessionRun(turns, helloFault, agentVersion, tag, handlers).trace|
    requires AsRequest(SessionRun(turns, helloFault, agentVersion, tag, handlers).trace[n]).Some?
    ensures var trace := SessionRun(turns, helloFault, agentVersion, tag, handlers).trace;
            var envelope := trace[n].envelope;
            && trace[4] == Opened(session)
            && k < |turns| && turns[k].read == Ok(envelope)
            && Serves(session, handlers, k, envelope.body.value.request, calls, response)
            && if turns[k].fault.Some? then trace[n + 1..] == Calls(calls)
               else
                 n + 1 + |calls| < |trace| && trace[n + 1..n + 1 + |calls|] == Calls(calls)
                 && trace[n + 1 + |calls|] == Sent(ResponseEnvelope(envelope.id, response))
  {
    var whole := SessionRun(turns, helloFault, agentVersion, tag, handlers);
    var envelope := whole.trace[n].envelope;
    session, k := ServedOnATurn(turns, helloFault, agentVersion, tag, handlers, n);
    var before := whole.trace[..n];
    var same := ServesTurnByTurn(turns, helloFault, agentVersion, tag, handlers, k);
    var after := SessionRun(turns[..k + 1], helloFault, agentVersion, tag, handlers);
    calls, response :| && Serves(session, handlers, k, envelope.body.value.request, calls, response)
      && after == if turns[k].fault.Some?
                  then Stage(before + [Received(envelope)] + Calls(calls), Err(Faulted(turns[k].fault.value)))
                  else Stage(before + [Received(envelope)] + Calls(calls) +
                             [Sent(ResponseEnvelope(envelope.id, response))], Ok(()));
    Follows(before, envelope, calls, after.trace, whole.trace, turns[k].fault.Some?, response);
  }

  lemma Follows(before: seq<Action>, envelope: Envelope, calls: seq<Call>, after: seq<Action>, whole: seq<Action>,
                faulted: bool, response: ResponseKind)
    requires after == before + [Received(envelope)] + Calls(calls) +
                      (if faulted then [] else [Sent(ResponseEnvelope(envelope.id, response))])
    requires after <= whole && (faulted ==> whole == after)
    ensures var n := |before|;
            && |whole| > n + |calls|
            && whole[n + 1..n + 1 + |calls|] == Calls(calls)
            && (faulted ==> whole[n + 1..] == Calls(calls))
            && (!faulted ==> n + 1 + |calls| < |whole| &&
                             whole[n + 1 + |calls|] == Sent(ResponseEnvelope(envelope.id, response)))
  {
    var n := |before|;
    assert after[n + 1..n + 1 + |calls|] == Calls(calls);
    assert forall i :: 0 <= i < |after| ==> whole[i] == after[i];
    assert whole[n + 1..n + 1 + |calls|] == after[n + 1..n + 1 + |calls|];
  }
}
