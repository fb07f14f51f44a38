/** The guest agent's half of a session: hello, challenge, then serving the host's requests.

    The host is an arbitrary script of turns. Each turn is what one read gives the agent, as `Frame`
    describes reads, and whether the write that may follow it gets through. Handlers may answer
    anything, and differently each time. A run is the trace of what was received, carried out and sent.
 */
module Session {
  import opened Outcomes
  import opened Handshake
  import opened Frame

  const HELLO_REQUEST_ID := 1
  const FIRST_HEARTBEAT_REQUEST_ID := 2
  const U32_MAX := 0xFFFF_FFFF
  const NONCE_LEN := 32
  const AGENT_CAPABILITIES := [Gpu, Display]

  /** A message whose inside is no business of the session's. */
  type Payload = seq<Byte>

  const INITRAMFS_STEP := 10
  const OUTCOME_FAILED := 3
  const OUTCOME_REBOOT_REQUIRED := 4

  datatype RecipeStage = RecipeStage(step: int, state: int, message: string)

  datatype UpdateReport = UpdateReport(stages: seq<RecipeStage>, versions: Payload, outcome: int)

  datatype RequestKind =
    | HelloRequest(offered: Version, capabilities: seq<int>, agentVersion: string)
    | AuthenticateRequest(nonce: seq<Byte>)
    | HeartbeatRequest
    | AttachGpuShares(shares: Payload)
    | ApplyGpuRecipe
    | ProbeGpu
    | AttachDisplayPayload(share: Option<Payload>)
    | ApplyDisplayRecipe(mode: Option<(nat, nat)>)
    | UpdateDisplayPayload(target: string)
    | Reboot

  datatype ErrorCode = UnsupportedRequest | Unavailable | OtherCode(code: int)

  datatype ResponseKind =
    | HelloResponse(chosen: Option<Version>, agreed: seq<int>)
    | AuthenticateResponse(tag: seq<Byte>)
    | HeartbeatResponse
    | GpuSharesAttached(mounts: Payload, librariesRefreshed: bool)
    | GpuRecipeApplied(stages: Payload)
    | GpuProbed(report: Payload)
    | DisplayAttached(mount: Payload)
    | DisplayRecipeApplied(outcome: Payload)
    | DisplayUpdated(update: UpdateReport)
    | Rebooting
    | ErrorResponse(code: ErrorCode, message: string)

  /** A request or a response; its kind is absent when it is one this build does not know. */
  datatype Body = Request(request: Option<RequestKind>) | Response(response: Option<ResponseKind>)

  datatype Envelope = Envelope(id: nat, body: Option<Body>)

  function RequestEnvelope(id: nat, kind: RequestKind): Envelope {
    Envelope(id, Some(Request(Some(kind))))
  }

  function ResponseEnvelope(id: nat, kind: ResponseKind): Envelope {
    Envelope(id, Some(Response(Some(kind))))
  }

  datatype SessionError =
    | Faulted(error: FrameError)
    | Refused(code: ErrorCode, message: string)
    | InvalidHello
    | OutOfOrder
    | Malformed
    | HeartbeatUnanswered
    | RequestIdsExhausted

  datatype Agreement = Agreement(version: Version, capabilities: seq<Capability>)

  /** What the host may ask for. The first argument is the turn, so that an answer may depend on the past. */
  datatype Handlers = Handlers(
    attachGpu: (nat, Payload) -> (Payload, bool),
    applyGpuRecipe: nat -> Payload,
    probeGpu: nat -> Payload,
    attachDisplay: (nat, Payload) -> Payload,
    applyDisplayRecipe: (nat, Option<(nat, nat)>) -> Payload,
    updateDisplay: (nat, string) -> UpdateReport,
    reboot: nat -> Result<(), string>)

  datatype Call = CallAttachGpu | CallGpuRecipe | CallProbeGpu | CallAttachDisplay | CallDisplayRecipe
                | CallUpdateDisplay | CallReboot

  datatype Action =
    | Received(envelope: Envelope)
    | Called(call: Call)
    | Sent(envelope: Envelope)
    | Accepted(heartbeat: nat)
    | Opened(session: Agreement)

  /** One turn: what the read gave, and why a write after it fails, if it does. */
  datatype Turn = Turn(read: Result<Envelope, FrameError>, fault: Option<FrameError>)

  datatype Stage<T> = Stage(trace: seq<Action>, result: Result<T, SessionError>)

  /* Single messages. */

  /** The session a hello answer agrees to, checked against what was announced. */
  function Confirm(chosen: Option<Version>, agreed: seq<int>): Result<Agreement, SessionError> {
    var version := ConfirmVersion(CURRENT_VERSION, if chosen.Some? then chosen.value else Version(0, 0));
    var capabilities := ConfirmCapabilities(AGENT_CAPABILITIES, agreed);
    if version.Err? || capabilities.Err? then Err(InvalidHello)
    else Ok(Agreement(version.value, capabilities.value))
  }

  function WithoutInitramfs(stages: seq<RecipeStage>): seq<RecipeStage> {
    if stages == [] then []
    else if stages[0].step == INITRAMFS_STEP then WithoutInitramfs(stages[1..])
    else [stages[0]] + WithoutInitramfs(stages[1..])
  }

  /** Removes from an answer what a peer older than revision 8 cannot read. */
  function MadeCompatible(report: UpdateReport, minor: nat): UpdateReport {
    if minor >= DISPLAY_REBOOT_REQUIRED_REVISION then report
    else report.(stages := WithoutInitramfs(report.stages),
                 outcome := if report.outcome == OUTCOME_REBOOT_REQUIRED then OUTCOME_FAILED else report.outcome)
  }

  const REFUSAL := ErrorResponse(UnsupportedRequest, "this build of vmlord-agent does not implement that host request")

  /** What a request makes the agent do, and what it is answered with. */
  function Answer(session: Agreement, handlers: Handlers, turn: nat,
                  request: Option<RequestKind>): (seq<Call>, ResponseKind) {
    match request
    case Some(HeartbeatRequest) => ([], HeartbeatResponse)
    case Some(AttachGpuShares(shares)) =>
      if Gpu !in session.capabilities then ([], REFUSAL)
      else
        var (mounts, refreshed) := handlers.attachGpu(turn, shares);
        ([CallAttachGpu], GpuSharesAttached(mounts, refreshed))
    case Some(ApplyGpuRecipe) =>
      if Gpu !in session.capabilities then ([], REFUSAL)
      else ([CallGpuRecipe], GpuRecipeApplied(handlers.applyGpuRecipe(turn)))
    case Some(ProbeGpu) =>
      if Gpu !in session.capabilities then ([], REFUSAL)
      else ([CallProbeGpu], GpuProbed(handlers.probeGpu(turn)))
    case Some(AttachDisplayPayload(share)) =>
      if Display !in session.capabilities then ([], REFUSAL)
      else ([CallAttachDisplay], DisplayAttached(handlers.attachDisplay(turn, if share.Some? then share.value else [])))
    case Some(ApplyDisplayRecipe(mode)) =>
      if Display !in session.capabilities then ([], REFUSAL)
      else ([CallDisplayRecipe], DisplayRecipeApplied(handlers.applyDisplayRecipe(turn, mode)))
    case Some(UpdateDisplayPayload(target)) =>
      if Display !in session.capabilities then ([], REFUSAL)
      else ([CallUpdateDisplay],
            DisplayUpdated(MadeCompatible(handlers.updateDisplay(turn, target), session.version.minor)))
    case Some(Reboot) =>
      (match handlers.reboot(turn)
       case Ok(_) => ([CallReboot], Rebooting)
       case Err(reason) => ([CallReboot], ErrorResponse(Unavailable, reason)))
    case _ => ([], REFUSAL)
  }

  function Calls(calls: seq<Call>): (trace: seq<Action>)
    ensures |trace| == |calls| && forall i :: 0 <= i < |trace| ==> trace[i] == Called(calls[i])
  {
    seq(|calls|, i requires 0 <= i < |calls| => Called(calls[i]))
  }

  /* Runs. */

  /** A refusal sent before the session ends out of order, or the fault that kept it from being sent. */
  function RefusedOutOfOrder(id: nat, fault: Option<FrameError>): (seq<Action>, SessionError) {
    match fault
    case Some(error) => ([], Faulted(error))
    case None => ([Sent(ResponseEnvelope(id, REFUSAL))], OutOfOrder)
  }

  function HelloEnvelope(agentVersion: string): Envelope {
    RequestEnvelope(HELLO_REQUEST_ID, HelloRequest(CURRENT_VERSION, AllToWire(AGENT_CAPABILITIES), agentVersion))
  }

  function ReadAt(turns: seq<Turn>, i: nat): Result<Envelope, FrameError> {
    if i < |turns| then turns[i].read else Err(Closed)
  }

  function FaultAt(turns: seq<Turn>, i: nat): Option<FrameError> {
    if i < |turns| then turns[i].fault else None
  }

  /** The hello and its answer, which is the first turn. */
  function GreetRun(turns: seq<Turn>, helloFault: Option<FrameError>, agentVersion: string): Stage<Agreement> {
    if helloFault.Some? then Stage([], Err(Faulted(helloFault.value)))
    else
      var hello := [Sent(HelloEnvelope(agentVersion))];
      match ReadAt(turns, 0)
      case Err(error) => Stage(hello, Err(Faulted(error)))
      case Ok(envelope) =>
        var heard := hello + [Received(envelope)];
        match envelope.body
        case None => Stage(heard, Err(Malformed))
        case Some(Response(None)) => Stage(heard, Err(Malformed))
        case Some(Response(Some(kind))) =>
          if kind.HelloResponse? && envelope.id == HELLO_REQUEST_ID then
            Stage(heard, Confirm(kind.chosen, kind.agreed))
          else if kind.ErrorResponse? then Stage(heard, Err(Refused(kind.code, kind.message)))
          else Stage(heard, Err(OutOfOrder))
        case Some(Request(_)) =>
          var (refusal, error) := RefusedOutOfOrder(envelope.id, FaultAt(turns, 0));
          Stage(heard + refusal, Err(error))
  }

  /** The challenge and the tag that answers it, which is the second turn. */
  function AuthenticateRun(turns: seq<Turn>, tag: seq<Byte> -> seq<Byte>): Stage<()> {
    match ReadAt(turns, 1)
    case Err(error) => Stage([], Err(Faulted(error)))
    case Ok(envelope) =>
      var heard := [Received(envelope)];
      match envelope.body
      case None => Stage(heard, Err(Malformed))
      case Some(Response(None)) => Stage(heard, Err(Malformed))
      case Some(Response(Some(kind))) =>
        if kind.ErrorResponse? then Stage(heard, Err(Refused(kind.code, kind.message)))
        else Stage(heard, Err(OutOfOrder))
      case Some(Request(kind)) =>
        if kind.Some? && kind.value.AuthenticateRequest? then
          if |kind.value.nonce| != NONCE_LEN then Stage(heard, Err(Malformed))
          else
            (match FaultAt(turns, 1)
             case Some(error) => Stage(heard, Err(Faulted(error)))
             case None =>
               var answer := AuthenticateResponse(tag(kind.value.nonce));
               Stage(heard + [Sent(ResponseEnvelope(envelope.id, answer))], Ok(())))
        else
          var (refusal, error) := RefusedOutOfOrder(envelope.id, FaultAt(turns, 1));
          Stage(heard + refusal, Err(error))
  }

  function After<T>(trace: seq<Action>, stage: Stage<T>): Stage<T> {
    Stage(trace + stage.trace, stage.result)
  }

  /** What one turn of serving does, and whether serving goes on after it. */
  datatype Step =
    | Stop(trace: seq<Action>, result: Result<(), SessionError>)
    | Go(trace: seq<Action>, nextId: nat, pending: Option<nat>)

  function ServeTurn(session: Agreement, handlers: Handlers, i: nat, turn: Turn, nextId: nat,
                     pending: Option<nat>): Step {
    match turn.read
    case Err(Closed) => Stop([], Ok(()))
    case Err(Idle) =>
      if pending.Some? then Stop([], Err(HeartbeatUnanswered))
      else if nextId >= U32_MAX then Stop([], Err(RequestIdsExhausted))
      else if turn.fault.Some? then Stop([], Err(Faulted(turn.fault.value)))
      else Go([Sent(RequestEnvelope(nextId, HeartbeatRequest))], nextId + 1, Some(nextId))
    case Err(error) => Stop([], Err(Faulted(error)))
    case Ok(envelope) =>
      var heard := [Received(envelope)];
      match envelope.body
      case None => Stop(heard, Err(Malformed))
      case Some(Response(None)) => Stop(heard, Err(Malformed))
      case Some(Response(Some(kind))) =>
        if kind.HeartbeatResponse? && pending == Some(envelope.id) then
          Go(heard + [Accepted(envelope.id)], nextId, None)
        else if kind.ErrorResponse? then Stop(heard, Err(Refused(kind.code, kind.message)))
        else Stop(heard, Err(OutOfOrder))
      case Some(Request(request)) =>
        var (calls, response) := Answer(session, handlers, i, request);
        if turn.fault.Some? then Stop(heard + Calls(calls), Err(Faulted(turn.fault.value)))
        else Go(heard + Calls(calls) + [Sent(ResponseEnvelope(envelope.id, response))], nextId, pending)
  }

  /** Serving, from turn `i` on; a script that is over reads as a closed connection. */
  function ServeRun(session: Agreement, handlers: Handlers, turns: seq<Turn>, i: nat, nextId: nat,
                    pending: Option<nat>): Stage<()>
    requires i <= |turns|
    decreases |turns| - i
  {
    if i == |turns| then Stage([], Ok(()))
    else
      match ServeTurn(session, handlers, i, turns[i], nextId, pending)
      case Stop(trace, result) => Stage(trace, result)
      case Go(trace, nextId', pending') => After(trace, ServeRun(session, handlers, turns, i + 1, nextId', pending'))
  }

  /** A whole connection, from the hello to its end. */
  function SessionRun(turns: seq<Turn>, helloFault: Option<FrameError>, agentVersion: string,
                      tag: seq<Byte> -> seq<Byte>, handlers: Handlers): Stage<()> {
    var greeting := GreetRun(turns, helloFault, agentVersion);
    if greeting.result.Err? then Stage(greeting.trace, Err(greeting.result.error))
    else
      var proof := AuthenticateRun(turns, tag);
      if proof.result.Err? then Stage(greeting.trace + proof.trace, Err(proof.result.error))
      else
        After(greeting.trace + proof.trace + [Opened(greeting.result.value)],
              ServeRun(greeting.result.value, handlers, turns, 2, FIRST_HEARTBEAT_REQUEST_ID, None))
  }

  lemma AfterTwice<T>(first: seq<Action>, second: seq<Action>, stage: Stage<T>)
    ensures After(first + second, stage) == After(first, After(second, stage))
  {
    assert (first + second) + stage.trace == first + (second + stage.trace);
  }

  /* The agent itself. */

  class Connection {
    const turns: seq<Turn>
    const helloFault: Option<FrameError>
    /** How many turns have been read. */
    var next: nat
    var trace: seq<Action>

    constructor (turns: seq<Turn>, helloFault: Option<FrameError>)
      ensures this.turns == turns && this.helloFault == helloFault
      ensures next == 0 && trace == []
    {
      this.turns, this.helloFault := turns, helloFault;
      next, trace := 0, [];
    }

    method Read() returns (read: Result<Envelope, FrameError>)
      requires next <= |turns|
      modifies this
      ensures read == ReadAt(turns, old(next))
      ensures next == if old(next) < |turns| then old(next) + 1 else |turns|
      ensures trace == old(trace) + (if read.Ok? then [Received(read.value)] else [])
    {
      read := ReadAt(turns, next);
      if next < |turns| {
        next := next + 1;
      }
      if read.Ok? {
        trace := trace + [Received(read.value)];
      }
    }

    method Write(envelope: Envelope) returns (fault: Option<FrameError>)
      modifies this`trace
      ensures fault == if next == 0 then helloFault else FaultAt(turns, next - 1)
      ensures trace == old(trace) + (if fault.None? then [Sent(envelope)] else [])
    {
      fault := if next == 0 then helloFault else FaultAt(turns, next - 1);
      if fault.None? {
        trace := trace + [Sent(envelope)];
      }
    }

    method RefuseUnsupported(id: nat) returns (error: SessionError)
      modifies this`trace
      ensures var fault := if next == 0 then helloFault else FaultAt(turns, next - 1);
              trace == old(trace) + RefusedOutOfOrder(id, fault).0 && error == RefusedOutOfOrder(id, fault).1
    {
      var fault := Write(ResponseEnvelope(id, REFUSAL));
      error := if fault.Some? then Faulted(fault.value) else OutOfOrder;
    }

    method Greet(agentVersion: string) returns (result: Result<Agreement, SessionError>)
      requires next == 0 && trace == []
      modifies this
      ensures Stage(trace, result) == GreetRun(turns, helloFault, agentVersion)
      ensures result.Ok? ==> next == 1 <= |turns|
    {
      var fault := Write(HelloEnvelope(agentVersion));
      if fault.Some? {
        return Err(Faulted(fault.value));
      }
      var read := Read();
      if read.Err? {
        return Err(Faulted(read.error));
      }
      match read.value.body
      case None => return Err(Malformed);
      case Some(Response(None)) => return Err(Malformed);
      case Some(Response(Some(kind))) =>
        if kind.HelloResponse? && read.value.id == HELLO_REQUEST_ID {
          return Confirm(kind.chosen, kind.agreed);
        } else if kind.ErrorResponse? {
          return Err(Refused(kind.code, kind.message));
        }
        return Err(OutOfOrder);
      case Some(Request(_)) =>
        var error := RefuseUnsupported(read.value.id);
        return Err(error);
    }

    method Authenticate(tag: seq<Byte> -> seq<Byte>) returns (result: Result<(), SessionError>)
      requires next == 1 <= |turns|
      modifies this
      ensures var stage := AuthenticateRun(turns, tag);
              trace == old(trace) + stage.trace && result == stage.result
      ensures result.Ok? ==> next == 2 <= |turns|
    {
      var read := Read();
      if read.Err? {
        return Err(Faulted(read.error));
      }
      match read.value.body
      case None => return Err(Malformed);
      case Some(Response(None)) => return Err(Malformed);
      case Some(Response(Some(kind))) =>
        if kind.ErrorResponse? {
          return Err(Refused(kind.code, kind.message));
        }
        return Err(OutOfOrder);
      case Some(Request(kind)) =>
        if kind.None? || !kind.value.AuthenticateRequest? {
          var error := RefuseUnsupported(read.value.id);
          return Err(error);
        }
        if |kind.value.nonce| != NONCE_LEN {
          return Err(Malformed);
        }
        var fault := Write(ResponseEnvelope(read.value.id, AuthenticateResponse(tag(kind.value.nonce))));
        if fault.Some? {
          return Err(Faulted(fault.value));
        }
        return Ok(());
    }

    /** Sends a heartbeat of the agent's own, unless its ids have run out. */
    method SendHeartbeat(requestId: nat) returns (error: Option<SessionError>)
      requires next >= 1
      modifies this`trace
      ensures error == if requestId >= U32_MAX then Some(RequestIdsExhausted)
                       else if FaultAt(turns, next - 1).Some? then Some(Faulted(FaultAt(turns, next - 1).value))
                       else None
      ensures trace == old(trace) + (if error.None? then [Sent(RequestEnvelope(requestId, HeartbeatRequest))] else [])
    {
      if requestId >= U32_MAX {
        return Some(RequestIdsExhausted);
      }
      var fault := Write(RequestEnvelope(requestId, HeartbeatRequest));
      error := if fault.Some? then Some(Faulted(fault.value)) else None;
    }

    /** Carries out one request and answers it. */
    method CarryOut(session: Agreement, handlers: Handlers, id: nat, request: Option<RequestKind>)
      returns (fault: Option<FrameError>)
      requires next >= 1
      modifies this`trace
      ensures fault == FaultAt(turns, next - 1)
      ensures var answer := Answer(session, handlers, next - 1, request);
              trace == old(trace) + Calls(answer.0) +
                (if fault.None? then [Sent(ResponseEnvelope(id, answer.1))] else [])
    {
      var (calls, response) := Answer(session, handlers, next - 1, request);
      trace := trace + Calls(calls);
      fault := Write(ResponseEnvelope(id, response));
    }

    /** One pass of the serving loop. */
    method TakeTurn(session: Agreement, handlers: Handlers, nextRequestId: nat, pendingHeartbeat: Option<nat>)
      returns (step: Step)
      requires next < |turns|
      modifies this
      ensures step == ServeTurn(session, handlers, old(next), turns[old(next)], nextRequestId, pendingHeartbeat)
      ensures trace == old(trace) + step.trace && next == old(next) + 1
    {
      var read := Read();
      if read.Err? {
        if read.error == Closed {
          return Stop([], Ok(()));
        } else if read.error != Idle {
          return Stop([], Err(Faulted(read.error)));
        } else if pendingHeartbeat.Some? {
          return Stop([], Err(HeartbeatUnanswered));
        }
        var error := SendHeartbeat(nextRequestId);
        if error.Some? {
          return Stop([], Err(error.value));
        }
        return Go([Sent(RequestEnvelope(nextRequestId, HeartbeatRequest))], nextRequestId + 1, Some(nextRequestId));
      }

      step := TakeMessage(session, handlers, read.value, nextRequestId, pendingHeartbeat);
    }

    /** What the serving loop does with a message it has read. */
    method TakeMessage(session: Agreement, handlers: Handlers, envelope: Envelope, nextRequestId: nat,
                       pendingHeartbeat: Option<nat>) returns (step: Step)
      requires 1 <= next <= |turns| && turns[next - 1].read == Ok(envelope)
      requires trace != [] && trace[|trace| - 1] == Received(envelope)
      modifies this`trace
      ensures step == ServeTurn(session, handlers, next - 1, turns[next - 1], nextRequestId, pendingHeartbeat)
      ensures trace == old(trace)[..|old(trace)| - 1] + step.trace
    {
      var heard := [Received(envelope)];
      assert trace == trace[..|trace| - 1] + heard;
      match envelope.body
      case None => return Stop(heard, Err(Malformed));
      case Some(Response(None)) => return Stop(heard, Err(Malformed));
      case Some(Response(Some(kind))) =>
        if kind.HeartbeatResponse? && pendingHeartbeat == Some(envelope.id) {
          trace := trace + [Accepted(envelope.id)];
          return Go(heard + [Accepted(envelope.id)], nextRequestId, None);
        } else if kind.ErrorResponse? {
          return Stop(heard, Err(Refused(kind.code, kind.message)));
        }
        return Stop(heard, Err(OutOfOrder));
      case Some(Request(request)) =>
        var before := trace;
        var fault := CarryOut(session, handlers, envelope.id, request);
        var done := heard + trace[|before|..];
        step := if fault.Some? then Stop(done, Err(Faulted(fault.value)))
                else Go(done, nextRequestId, pendingHeartbeat);
    }

    method Serve(session: Agreement, handlers: Handlers) returns (result: Result<(), SessionError>)
      requires next == 2 <= |turns|
      modifies this
      ensures var stage := ServeRun(session, handlers, turns, 2, FIRST_HEARTBEAT_REQUEST_ID, None);
              trace == old(trace) + stage.trace && result == stage.result
    {
      var nextRequestId: nat := FIRST_HEARTBEAT_REQUEST_ID;
      var pendingHeartbeat: Option<nat> := None;
      ghost var whole := After(trace, ServeRun(session, handlers, turns, 2, nextRequestId, pendingHeartbeat));
      while next < |turns|
        invariant 2 <= next <= |turns|
        invariant After(trace, ServeRun(session, handlers, turns, next, nextRequestId, pendingHeartbeat)) == whole
        decreases |turns| - next
      {
        ghost var before := trace;
        var step := TakeTurn(session, handlers, nextRequestId, pendingHeartbeat);
        if step.Stop? {
          return step.result;
        }
        nextRequestId, pendingHeartbeat := step.nextId, step.pending;
        AfterTwice(before, step.trace, ServeRun(session, handlers, turns, next, nextRequestId, pendingHeartbeat));
      }
      return Ok(());
    }

    /** One connection; `agreed` is what the caller learns of a session that got as far as its tag. */
    method Run(agentVersion: string, tag: seq<Byte> -> seq<Byte>, handlers: Handlers)
      returns (result: Result<(), SessionError>, agreed: Option<Agreement>)
      requires next == 0 && trace == []
      modifies this
      ensures Stage(trace, result) == SessionRun(turns, helloFault, agentVersion, tag, handlers)
      ensures forall session :: Opened(session) in trace <==> agreed == Some(session)
    {
      agreed := None;
      OpensOnce(turns, helloFault, agentVersion, tag, handlers);
      var session := Greet(agentVersion);
      if session.Err? {
        return Err(session.error), None;
      }
      var proof := Authenticate(tag);
      if proof.Err? {
        return Err(proof.error), None;
      }
      agreed := Some(session.value);
      trace := trace + [Opened(session.value)];
      result := Serve(session.value, handlers);
    }
  }

  /* Reading a trace. */

  predicate IsTag(action: Action) {
    action.Sent? && action.envelope.body.Some? && action.envelope.body.value.Response?
    && action.envelope.body.value.response.Some? && action.envelope.body.value.response.value.AuthenticateResponse?
  }

  /* What a session may do, and from when on. */

  predicate NeedsOnly(call: Call, capabilities: seq<Capability>) {
    match call
    case CallAttachGpu => Gpu in capabilities
    case CallGpuRecipe => Gpu in capabilities
    case CallProbeGpu => Gpu in capabilities
    case CallAttachDisplay => Display in capabilities
    case CallDisplayRecipe => Display in capabilities
    case CallUpdateDisplay => Display in capabilities
    case CallReboot => true
  }

  /** Nothing in the report needs revision 8 to be read. */
  ghost predicate ReadableBefore8(report: UpdateReport) {
    report.outcome != OUTCOME_REBOOT_REQUIRED
    && forall i :: 0 <= i < |report.stages| ==> report.stages[i].step != INITRAMFS_STEP
  }

  /** What one action of a served session may be. */
  ghost predicate Gated(session: Agreement, action: Action) {
    match action
    case Called(call) => NeedsOnly(call, session.capabilities)
    case Opened(_) => false
    case Sent(Envelope(_, Some(Response(Some(DisplayUpdated(update)))))) =>
      session.version.minor < DISPLAY_REBOOT_REQUIRED_REVISION ==> ReadableBefore8(update)
    case _ => !IsTag(action)
  }

  /** The filter takes every stage for itself: an Initramfs stage is gone, any other stays where it was. */
  lemma InitramfsIsGone(early: seq<RecipeStage>, late: seq<RecipeStage>)
    ensures WithoutInitramfs(early + late) == WithoutInitramfs(early) + WithoutInitramfs(late)
    ensures forall stage :: WithoutInitramfs([stage]) == if stage.step == INITRAMFS_STEP then [] else [stage]
  {
    FilteredConcat(early, late);
    forall stage: RecipeStage
      ensures WithoutInitramfs([stage]) == if stage.step == INITRAMFS_STEP then [] else [stage]
    {
      assert [stage][1..] == [];
    }
  }

  lemma {:induction false} FilteredConcat(early: seq<RecipeStage>, late: seq<RecipeStage>)
    ensures WithoutInitramfs(early + late) == WithoutInitramfs(early) + WithoutInitramfs(late)
  {
    if early == [] {
      assert early + late == late;
    } else {
      FilteredConcat(early[1..], late);
      var rest, more := WithoutInitramfs(early[1..]), WithoutInitramfs(late);
      assert [early[0]] + (rest + more) == ([early[0]] + rest) + more;
      assert (early + late)[0] == early[0] && (early + late)[1..] == early[1..] + late;
    }
  }

  lemma {:induction false} NoInitramfsIsLeft(stages: seq<RecipeStage>)
    ensures forall i :: 0 <= i < |WithoutInitramfs(stages)| ==> WithoutInitramfs(stages)[i].step != INITRAMFS_STEP
  {
    if stages != [] {
      NoInitramfsIsLeft(stages[1..]);
    }
  }

  /** An older peer is spared exactly the additions of revision 8; a newer one reads the report as it is. */
  lemma CompatibleReport(report: UpdateReport, minor: nat)
    ensures minor < DISPLAY_REBOOT_REQUIRED_REVISION ==> ReadableBefore8(MadeCompatible(report, minor))
    ensures minor >= DISPLAY_REBOOT_REQUIRED_REVISION || ReadableBefore8(report) ==>
              MadeCompatible(report, minor) == report
    ensures MadeCompatible(report, minor).versions == report.versions
    ensures minor < DISPLAY_REBOOT_REQUIRED_REVISION ==>
              var told := MadeCompatible(report, minor);
              && told.stages == WithoutInitramfs(report.stages)
              && (told.outcome != report.outcome ==>
                    report.outcome == OUTCOME_REBOOT_REQUIRED && told.outcome == OUTCOME_FAILED)
  {
    NoInitramfsIsLeft(report.stages);
    if ReadableBefore8(report) {
      NothingToRemove(report.stages);
    }
  }

  lemma {:induction false} NothingToRemove(stages: seq<RecipeStage>)
    requires forall i :: 0 <= i < |stages| ==> stages[i].step != INITRAMFS_STEP
    ensures WithoutInitramfs(stages) == stages
  {
    if stages != [] {
      NothingToRemove(stages[1..]);
    }
  }

  lemma {:induction false} TurnIsGated(session: Agreement, handlers: Handlers, i: nat, turn: Turn, nextId: nat,
                                       pending: Option<nat>)
    ensures forall action :: action in ServeTurn(session, handlers, i, turn, nextId, pending).trace ==>
                             Gated(session, action)
  {
    if turn.read.Ok? && turn.read.value.body.Some? && turn.read.value.body.value.Request? {
      var (calls, response) := Answer(session, handlers, i, turn.read.value.body.value.request);
      AnswerIsGated(session, handlers, i, turn.read.value.body.value.request, turn.read.value.id);
      assert forall action :: action in Calls(calls) ==> Gated(session, action);
    }
  }

  lemma {:induction false} AnswerIsGated(session: Agreement, handlers: Handlers, i: nat, request: Option<RequestKind>,
                                         id: nat)
    ensures var (calls, response) := Answer(session, handlers, i, request);
            && (forall call :: call in calls ==> NeedsOnly(call, session.capabilities))
            && Gated(session, Sent(ResponseEnvelope(id, response)))
  {
    if request.Some? && request.value.UpdateDisplayPayload? {
      CompatibleReport(handlers.updateDisplay(i, request.value.target), session.version.minor);
    }
  }

  lemma {:induction false} ServingIsGated(session: Agreement, handlers: Handlers, turns: seq<Turn>, i: nat,
                                          nextId: nat, pending: Option<nat>)
    requires i <= |turns|
    ensures forall action :: action in ServeRun(session, handlers, turns, i, nextId, pending).trace ==>
                             Gated(session, action)
    decreases |turns| - i
  {
    if i < |turns| {
      TurnIsGated(session, handlers, i, turns[i], nextId, pending);
      var step := ServeTurn(session, handlers, i, turns[i], nextId, pending);
      if step.Go? {
        ServingIsGated(session, handlers, turns, i + 1, step.nextId, step.pending);
      }
    }
  }

  /** Before a tag is sent there is no handler, no session and no second tag. */
  predicate Unopened(action: Action) {
    !action.Called? && !action.Opened? && !IsTag(action)
  }

  /** The `n`th action is the tag of the challenge read just before it, sent under that challenge's id. */
  ghost predicate AnswersChallenge(trace: seq<Action>, n: nat, tag: seq<Byte> -> seq<Byte>)
    requires n < |trace|
  {
    && n >= 1
    && exists id, nonce ::
         && |nonce| == NONCE_LEN && trace[n - 1] == Received(RequestEnvelope(id, AuthenticateRequest(nonce)))
         && trace[n] == Sent(ResponseEnvelope(id, AuthenticateResponse(tag(nonce))))
  }

  /** The trace opens at `o`: right after the tag, under the session the hello answer agreed to, once. */
  ghost predicate OpensAt(trace: seq<Action>, o: nat, session: Agreement, tag: seq<Byte> -> seq<Byte>) {
    && 1 <= o < |trace| && trace[o] == Opened(session) && AnswersChallenge(trace, o - 1, tag)
    && (forall i :: 0 <= i < o - 1 ==> Unopened(trace[i]))
    && (forall i :: o < i < |trace| ==> Gated(session, trace[i]))
    && (exists h, chosen, agreed ::
          && 0 <= h < o - 1
          && trace[h] == Received(ResponseEnvelope(HELLO_REQUEST_ID, HelloResponse(chosen, agreed)))
          && Confirm(chosen, agreed) == Ok(session))
  }

  lemma {:induction false} ProofAnswers(turns: seq<Turn>, tag: seq<Byte> -> seq<Byte>)
    requires AuthenticateRun(turns, tag).result.Ok?
    ensures |AuthenticateRun(turns, tag).trace| == 2 && AnswersChallenge(AuthenticateRun(turns, tag).trace, 1, tag)
  {
    var envelope := turns[1].read.value;
    var nonce := envelope.body.value.request.value.nonce;
    assert AuthenticateRun(turns, tag).trace[0] == Received(RequestEnvelope(envelope.id, AuthenticateRequest(nonce)));
  }

  lemma AnswersLater(early: seq<Action>, trace: seq<Action>, late: seq<Action>, n: nat, tag: seq<Byte> -> seq<Byte>)
    requires n < |trace| && AnswersChallenge(trace, n, tag)
    ensures AnswersChallenge(early + trace + late, |early| + n, tag)
  {
    var whole := early + trace + late;
    assert whole[|early| + n - 1] == trace[n - 1] && whole[|early| + n] == trace[n];
  }

  /** Over every host: a connection either never gets past its opening, with no tag, no session and no
      handler call in it, or it opens exactly once, and everything it then does is under what both
      peers agreed on. */
  lemma {:induction false} SessionsAreGated(turns: seq<Turn>, helloFault: Option<FrameError>, agentVersion: string,
                         tag: seq<Byte> -> seq<Byte>, handlers: Handlers)
    ensures var trace := SessionRun(turns, helloFault, agentVersion, tag, handlers).trace;
            var greeting := GreetRun(turns, helloFault, agentVersion).result;
            if greeting.Ok? && AuthenticateRun(turns, tag).result.Ok? then
              exists o :: OpensAt(trace, o, greeting.value, tag)
            else forall i :: 0 <= i < |trace| ==> Unopened(trace[i])
  {
    var greeting := GreetRun(turns, helloFault, agentVersion);
    var trace := SessionRun(turns, helloFault, agentVersion, tag, handlers).trace;
    if greeting.result.Ok? {
      var proof := AuthenticateRun(turns, tag);
      if proof.result.Ok? {
        var session := greeting.result.value;
        ServingIsGated(session, handlers, turns, 2, FIRST_HEARTBEAT_REQUEST_ID, None);
        var served := ServeRun(session, handlers, turns, 2, FIRST_HEARTBEAT_REQUEST_ID, None).trace;
        assert |greeting.trace| == 2 && |proof.trace| == 2;
        assert trace == greeting.trace + proof.trace + [Opened(session)] + served;
        forall i | 4 < i < |trace|
          ensures Gated(session, trace[i])
        {
          assert trace[i] == served[i - 5];
        }
        var hello := turns[0].read.value.body.value.response.value;
        assert trace[1] == Received(ResponseEnvelope(HELLO_REQUEST_ID, HelloResponse(hello.chosen, hello.agreed)));
        ProofAnswers(turns, tag);
        AnswersLater(greeting.trace, proof.trace, [Opened(session)] + served, 1, tag);
        assert trace == greeting.trace + proof.trace + ([Opened(session)] + served);
        assert OpensAt(trace, 4, session, tag);
      }
    }
  }

  /** The session opened is the one the hello agreed to, if the tag got through, and no other. */
  lemma {:induction false} OpensOnce(turns: seq<Turn>, helloFault: Option<FrameError>, agentVersion: string,
                                     tag: seq<Byte> -> seq<Byte>, handlers: Handlers)
    ensures var greeting := GreetRun(turns, helloFault, agentVersion).result;
            forall session :: Opened(session) in SessionRun(turns, helloFault, agentVersion, tag, handlers).trace <==>
              greeting == Ok(session) && AuthenticateRun(turns, tag).result.Ok?
  {
    SessionsAreGated(turns, helloFault, agentVersion, tag, handlers);
    var trace := SessionRun(turns, helloFault, agentVersion, tag, handlers).trace;
    var greeting := GreetRun(turns, helloFault, agentVersion).result;
    if greeting.Ok? && AuthenticateRun(turns, tag).result.Ok? {
      var o: nat :| OpensAt(trace, o, greeting.value, tag);
      forall i | 0 <= i < |trace| && trace[i].Opened? ensures i == o {
        assert i < o - 1 ==> Unopened(trace[i]);
        assert i > o ==> Gated(greeting.value, trace[i]);
      }
    }
  }

  /** Over every host: a tag is only ever the tag of a challenge of the right length, sent right after it was read. */
  lemma {:induction false} TagsAnswerChallenges(turns: seq<Turn>, helloFault: Option<FrameError>, agentVersion: string,
                                                tag: seq<Byte> -> seq<Byte>, handlers: Handlers, n: nat)
    requires n < |SessionRun(turns, helloFault, agentVersion, tag, handlers).trace|
    requires IsTag(SessionRun(turns, helloFault, agentVersion, tag, handlers).trace[n])
    ensures AnswersChallenge(SessionRun(turns, helloFault, agentVersion, tag, handlers).trace, n, tag)
  {
    SessionsAreGated(turns, helloFault, agentVersion, tag, handlers);
    var trace := SessionRun(turns, helloFault, agentVersion, tag, handlers).trace;
    var greeting := GreetRun(turns, helloFault, agentVersion).result;
    if greeting.Ok? && AuthenticateRun(turns, tag).result.Ok? {
      var o: nat :| OpensAt(trace, o, greeting.value, tag);
      assert n > o ==> Gated(greeting.value, trace[n]);
      assert n == o - 1;
    }
  }

  /** What a session agreed to is no newer than this build and within both offers. */
  lemma AgreementIsMutual(chosen: Option<Version>, agreed: seq<int>)
    requires Confirm(chosen, agreed).Ok?
    ensures var session := Confirm(chosen, agreed).value;
            && chosen == Some(session.version)
            && session.version.major == CURRENT_VERSION.major && session.version.minor <= CURRENT_VERSION.minor
            && AllToWire(session.capabilities) == agreed
            && forall c :: c in session.capabilities ==>
                           c in AGENT_CAPABILITIES && ToWire(c) in agreed && c != Unspecified
  {
    ConfirmedCapabilities(AGENT_CAPABILITIES, agreed);
    var session := Confirm(chosen, agreed).value;
    forall c | c in session.capabilities
      ensures ToWire(c) in agreed
    {
      OnWire(session.capabilities, c);
    }
  }
}
