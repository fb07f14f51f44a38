/** The shutdown wake-up: the agent's reconnect loop and a signal handler that share two atomics.

    Every load, store and call of the main thread is one step, and so is each of the handler's three. A
    signal may be taken by the main thread between any two of its steps, again while an earlier one is
    being handled, or by one of the helper threads that drain a program's output while a session's handler
    runs it.
 */
module Shutdown {
  import opened Outcomes

  /** How long the agent sleeps, in milliseconds, before it looks at the flag again. */
  const SLICE := 250

  datatype Connection = Connection(descriptor: nat, shut: bool, hostClosed: bool, unread: nat)

  /** Where a handler stands: before it sets the flag, before it loads the descriptor, before it wakes it. */
  datatype Frame = Entered | Stored | Loaded(descriptor: Option<nat>)

  /** What the main thread does next. */
  datatype Phase =
    | LoopCheck
    | Connecting
    | Connected
    | Published
    | Checked
    | Reading
    | Working(commands: nat)
    | Ended
    | Dropping
    | Returned(delay: nat)
    | WaitCheck(waited: nat, delay: nat)
    | Sleeping(waited: nat, delay: nat)
    | Done

  datatype State = State(
    stopping: bool,
    wake: Option<nat>,
    stream: Option<Connection>,
    phase: Phase,
    threads: map<nat, seq<Frame>>,
    history: History)

  /** What the steps so far amounted to: whether a descriptor was woken that was not the stream's, where the
      main thread was when the flag was first set, and what it completed or began with the flag set. */
  datatype History = History(strayed: bool, stoppedAt: Option<Phase>, connects: nat, sessions: nat, slices: nat)

  const MAIN: nat := 0

  datatype Action =
    | CheckLoop
    | Connect(answer: Option<nat>, delay: nat)
    | Publish
    | CheckAgain
    | StartSession
    | ReadFrame(commands: nat)
    | ReadIdle
    | EndRead
    | Spawn(thread: nat)
    | Join(thread: nat)
    | Resume
    | Fail
    | Withdraw
    | Drop(delay: nat)
    | CheckReturned
    | CheckWait
    | Sleep
    // Steps of anything but the main thread's own program.
    | Signal(thread: nat)
    | Handle(thread: nat)
    | Arrive
    | HostCloses

  const INITIAL: State :=
    State(false, None, None, LoopCheck, map[MAIN := []], History(false, None, 0, 0, 0))

  predicate IsMain(action: Action) {
    !(action.Signal? || action.Handle? || action.Arrive? || action.HostCloses?)
  }

  predicate Alone(s: State) {
    s.threads.Keys == {MAIN}
  }

  /** Whether a step can be taken. A read on a live connection returns only for what the host does, or idle. */
  predicate Enabled(s: State, action: Action) {
    if IsMain(action) then
      MAIN in s.threads && s.threads[MAIN] == [] && MainEnabled(s, action)
    else match action
      case Signal(thread) => thread in s.threads
      case Handle(thread) => thread in s.threads && s.threads[thread] != []
      case _ => s.stream.Some? && !s.stream.value.shut
  }

  predicate MainEnabled(s: State, action: Action)
    requires IsMain(action)
  {
    match action
    case CheckLoop => s.phase.LoopCheck?
    case Connect(_, _) => s.phase.Connecting?
    case Publish => s.phase.Connected? && s.stream.Some?
    case CheckAgain => s.phase.Published?
    case StartSession => s.phase.Checked?
    case ReadFrame(_) => s.phase.Reading? && s.stream.Some? && s.stream.value.unread > 0
    case ReadIdle => s.phase.Reading? && s.stream.Some? && !s.stream.value.shut
    case EndRead => s.phase.Reading? && s.stream.Some? && (s.stream.value.shut || s.stream.value.hostClosed)
    case Spawn(thread) => s.phase.Working? && s.phase.commands > 0 && thread !in s.threads
    case Join(thread) => s.phase.Working? && thread != MAIN && thread in s.threads && s.threads[thread] == []
    case Resume => s.phase == Working(0) && Alone(s)
    case Fail => s.phase.Working? && Alone(s)
    case Withdraw => s.phase.Ended?
    case Drop(_) => s.phase.Dropping?
    case CheckReturned => s.phase.Returned?
    case CheckWait => s.phase.WaitCheck?
    case Sleep => s.phase.Sleeping? && s.phase.waited < s.phase.delay
  }

  function Late(s: State): nat {
    if s.stopping then 1 else 0
  }

  function Do(s: State, action: Action): State
    requires Enabled(s, action)
  {
    if IsMain(action) then DoMain(s, action)
    else match action
      case Signal(thread) => s.(threads := s.threads[thread := s.threads[thread] + [Entered]])
      case Handle(thread) => Handled(s, thread)
      case Arrive => s.(stream := Some(s.stream.value.(unread := s.stream.value.unread + 1)))
      case HostCloses => s.(stream := Some(s.stream.value.(hostClosed := true)))
  }

  function DoMain(s: State, action: Action): State
    requires IsMain(action) && MainEnabled(s, action)
  {
    match action
    case CheckLoop => s.(phase := if s.stopping then Done else Connecting)
    case Connect(answer, delay) =>
      var counted := s.(history := s.history.(connects := s.history.connects + Late(s)));
      if answer.None? then counted.(phase := Returned(delay))
      else counted.(phase := Connected, stream := Some(Connection(answer.value, false, false, 0)))
    case Publish => s.(phase := Published, wake := Some(s.stream.value.descriptor))
    case CheckAgain => s.(phase := if s.stopping then Ended else Checked)
    case StartSession => s.(phase := Reading, history := s.history.(sessions := s.history.sessions + Late(s)))
    case ReadFrame(commands) =>
      s.(phase := Working(commands), stream := Some(s.stream.value.(unread := s.stream.value.unread - 1)))
    case ReadIdle => s.(phase := Working(0))
    case EndRead => s.(phase := Ended)
    case Spawn(thread) => s.(phase := Working(s.phase.commands - 1), threads := s.threads[thread := []])
    case Join(thread) => s.(threads := s.threads - {thread})
    case Resume => s.(phase := Reading)
    case Fail => s.(phase := Ended)
    case Withdraw => s.(phase := Dropping, wake := None)
    case Drop(delay) => s.(phase := Returned(delay), stream := None)
    case CheckReturned => s.(phase := if s.stopping then Done else WaitCheck(0, s.phase.delay))
    case CheckWait =>
      s.(phase := if s.phase.waited < s.phase.delay && !s.stopping
                  then Sleeping(s.phase.waited, s.phase.delay) else LoopCheck)
    case Sleep =>
      var slice := if SLICE < s.phase.delay - s.phase.waited then SLICE else s.phase.delay - s.phase.waited;
      s.(phase := WaitCheck(s.phase.waited + slice, s.phase.delay),
         history := s.history.(slices := s.history.slices + Late(s)))
  }

  /** One step of the handler a thread is in: the flag, then the descriptor, then the wake-up. */
  function Handled(s: State, thread: nat): State
    requires thread in s.threads && s.threads[thread] != []
  {
    var frames := s.threads[thread];
    var below := frames[..|frames| - 1];
    match frames[|frames| - 1]
    case Entered =>
      s.(threads := s.threads[thread := below + [Stored]], stopping := true,
         history := s.history.(stoppedAt := if s.stopping then s.history.stoppedAt else Some(s.phase)))
    case Stored => s.(threads := s.threads[thread := below + [Loaded(s.wake)]])
    case Loaded(descriptor) =>
      var returned := s.(threads := s.threads[thread := below]);
      if descriptor.None? then returned else Woken(returned, descriptor.value)
  }

  /** Shuts a descriptor down, whatever it stands for by now. */
  function Woken(s: State, descriptor: nat): State {
    if s.stream.Some? && s.stream.value.descriptor == descriptor
    then s.(stream := Some(s.stream.value.(shut := true)))
    else s.(history := s.history.(strayed := true))
  }

  ghost predicate Possible(actions: seq<Action>)
    decreases |actions|, 0
  {
    actions == [] || (Possible(actions[..|actions| - 1]) &&
                      Enabled(After(actions[..|actions| - 1]), actions[|actions| - 1]))
  }

  /** The state a run of the agent has reached. */
  ghost function After(actions: seq<Action>): State
    requires Possible(actions)
    decreases |actions|, 1
  {
    if actions == [] then INITIAL else Do(After(actions[..|actions| - 1]), actions[|actions| - 1])
  }

  /* What every step keeps. */

  predicate HasStream(phase: Phase) {
    phase.Connected? || IsPublished(phase) || phase.Dropping?
  }

  /** The descriptor is there for the handler to wake. */
  predicate IsPublished(phase: Phase) {
    phase.Published? || InSession(phase) || phase.Ended?
  }

  predicate InSession(phase: Phase) {
    phase.Checked? || phase.Reading? || phase.Working?
  }

  ghost predicate FrameIn(s: State, thread: nat, frame: Frame) {
    thread in s.threads && frame in s.threads[thread]
  }

  /** A handler that has yet to wake the connection. */
  ghost predicate WakePending(s: State) {
    exists thread, frame :: FrameIn(s, thread, frame) && WillWake(frame)
  }

  predicate WillWake(frame: Frame) {
    frame.Stored? || (frame.Loaded? && frame.descriptor.Some?)
  }

  /** No handler is running. */
  ghost predicate Quiet(s: State) {
    forall thread :: thread in s.threads ==> s.threads[thread] == []
  }

  ghost predicate Shape(s: State) {
    && MAIN in s.threads
    && (Alone(s) || s.phase.Working?)
    && (s.stream.Some? <==> HasStream(s.phase))
    && s.wake == (if IsPublished(s.phase) && s.stream.Some? then Some(s.stream.value.descriptor) else None)
  }

  /** Whatever a handler has loaded is still the stream's. */
  ghost predicate LoadedIsOwn(s: State) {
    forall thread, frame :: FrameIn(s, thread, frame) && frame.Loaded? && frame.descriptor.Some? ==>
      IsPublished(s.phase) && s.stream.Some? && frame.descriptor == Some(s.stream.value.descriptor)
  }

  ghost predicate SessionIsWoken(s: State) {
    s.stopping && InSession(s.phase) && s.stream.Some? ==> s.stream.value.shut || WakePending(s)
  }

  ghost predicate Counted(s: State) {
    var h := s.history;
    && !h.strayed
    && (h.stoppedAt.Some? <==> s.stopping)
    && h.connects + h.sessions + h.slices <= Late(s)
    && (h.connects > 0 ==> s.phase.Connected? || s.phase.Published? || s.phase.Ended? || Leaving(s.phase))
    && (h.sessions > 0 ==> s.phase.Reading? || s.phase.Working? || s.phase.Ended? || Leaving(s.phase))
    && (h.slices > 0 ==> s.phase.WaitCheck? || s.phase.LoopCheck? || s.phase.Done?)
    && (s.phase.Checked? && s.stopping ==> h.stoppedAt == Some(Checked))
    && (h.sessions > 0 ==> h.stoppedAt == Some(Checked))
    && (s.phase.Sleeping? ==> s.phase.waited < s.phase.delay)
  }

  predicate Leaving(phase: Phase) {
    phase.Dropping? || phase.Returned? || phase.Done?
  }

  ghost predicate Inv(s: State) {
    Shape(s) && LoadedIsOwn(s) && SessionIsWoken(s) && Counted(s)
  }

  lemma {:induction false} MainKeepsInv(s: State, action: Action)
    requires Inv(s) && IsMain(action) && Enabled(s, action)
    ensures Inv(Do(s, action))
  {
    var next := Do(s, action);
    assert forall thread, frame :: FrameIn(next, thread, frame) <==> FrameIn(s, thread, frame) by {
      assert action.Join? ==> s.threads[action.thread] == [];
    }
    if Alone(s) {
      assert forall thread, frame :: !FrameIn(s, thread, frame);
    }
  }

  lemma {:induction false} SignalKeepsInv(s: State, thread: nat)
    requires Inv(s) && Enabled(s, Signal(thread))
    ensures Inv(Do(s, Signal(thread)))
  {
    var next := Do(s, Signal(thread));
    forall t, frame ensures FrameIn(next, t, frame) <==> FrameIn(s, t, frame) || (t == thread && frame == Entered) {
    }
  }

  function Top(s: State, thread: nat): Frame
    requires thread in s.threads && s.threads[thread] != []
  {
    s.threads[thread][|s.threads[thread]| - 1]
  }

  /** A handler's step moves its own frame and leaves the others. */
  lemma {:induction false} HandledFrames(s: State, thread: nat)
    requires Enabled(s, Handle(thread))
    ensures FrameIn(s, thread, Top(s, thread))
    ensures Top(s, thread).Entered? ==> FrameIn(Handled(s, thread), thread, Stored)
    ensures Top(s, thread).Stored? ==> FrameIn(Handled(s, thread), thread, Loaded(s.wake))
    ensures forall t, frame :: FrameIn(s, t, frame) && frame != Top(s, thread) ==> FrameIn(Handled(s, thread), t, frame)
    ensures forall t, frame :: FrameIn(Handled(s, thread), t, frame) ==>
              FrameIn(s, t, frame) || frame == Stored || (Top(s, thread).Stored? && frame == Loaded(s.wake))
  {
    var frames := s.threads[thread];
    assert frames == frames[..|frames| - 1] + [Top(s, thread)];
  }

  lemma {:induction false} SettingTheFlagKeepsInv(s: State, thread: nat)
    requires Inv(s) && Enabled(s, Handle(thread)) && Top(s, thread).Entered?
    ensures Inv(Handled(s, thread))
  {
    HandledFrames(s, thread);
  }

  lemma {:induction false} LoadingKeepsInv(s: State, thread: nat)
    requires Inv(s) && Enabled(s, Handle(thread)) && Top(s, thread).Stored?
    ensures Inv(Handled(s, thread))
  {
    HandledFrames(s, thread);
  }

  lemma {:induction false} WakingKeepsInv(s: State, thread: nat)
    requires Inv(s) && Enabled(s, Handle(thread)) && Top(s, thread).Loaded?
    ensures Inv(Handled(s, thread))
  {
    HandledFrames(s, thread);
  }

  lemma {:induction false} HandleKeepsInv(s: State, thread: nat)
    requires Inv(s) && Enabled(s, Handle(thread))
    ensures Inv(Handled(s, thread))
  {
    match Top(s, thread)
    case Entered => SettingTheFlagKeepsInv(s, thread);
    case Stored => LoadingKeepsInv(s, thread);
    case Loaded(_) => WakingKeepsInv(s, thread);
  }

  lemma {:induction false} HostKeepsInv(s: State, action: Action)
    requires Inv(s) && (action.Arrive? || action.HostCloses?) && Enabled(s, action)
    ensures Inv(Do(s, action))
  {
    assert forall thread, frame :: FrameIn(Do(s, action), thread, frame) <==> FrameIn(s, thread, frame);
  }

  lemma {:induction false} StepKeepsInv(s: State, action: Action)
    requires Inv(s) && Enabled(s, action)
    ensures Inv(Do(s, action))
  {
    if IsMain(action) {
      MainKeepsInv(s, action);
    } else if action.Signal? {
      SignalKeepsInv(s, action.thread);
    } else if action.Handle? {
      HandleKeepsInv(s, action.thread);
    } else {
      HostKeepsInv(s, action);
    }
  }

  /** Every state of every run keeps the invariant, whenever and wherever signals are taken. */
  lemma {:induction false} AlwaysInv(actions: seq<Action>)
    requires Possible(actions)
    ensures Inv(After(actions))
  {
    if actions != [] {
      AlwaysInv(actions[..|actions| - 1]);
      StepKeepsInv(After(actions[..|actions| - 1]), actions[|actions| - 1]);
    }
  }

  /* What that means for a stop. */

  /** A wake-up never hits anything but the connection it is meant for. What a handler has loaded, and what it
      would load, is the connection the main thread holds. */
  lemma {:induction false} NeverWakesAnother(actions: seq<Action>)
    requires Possible(actions)
    ensures !After(actions).history.strayed
    ensures forall thread, descriptor :: FrameIn(After(actions), thread, Loaded(Some(descriptor))) ==>
              After(actions).stream.Some? && After(actions).stream.value.descriptor == descriptor
    ensures After(actions).wake.Some? ==>
              After(actions).stream.Some? && After(actions).stream.value.descriptor == After(actions).wake.value
  {
    AlwaysInv(actions);
  }

  /** Once the flag is set and no handler is still at work, a session, and so any read it is in, is on a
      connection that was shut down, and a read there does not block. */
  lemma {:induction false} NeverBlockedOnALiveConnection(actions: seq<Action>)
    requires Possible(actions) && Quiet(After(actions)) && After(actions).stopping
    ensures InSession(After(actions).phase) ==> After(actions).stream.Some? && After(actions).stream.value.shut
    ensures After(actions).phase.Reading? ==> Enabled(After(actions), EndRead)
  {
    AlwaysInv(actions);
  }

  /** Even with handlers still running, whichever began the stop is yet to wake the session it finds. */
  lemma {:induction false} SomeHandlerWillWake(actions: seq<Action>)
    requires Possible(actions) && After(actions).stopping && InSession(After(actions).phase)
    ensures After(actions).stream.Some? && (After(actions).stream.value.shut || WakePending(After(actions)))
  {
    AlwaysInv(actions);
  }

  /** A session starts with the flag set exactly when the flag was set between the second look at it and the
      start; the connection it starts on is then shut down already. */
  lemma {:induction false} SessionsStartedWhileStopping(actions: seq<Action>)
    requires Possible(actions) && Enabled(After(actions), StartSession)
    ensures After(actions).stopping <==> After(actions).history.stoppedAt == Some(Checked)
    ensures After(actions).stopping ==> After(actions).stream.Some? && After(actions).stream.value.shut
  {
    AlwaysInv(actions);
    assert forall thread, frame :: !FrameIn(After(actions), thread, frame);
  }

  lemma {:induction false} OneConnectionChecked() returns (actions: seq<Action>)
    ensures Possible(actions)
    ensures After(actions) ==
            State(false, Some(3), Some(Connection(3, false, false, 0)), Checked, map[MAIN := []],
                  History(false, None, 0, 0, 0))
  {
    actions := Extended([], CheckLoop);
    actions := Extended(actions, Connect(Some(3), 0));
    actions := Extended(actions, Publish);
    actions := Extended(actions, CheckAgain);
  }

  lemma FlagIsSet(s: State)
    requires s.threads == map[MAIN := [Entered]] && !s.stopping
    ensures Handled(s, MAIN) ==
            s.(threads := map[MAIN := [Stored]], stopping := true, history := s.history.(stoppedAt := Some(s.phase)))
  {
    assert [Entered][..0] + [Stored] == [Stored];
    assert s.threads[MAIN := [Stored]] == map[MAIN := [Stored]];
  }

  lemma DescriptorIsLoaded(s: State)
    requires s.threads == map[MAIN := [Stored]]
    ensures Handled(s, MAIN) == s.(threads := map[MAIN := [Loaded(s.wake)]])
  {
    assert [Frame.Stored][..0] + [Loaded(s.wake)] == [Loaded(s.wake)];
    assert s.threads[MAIN := [Loaded(s.wake)]] == map[MAIN := [Loaded(s.wake)]];
  }

  lemma ConnectionIsWoken(s: State)
    requires s.stream.Some? && s.threads == map[MAIN := [Loaded(Some(s.stream.value.descriptor))]]
    ensures Handled(s, MAIN) == s.(threads := map[MAIN := []], stream := Some(s.stream.value.(shut := true)))
  {
    assert s.threads[MAIN := []] == map[MAIN := []];
  }

  /** A signal handled on the main thread, with nothing else happening until it returns. */
  lemma {:induction false} SignalTaken(actions: seq<Action>, s: State) returns (more: seq<Action>)
    requires Possible(actions) && After(actions) == s && s.threads == map[MAIN := []]
    requires !s.stopping && s.stream.Some? && s.wake == Some(s.stream.value.descriptor)
    ensures Possible(more)
    ensures After(more) == s.(stopping := true, stream := Some(s.stream.value.(shut := true)),
                              history := s.history.(stoppedAt := Some(s.phase)))
  {
    var entered := s.(threads := map[MAIN := [Entered]]);
    assert [] + [Entered] == [Entered];
    assert s.threads[MAIN := [Entered]] == map[MAIN := [Entered]];
    more := Extended(actions, Signal(MAIN));
    more := HandlerStepped(more, entered);
    FlagIsSet(entered);
    var stored := Handled(entered, MAIN);
    more := HandlerStepped(more, stored);
    DescriptorIsLoaded(stored);
    var loaded := Handled(stored, MAIN);
    more := HandlerStepped(more, loaded);
    ConnectionIsWoken(loaded);
  }

  lemma {:induction false} HandlerStepped(actions: seq<Action>, s: State) returns (more: seq<Action>)
    requires Possible(actions) && After(actions) == s && MAIN in s.threads && s.threads[MAIN] != []
    ensures Possible(more) && After(more) == Handled(s, MAIN)
  {
    more := Extended(actions, Handle(MAIN));
  }

  /** That window is real: here a session does start after the signal. */
  lemma {:induction false} ASessionCanStartAfterTheSignal() returns (actions: seq<Action>)
    ensures Possible(actions) && After(actions).phase.Reading? && After(actions).history.sessions == 1
  {
    var checked := OneConnectionChecked();
    var woken := SignalTaken(checked, After(checked));
    actions := Extended(woken, StartSession);
  }

  lemma {:induction false} Extended(actions: seq<Action>, action: Action) returns (more: seq<Action>)
    requires Possible(actions) && Enabled(After(actions), action)
    ensures Possible(more) && After(more) == Do(After(actions), action)
  {
    more := actions + [action];
    assert more[..|more| - 1] == actions;
  }

  /** After the signal the agent does at most one more thing: it completes the connect it was in, or starts
      the session it had just decided on, or sleeps out one slice. */
  lemma {:induction false} AtMostOneThingMore(actions: seq<Action>)
    requires Possible(actions)
    ensures After(actions).history.connects + After(actions).history.sessions + After(actions).history.slices <= 1
    ensures After(actions).history.connects + After(actions).history.sessions + After(actions).history.slices == 1 ==>
              After(actions).stopping && !After(actions).phase.Connecting? && !After(actions).phase.Checked? &&
                !After(actions).phase.Sleeping?
  {
    AlwaysInv(actions);
  }

  /* Without a stop. */

  /** How long the agent is to wait: what the backoff said when it last came back from a connect or a session. */
  ghost function DelayDue(actions: seq<Action>): nat {
    if actions == [] then 0
    else
      match actions[|actions| - 1]
      case Connect(None, delay) => delay
      case Drop(delay) => delay
      case _ => DelayDue(actions[..|actions| - 1])
  }

  /** How many slices it has slept since. */
  ghost function SlicesSlept(actions: seq<Action>): nat {
    if actions == [] || actions[|actions| - 1].CheckReturned? then 0
    else SlicesSlept(actions[..|actions| - 1]) + if actions[|actions| - 1].Sleep? then 1 else 0
  }

  /** A wait is as far as its slices have brought it, and no slice is begun after the last. */
  ghost predicate HasWaited(waited: nat, delay: nat, slices: nat) {
    && waited == (if SLICE * slices < delay then SLICE * slices else delay)
    && (slices > 0 ==> SLICE * (slices - 1) < delay)
  }

  lemma {:induction false} WaitsInSlices(actions: seq<Action>)
    requires Possible(actions)
    ensures match After(actions).phase
            case Returned(delay) => delay == DelayDue(actions)
            case WaitCheck(waited, delay) => delay == DelayDue(actions) &&
                                               HasWaited(waited, delay, SlicesSlept(actions))
            case Sleeping(waited, delay) =>
              delay == DelayDue(actions) && waited < delay && HasWaited(waited, delay, SlicesSlept(actions))
            case _ => true
    ensures (After(actions).phase.LoopCheck? || After(actions).phase.Connecting?) && !After(actions).stopping ==>
              HasWaited(DelayDue(actions), DelayDue(actions), SlicesSlept(actions))
  {
    if actions != [] {
      var front, action := actions[..|actions| - 1], actions[|actions| - 1];
      WaitsInSlices(front);
      var before, now := After(front), Do(After(front), action);
      assert !IsMain(action) ==> now.phase == before.phase;
      if action.Sleep? {
        OneMoreSlice(before.phase.waited, before.phase.delay, SlicesSlept(front));
      }
    }
  }

  lemma {:induction false} OneMoreSlice(waited: nat, delay: nat, slices: nat)
    requires HasWaited(waited, delay, slices) && waited < delay
    ensures HasWaited(waited + if SLICE < delay - waited then SLICE else delay - waited, delay, slices + 1)
  {
  }

  /** Unless it is stopping, the agent connects again only once it has slept out its delay, in exactly as many slices as
      that takes. */
  lemma {:induction false} WaitsOutTheDelay(actions: seq<Action>)
    requires Possible(actions) && After(actions).phase.Connecting? && !After(actions).stopping
    ensures DelayDue(actions) <= SLICE * SlicesSlept(actions)
    ensures SlicesSlept(actions) > 0 ==> SLICE * (SlicesSlept(actions) - 1) < DelayDue(actions)
  {
    WaitsInSlices(actions);
  }

  /** How many programs the handler of the latest request has to run, and how many of them it began. */
  ghost function ProgramsDue(actions: seq<Action>): nat {
    if actions == [] then 0
    else
      match actions[|actions| - 1]
      case ReadFrame(commands) => commands
      case ReadIdle => 0
      case _ => ProgramsDue(actions[..|actions| - 1])
  }

  ghost function ProgramsBegun(actions: seq<Action>): nat {
    if actions == [] || actions[|actions| - 1].ReadFrame? || actions[|actions| - 1].ReadIdle? then 0
    else ProgramsBegun(actions[..|actions| - 1]) + if actions[|actions| - 1].Spawn? then 1 else 0
  }

  lemma {:induction false} WorkIsCounted(actions: seq<Action>)
    requires Possible(actions) && After(actions).phase.Working?
    ensures After(actions).phase.commands + ProgramsBegun(actions) == ProgramsDue(actions)
  {
    var front, action := actions[..|actions| - 1], actions[|actions| - 1];
    WorkSteps(After(front), action);
    if After(front).phase.Working? {
      WorkIsCounted(front);
    }
  }

  lemma {:induction false} WorkSteps(s: State, action: Action)
    requires Enabled(s, action) && Do(s, action).phase.Working?
    ensures var commands := Do(s, action).phase.commands;
            if s.phase.Working? then
              !action.ReadFrame? && !action.ReadIdle? && commands + (if action.Spawn? then 1 else 0) == s.phase.commands
            else action == ReadFrame(commands) || (action.ReadIdle? && commands == 0)
  {
  }

  /** The next message is read only when everything the last one asked for was run, and its helpers are gone. */
  lemma {:induction false} ReadsOnWhenDone(actions: seq<Action>)
    requires Possible(actions) && Enabled(After(actions), Resume)
    ensures ProgramsBegun(actions) == ProgramsDue(actions) && Alone(After(actions))
  {
    WorkIsCounted(actions);
  }

  /** The agent ends only for a stop. */
  lemma {:induction false} EndsOnlyForAStop(actions: seq<Action>)
    requires Possible(actions) && After(actions).phase.Done?
    ensures After(actions).stopping
  {
    if After(actions[..|actions| - 1]).phase.Done? {
      EndsOnlyForAStop(actions[..|actions| - 1]);
    }
  }

  /** A session is left exactly when a read ends, on a connection that was shut or closed by the host, or something
      fails. */
  lemma {:induction false} SessionsEndBecause(actions: seq<Action>, action: Action)
    requires Possible(actions) && Enabled(After(actions), action) && InSession(After(actions).phase)
    ensures !InSession(Do(After(actions), action).phase) <==> action.Fail? || action.EndRead?
    ensures !InSession(Do(After(actions), action).phase) ==> Do(After(actions), action).phase.Ended?
    ensures action.EndRead? ==> After(actions).stream.Some? &&
                                (After(actions).stream.value.shut || After(actions).stream.value.hostClosed)
  {
  }

  /** How many messages came on this connection, and how many of them were read. */
  ghost function Arrived(actions: seq<Action>): nat {
    if actions == [] || actions[|actions| - 1].Connect? then 0
    else Arrived(actions[..|actions| - 1]) + if actions[|actions| - 1].Arrive? then 1 else 0
  }

  ghost function FramesRead(actions: seq<Action>): nat {
    if actions == [] || actions[|actions| - 1].Connect? then 0
    else FramesRead(actions[..|actions| - 1]) + if actions[|actions| - 1].ReadFrame? then 1 else 0
  }

  /** No message is lost or read twice. */
  lemma {:induction false} MessagesAreReadOnce(actions: seq<Action>)
    requires Possible(actions) && After(actions).stream.Some?
    ensures FramesRead(actions) + After(actions).stream.value.unread == Arrived(actions)
  {
    var front, action := actions[..|actions| - 1], actions[|actions| - 1];
    AlwaysInv(front);
    StreamSteps(After(front), action);
    if After(front).stream.Some? {
      MessagesAreReadOnce(front);
    }
  }

  /** A connection begins with nothing on it, and only its own messages and reads change what is unread. */
  lemma {:induction false} StreamSteps(s: State, action: Action)
    requires Inv(s) && Enabled(s, action) && Do(s, action).stream.Some?
    ensures var unread := Do(s, action).stream.value.unread;
            if s.stream.None? then action.Connect? && unread == 0
            else
              !action.Connect? &&
              unread + (if action.ReadFrame? then 1 else 0) ==
              s.stream.value.unread + (if action.Arrive? then 1 else 0)
  {
  }

  /** A handler past its first step has set the flag, and a connection is shut only for a stop. */
  ghost predicate OnlyForAStop(s: State) {
    && (forall thread, frame :: FrameIn(s, thread, frame) && !frame.Entered? ==> s.stopping)
    && (s.stream.Some? && s.stream.value.shut ==> s.stopping)
  }

  lemma {:induction false} ShutsOnlyForAStop(actions: seq<Action>)
    requires Possible(actions)
    ensures OnlyForAStop(After(actions))
  {
    if actions != [] {
      var front, action := actions[..|actions| - 1], actions[|actions| - 1];
      ShutsOnlyForAStop(front);
      StepOnlyForAStop(After(front), action);
    }
  }

  lemma {:induction false} StepOnlyForAStop(s: State, action: Action)
    requires OnlyForAStop(s) && Enabled(s, action)
    ensures OnlyForAStop(Do(s, action))
  {
    var next := Do(s, action);
    if action.Handle? {
      HandledFrames(s, action.thread);
      assert FrameIn(s, action.thread, Top(s, action.thread));
    } else if action.Signal? {
      forall t, frame
        ensures FrameIn(next, t, frame) ==> FrameIn(s, t, frame) || (t == action.thread && frame == Entered)
      {
      }
    } else {
      assert forall thread, frame :: FrameIn(next, thread, frame) ==> FrameIn(s, thread, frame);
    }
  }

  /* The agent stops. */

  /** How far the main thread is from its end once the flag is set. */
  ghost function Distance(s: State): nat {
    match s.phase
    case Done => 0
    case LoopCheck => 1
    case Returned(_) => 1
    case WaitCheck(_, _) => 2
    case Sleeping(_, _) => 3
    case Dropping => 2
    case Ended => 3
    case Published => 4
    case Connected => 5
    case Connecting => 6
    case Checked => 5 + Unread(s)
    case _ => 4 + Unread(s)
  }

  ghost function Unread(s: State): nat {
    if s.stream.Some? then s.stream.value.unread else 0
  }

  /** How much work the handler of one request has left. */
  ghost function WorkLeft(s: State): nat {
    if s.phase.Working? then 2 * s.phase.commands + |s.threads| else 0
  }

  ghost predicate Nearer(a: State, b: State) {
    Distance(a) < Distance(b) || (Distance(a) == Distance(b) && WorkLeft(a) < WorkLeft(b))
  }

  ghost predicate NotFarther(a: State, b: State) {
    Nearer(a, b) || (Distance(a) == Distance(b) && WorkLeft(a) == WorkLeft(b))
  }

  /** A stop under way that has reached the session there is, if there is one. Handlers may still be running. */
  ghost predicate Stopped(s: State) {
    Inv(s) && s.stopping && (InSession(s.phase) ==> s.stream.Some? && s.stream.value.shut)
  }

  /** Once the handlers are done, a stop has reached its session. */
  lemma HandledIsStopped(s: State)
    requires Inv(s) && s.stopping && Quiet(s)
    ensures Stopped(s)
  {
    assert !WakePending(s);
  }

  lemma {:induction false} WorkAdvances(s: State, action: Action)
    requires s.phase.Working? && IsMain(action) && MainEnabled(s, action)
    ensures Nearer(DoMain(s, action), s)
  {
    if action.Join? {
      assert s.threads.Keys == (s.threads - {action.thread}).Keys + {action.thread};
      SizeIsKeys(s.threads);
      SizeIsKeys(s.threads - {action.thread});
    } else if action.Spawn? {
      assert s.threads[action.thread := []].Keys == s.threads.Keys + {action.thread};
      SizeIsKeys(s.threads);
      SizeIsKeys(s.threads[action.thread := []]);
    } else {
      assert MAIN in s.threads.Keys;
      SizeIsKeys(s.threads);
    }
  }

  lemma {:induction false} ProgramAdvances(s: State, action: Action)
    requires !s.phase.Working? && IsMain(action) && MainEnabled(s, action) && s.stopping
    requires s.phase.Reading? ==> s.stream.Some? && s.stream.value.shut
    ensures Nearer(DoMain(s, action), s)
  {
  }

  /** Every step of the main thread takes it nearer to its end. */
  lemma {:induction false} StopsAdvance(s: State, action: Action)
    requires Stopped(s) && IsMain(action) && Enabled(s, action)
    ensures Stopped(DoMain(s, action)) && Nearer(DoMain(s, action), s)
  {
    MainKeepsInv(s, action);
    if s.phase.Working? {
      WorkAdvances(s, action);
    } else {
      ProgramAdvances(s, action);
    }
  }

  /** Nothing else takes it farther away: not another signal, not a handler's step, not the host. */
  lemma {:induction false} OthersDoNotHinder(s: State, action: Action)
    requires Stopped(s) && !IsMain(action) && Enabled(s, action)
    ensures Stopped(Do(s, action)) && NotFarther(Do(s, action), s)
  {
    StepKeepsInv(s, action);
    var next := Do(s, action);
    assert next.threads.Keys == s.threads.Keys;
    SizeIsKeys(s.threads);
    SizeIsKeys(next.threads);
  }

  lemma SizeIsKeys(threads: map<nat, seq<Frame>>)
    ensures |threads| == |threads.Keys|
  {
  }

  /** Until its end there is always a step it can take: nothing is left waiting. */
  lemma {:induction false} StopsAreNeverStuck(s: State) returns (action: Action)
    requires Stopped(s) && Quiet(s) && !s.phase.Done?
    ensures IsMain(action) && Enabled(s, action)
  {
    match s.phase
    case LoopCheck => action := CheckLoop;
    case Connecting => action := Connect(None, 0);
    case Connected => action := Publish;
    case Published => action := CheckAgain;
    case Checked => action := StartSession;
    case Reading => action := EndRead;
    case Working(_) =>
      if Alone(s) {
        action := Fail;
      } else {
        var thread :| thread in s.threads.Keys && thread != MAIN;
        action := Join(thread);
      }
    case Ended => action := Withdraw;
    case Dropping => action := Drop(0);
    case Returned(_) => action := CheckReturned;
    case WaitCheck(_, _) => action := CheckWait;
    case Sleeping(_, _) => action := Sleep;
  }

  /** A run without end: signals, handlers, the host and the main thread in any order. */
  ghost predicate IsRun(run: nat -> State, action: nat -> Action) {
    forall i: nat :: StepsAt(run, action, i)
  }

  ghost predicate StepsAt(run: nat -> State, action: nat -> Action, i: nat) {
    Enabled(run(i), action(i)) && run(i + 1) == Do(run(i), action(i))
  }

  /** The main thread is never kept from its steps for good: from every moment on there is one it takes,
      unless it is done. `turn` says when. */
  ghost predicate KeepsStepping(run: nat -> State, action: nat -> Action, turn: nat -> nat) {
    forall i: nat :: StepsAgain(run, action, i, turn(i))
  }

  ghost predicate StepsAgain(run: nat -> State, action: nat -> Action, i: nat, j: nat) {
    i <= j && (IsMain(action(j)) || run(j).phase.Done?)
  }

  lemma {:induction false} StaysStopped(run: nat -> State, action: nat -> Action, i: nat, j: nat)
    requires IsRun(run, action) && i <= j && Stopped(run(i))
    ensures Stopped(run(j)) && NotFarther(run(j), run(i))
    decreases j - i
  {
    if i < j {
      StaysStopped(run, action, i, j - 1);
      assert StepsAt(run, action, j - 1);
      if IsMain(action(j - 1)) {
        StopsAdvance(run(j - 1), action(j - 1));
      } else {
        OthersDoNotHinder(run(j - 1), action(j - 1));
      }
    }
  }

  /** From a stop that has reached its session, every interleaving in which the main thread keeps stepping
      comes to the agent's end, whatever signals, handlers and the host do meanwhile. */
  lemma {:induction false} StopsOnceReached(run: nat -> State, action: nat -> Action, turn: nat -> nat, from: nat)
    returns (end: nat)
    requires IsRun(run, action) && KeepsStepping(run, action, turn) && Stopped(run(from))
    ensures end >= from && run(end).phase.Done?
    decreases Distance(run(from)), WorkLeft(run(from))
  {
    var next := turn(from);
    assert StepsAgain(run, action, from, next);
    StaysStopped(run, action, from, next);
    end := next;
    if !run(next).phase.Done? {
      assert StepsAt(run, action, next);
      StopsAdvance(run(next), action(next));
      end := StopsOnceReached(run, action, turn, next + 1);
    }
  }

  /** A stop that has not reached its session is pending in a handler, and then all the main thread can do is start and
      join helpers, of which there is only so much left to do. */
  lemma {:induction false} PendingAdvances(s: State, action: Action)
    requires Inv(s) && s.stopping && !Stopped(s) && IsMain(action) && Enabled(s, action)
    ensures s.phase.Working? && WorkLeft(DoMain(s, action)) < WorkLeft(s)
  {
    assert Alone(s) ==> !WakePending(s);
    if action.Join? {
      assert s.threads.Keys == (s.threads - {action.thread}).Keys + {action.thread};
      SizeIsKeys(s.threads);
      SizeIsKeys(s.threads - {action.thread});
    } else {
      assert s.threads[action.thread := []].Keys == s.threads.Keys + {action.thread};
      SizeIsKeys(s.threads);
      SizeIsKeys(s.threads[action.thread := []]);
    }
  }

  /** A stop stays a stop; until it has reached its session, nothing adds to the work left. */
  lemma {:induction false} StopGoesOn(s: State, action: Action)
    requires Inv(s) && s.stopping && Enabled(s, action)
    ensures Inv(Do(s, action)) && Do(s, action).stopping
    ensures Stopped(s) ==> Stopped(Do(s, action))
    ensures !Stopped(s) ==> if IsMain(action) then WorkLeft(Do(s, action)) < WorkLeft(s)
                            else WorkLeft(Do(s, action)) == WorkLeft(s)
  {
    StepKeepsInv(s, action);
    if IsMain(action) {
      if Stopped(s) {
        StopsAdvance(s, action);
      } else {
        PendingAdvances(s, action);
      }
    } else {
      if Stopped(s) {
        OthersDoNotHinder(s, action);
      }
      OthersLeaveTheWork(s, action);
    }
  }

  lemma {:induction false} OthersLeaveTheWork(s: State, action: Action)
    requires !IsMain(action) && Enabled(s, action)
    ensures WorkLeft(Do(s, action)) == WorkLeft(s)
  {
    var next := Do(s, action);
    assert next.threads.Keys == s.threads.Keys;
    SizeIsKeys(s.threads);
    SizeIsKeys(next.threads);
  }

  lemma {:induction false} StopStays(run: nat -> State, action: nat -> Action, i: nat, j: nat)
    requires IsRun(run, action) && i <= j && Inv(run(i)) && run(i).stopping
    ensures Inv(run(j)) && run(j).stopping
    ensures Stopped(run(j)) || WorkLeft(run(j)) <= WorkLeft(run(i))
    decreases j - i
  {
    if i < j {
      StopStays(run, action, i, j - 1);
      assert StepsAt(run, action, j - 1);
      StopGoesOn(run(j - 1), action(j - 1));
    }
  }

  /** Once the flag is set, every interleaving in which the main thread keeps stepping comes to the agent's end,
      whatever handlers are still at work and whatever signals, handlers and the host do meanwhile. */
  lemma {:induction false} StopsInTheEnd(run: nat -> State, action: nat -> Action, turn: nat -> nat, from: nat)
    returns (end: nat)
    requires IsRun(run, action) && KeepsStepping(run, action, turn)
    requires Inv(run(from)) && run(from).stopping
    ensures end >= from && run(end).phase.Done?
    decreases WorkLeft(run(from))
  {
    var next := turn(from);
    assert StepsAgain(run, action, from, next);
    StopStays(run, action, from, next);
    if Stopped(run(next)) {
      end := StopsOnceReached(run, action, turn, next);
    } else {
      OneStepOn(run, action, next);
      end := StopsInTheEnd(run, action, turn, next + 1);
    }
  }

  lemma {:induction false} OneStepOn(run: nat -> State, action: nat -> Action, i: nat)
    requires IsRun(run, action) && Inv(run(i)) && run(i).stopping && !Stopped(run(i))
    ensures !run(i).phase.Done? && Inv(run(i + 1)) && run(i + 1).stopping
    ensures IsMain(action(i)) ==> WorkLeft(run(i + 1)) < WorkLeft(run(i))
  {
    assert StepsAt(run, action, i);
    StopGoesOn(run(i), action(i));
  }
}
