/** The application's update manager: one worker thread at a time, a channel, a cancel flag, a launch.

    The worker's steps interleave freely with the client's calls. The worker reads the cancel flag with
    relaxed ordering, so it may miss a store; it may also die without a word. `launched` counts the
    installer launches that succeeded.
 */
module UpdateManager {
  import opened Outcomes

  datatype AvailableUpdate = AvailableUpdate(validated: string, releaseNotes: string)

  datatype UpdateState =
    | Idle
    | Checking
    | Available(update: AvailableUpdate)
    | Downloading(update: AvailableUpdate, progress: Option<nat>)
    | Ready(update: AvailableUpdate, installer: string, installing: bool)
    | Failed(message: string)

  datatype ActionError = RuntimeUnavailable | OperationInProgress | UpdateAlreadyAvailable | NoAvailableUpdate
                       | NoReadyInstaller | AlreadyInstalling | Launch(message: string)

  datatype Event =
    | CheckDone(check: Result<Option<AvailableUpdate>, string>, automatic: bool)
    | DownloadDone(update: AvailableUpdate, download: Result<string, string>, cancelled: bool)

  /** The other end of the channel: at work, finished with its event in the channel, or gone without one. */
  datatype Worker =
    | CheckWorker(automatic: bool)
    | DownloadWorker(update: AvailableUpdate)
    | FetchedWorker(update: AvailableUpdate, download: Result<string, string>)
    | SentEvent(event: Event)
    | GoneSilently

  datatype Failure = Failure(action: string, message: string, automatic: bool)

  const WORKER_STOPPED := "the update worker stopped without reporting a result"

  /** Everything the manager holds, the channel and the flag it shares with its worker included. */
  datatype State = State(
    hasRuntime: bool,
    state: UpdateState,
    receiver: Option<Worker>,
    cancel: Option<bool>,
    cancellationRequested: bool,
    downloadProgress: Option<Option<nat>>,
    launched: nat)

  const INITIAL := State(false, Idle, None, None, false, None, 0)

  /* What each call does. */

  function CheckStarted(s: State, automatic: bool, spawns: bool): (State, Result<(), ActionError>) {
    if s.receiver.Some? then (s, Err(OperationInProgress))
    else if s.state.Available? || s.state.Ready? then (s, Err(UpdateAlreadyAvailable))
    else if !s.hasRuntime then (s, Err(RuntimeUnavailable))
    else if spawns then (s.(state := Checking, receiver := Some(CheckWorker(automatic))), Ok(()))
    else (s.(state := Idle, cancel := None), Err(Launch("could not start update worker")))
  }

  function DownloadStarted(s: State, spawns: bool): (State, Result<(), ActionError>) {
    if s.receiver.Some? then (s, Err(OperationInProgress))
    else if !s.state.Available? then (s, Err(NoAvailableUpdate))
    else if !s.hasRuntime then (s, Err(RuntimeUnavailable))
    else
      var update := s.state.update;
      var prepared := s.(cancellationRequested := false, downloadProgress := Some(None));
      if spawns then
        (prepared.(state := Downloading(update, None), cancel := Some(false),
                   receiver := Some(DownloadWorker(update))), Ok(()))
      else (prepared.(state := Available(update), cancel := None), Err(Launch("could not start update worker")))
  }

  function CancelAsked(s: State): (State, Result<(), ActionError>) {
    if s.state.Downloading? && s.cancel.Some? then (s.(cancel := Some(true), cancellationRequested := true), Ok(()))
    else (s, Err(NoAvailableUpdate))
  }

  function InstallAsked(s: State, launch: Result<(), string>): (State, Result<bool, ActionError>) {
    if !s.state.Ready? then (s, Err(NoReadyInstaller))
    else if s.state.installing then (s, Err(AlreadyInstalling))
    else if !s.hasRuntime then (s, Err(RuntimeUnavailable))
    else
      match launch
      case Ok(_) => (s.(state := s.state.(installing := true), launched := s.launched + 1), Ok(true))
      case Err(message) => (s, Err(Launch(message)))
  }

  /** The state an event leads to, and the failure it reports. */
  function Applied(event: Event, cancellationRequested: bool): (UpdateState, seq<Failure>) {
    match event
    case CheckDone(Ok(Some(update)), _) => (Available(update), [])
    case CheckDone(Ok(None), _) => (Idle, [])
    case CheckDone(Err(message), automatic) =>
      (Failed(message), [Failure("check for application updates", message, automatic)])
    case DownloadDone(update, download, cancelled) =>
      if cancelled || cancellationRequested then (Available(update), [])
      else
        match download
        case Ok(installer) => (Ready(update, installer, false), [])
        case Err(message) => (Failed(message), [Failure("download the application update", message, false)])
  }

  function Settled(s: State, state: UpdateState): State {
    s.(state := state, receiver := None, cancel := None, cancellationRequested := false, downloadProgress := None)
  }

  function Polled(s: State): (State, seq<Failure>) {
    var seen :=
      if s.downloadProgress.Some? && s.downloadProgress.value.Some? && s.state.Downloading? then
        s.(state := s.state.(progress := s.downloadProgress.value))
      else s;
    match s.receiver
    case Some(SentEvent(event)) =>
      var (state, failures) := Applied(event, s.cancellationRequested);
      (Settled(seen, state), failures)
    case Some(GoneSilently) =>
      (Settled(seen, Failed(WORKER_STOPPED)), [Failure("application update", WORKER_STOPPED, false)])
    case _ => (seen, [])
  }

  /* What the worker does. */

  datatype WorkerMove =
    | CheckReturns(check: Result<Option<AvailableUpdate>, string>)
    | FetchReturns(download: Result<string, string>)
    | Publishes(progress: nat)
    | Reports(seesFlag: bool)
    | Dies

  function WorkerMoves(s: State, move: WorkerMove): State {
    if s.receiver.None? then s
    else
      match (move, s.receiver.value)
      case (CheckReturns(check), CheckWorker(automatic)) => s.(receiver := Some(SentEvent(CheckDone(check, automatic))))
      case (FetchReturns(download), DownloadWorker(update)) => s.(receiver := Some(FetchedWorker(update, download)))
      case (Publishes(progress), DownloadWorker(_)) => s.(downloadProgress := Some(Some(progress)))
      case (Reports(seesFlag), FetchedWorker(update, download)) =>
        s.(receiver := Some(SentEvent(DownloadDone(update, download, seesFlag && s.cancel == Some(true)))))
      case (Dies, CheckWorker(_)) => s.(receiver := Some(GoneSilently))
      case (Dies, DownloadWorker(_)) => s.(receiver := Some(GoneSilently))
      case (Dies, FetchedWorker(_, _)) => s.(receiver := Some(GoneSilently))
      case _ => s
  }

  /* The manager itself. */

  class Manager {
    var hasRuntime: bool
    var state: UpdateState
    var receiver: Option<Worker>
    var cancel: Option<bool>
    var cancellationRequested: bool
    var downloadProgress: Option<Option<nat>>
    var launched: nat

    function View(): State
      reads this
    {
      State(hasRuntime, state, receiver, cancel, cancellationRequested, downloadProgress, launched)
    }

    constructor ()
      ensures View() == INITIAL
    {
      hasRuntime, state, receiver, cancel := false, Idle, None, None;
      cancellationRequested, downloadProgress, launched := false, None, 0;
    }

    method SetRuntime()
      modifies this
      ensures View() == old(View()).(hasRuntime := true)
    {
      hasRuntime := true;
    }

    method StartWorker(worker: Worker, spawns: bool, fallback: UpdateState) returns (result: Result<(), ActionError>)
      modifies this
      ensures spawns ==> View() == old(View()).(receiver := Some(worker)) && result == Ok(())
      ensures !spawns ==> View() == old(View()).(state := fallback, cancel := None)
                          && result == Err(Launch("could not start update worker"))
    {
      if !spawns {
        state, cancel := fallback, None;
        return Err(Launch("could not start update worker"));
      }
      receiver := Some(worker);
      return Ok(());
    }

    method StartCheck(automatic: bool, spawns: bool) returns (result: Result<(), ActionError>)
      modifies this
      ensures (View(), result) == CheckStarted(old(View()), automatic, spawns)
    {
      if receiver.Some? {
        return Err(OperationInProgress);
      }
      if state.Available? || state.Ready? {
        return Err(UpdateAlreadyAvailable);
      }
      if !hasRuntime {
        return Err(RuntimeUnavailable);
      }
      state := Checking;
      result := StartWorker(CheckWorker(automatic), spawns, Idle);
    }

    method Download(spawns: bool) returns (result: Result<(), ActionError>)
      modifies this
      ensures (View(), result) == DownloadStarted(old(View()), spawns)
    {
      if receiver.Some? {
        return Err(OperationInProgress);
      }
      if !state.Available? {
        return Err(NoAvailableUpdate);
      }
      if !hasRuntime {
        return Err(RuntimeUnavailable);
      }
      var update := state.update;
      state := Downloading(update, None);
      cancel := Some(false);
      cancellationRequested := false;
      downloadProgress := Some(None);
      result := StartWorker(DownloadWorker(update), spawns, Available(update));
    }

    method Cancel() returns (result: Result<(), ActionError>)
      modifies this
      ensures (View(), result) == CancelAsked(old(View()))
    {
      if !(state.Downloading? && cancel.Some?) {
        return Err(NoAvailableUpdate);
      }
      cancel := Some(true);
      cancellationRequested := true;
      return Ok(());
    }

    method Install(launch: Result<(), string>) returns (result: Result<bool, ActionError>)
      modifies this
      ensures (View(), result) == InstallAsked(old(View()), launch)
    {
      if !state.Ready? {
        return Err(NoReadyInstaller);
      }
      if state.installing {
        return Err(AlreadyInstalling);
      }
      if !hasRuntime {
        return Err(RuntimeUnavailable);
      }
      state := state.(installing := true);
      if launch.Err? {
        state := state.(installing := false);
        return Err(Launch(launch.error));
      }
      launched := launched + 1;
      return Ok(true);
    }

    method SnapshotDownloadProgress()
      modifies this`state
      ensures state == if downloadProgress.Some? && downloadProgress.value.Some? && old(state).Downloading?
                       then old(state).(progress := downloadProgress.value) else old(state)
    {
      if downloadProgress.Some? && downloadProgress.value.Some? && state.Downloading? {
        state := state.(progress := downloadProgress.value);
      }
    }

    method Poll() returns (failures: seq<Failure>)
      modifies this
      ensures (View(), failures) == Polled(old(View()))
    {
      SnapshotDownloadProgress();
      failures := [];
      while receiver.Some?
        invariant receiver.Some? ==>
          failures == [] && View() == old(View()).(state := state)
          && state == (if downloadProgress.Some? && downloadProgress.value.Some? && old(state).Downloading?
                       then old(state).(progress := downloadProgress.value) else old(state))
        invariant receiver.None? ==> (View(), failures) == Polled(old(View()))
        decreases receiver.Some?
      {
        match receiver.value
        case SentEvent(event) =>
          receiver, cancel, downloadProgress := None, None, None;
          var requested := cancellationRequested;
          cancellationRequested := false;
          var failure := Apply(event, requested);
          failures := failures + failure;
          assert failures == failure;
        case GoneSilently =>
          receiver, cancel, downloadProgress := None, None, None;
          cancellationRequested := false;
          state := Failed(WORKER_STOPPED);
          failures := failures + [Failure("application update", WORKER_STOPPED, false)];
          assert failures == [Failure("application update", WORKER_STOPPED, false)];
        case _ => break;
      }
    }

    /** Moves on to the state an event leads to. */
    method Apply(event: Event, requested: bool) returns (failures: seq<Failure>)
      modifies this`state
      ensures (state, failures) == Applied(event, requested)
    {
      failures := [];
      match event {
      case CheckDone(check, automatic) =>
        if check.Ok? && check.value.Some? {
          state := Available(check.value.value);
        } else if check.Ok? {
          state := Idle;
        } else {
          state := Failed(check.error);
          failures := [Failure("check for application updates", check.error, automatic)];
        }
      case DownloadDone(update, download, cancelled) =>
        if cancelled || requested {
          state := Available(update);
        } else if download.Ok? {
          state := Ready(update, download.value, false);
        } else {
          state := Failed(download.error);
          failures := [Failure("download the application update", download.error, false)];
        }
      }
    }
  }

  /* Every interleaving. */

  datatype Action =
    | DoSetRuntime
    | DoStartCheck(automatic: bool, spawns: bool)
    | DoDownload(spawns: bool)
    | DoCancel
    | DoInstall(launch: Result<(), string>)
    | DoPoll
    | DoWorker(move: WorkerMove)

  function Next(s: State, action: Action): State {
    match action
    case DoSetRuntime => s.(hasRuntime := true)
    case DoStartCheck(automatic, spawns) => CheckStarted(s, automatic, spawns).0
    case DoDownload(spawns) => DownloadStarted(s, spawns).0
    case DoCancel => CancelAsked(s).0
    case DoInstall(launch) => InstallAsked(s, launch).0
    case DoPoll => Polled(s).0
    case DoWorker(move) => WorkerMoves(s, move)
  }

  /** The state after the first `n` actions of a run. */
  function After(actions: seq<Action>, n: nat): State
    requires n <= |actions|
  {
    if n == 0 then INITIAL else Next(After(actions, n - 1), actions[n - 1])
  }

  /** A channel exists exactly while there is work, the worker is of that work, and the cancel flag is the
      download's. */
  ghost predicate Inv(s: State) {
    && (s.receiver.Some? <==> s.state.Checking? || s.state.Downloading?)
    && (s.cancel.Some? <==> s.state.Downloading?)
    && (s.cancellationRequested <==> s.cancel == Some(true))
    && s.launched == (if s.state.Ready? && s.state.installing then 1 else 0)
    && (s.state.Checking? ==>
          match s.receiver.value
          case CheckWorker(_) => true
          case SentEvent(CheckDone(_, _)) => true
          case GoneSilently => true
          case _ => false)
    && (s.state.Downloading? ==>
          match s.receiver.value
          case DownloadWorker(update) => update == s.state.update
          case FetchedWorker(update, _) => update == s.state.update
          case SentEvent(DownloadDone(update, _, cancelled)) =>
            update == s.state.update && (cancelled ==> s.cancellationRequested)
          case GoneSilently => true
          case _ => false)
  }

  lemma {:induction false} NextKeepsInv(s: State, action: Action)
    requires Inv(s)
    ensures Inv(Next(s, action))
  {
  }

  lemma {:induction false} AlwaysInv(actions: seq<Action>, n: nat)
    requires n <= |actions|
    ensures Inv(After(actions, n))
  {
    if n > 0 {
      AlwaysInv(actions, n - 1);
      NextKeepsInv(After(actions, n - 1), actions[n - 1]);
    }
  }

  /** In every reachable state there is a worker channel exactly while checking or downloading, and the
      installer has been launched at most once. */
  lemma {:induction false} ChannelExactlyWhileWorking(actions: seq<Action>, n: nat)
    requires n <= |actions|
    ensures var s := After(actions, n);
            && (s.receiver.Some? <==> s.state.Checking? || s.state.Downloading?)
            && s.launched <= 1
            && (s.launched == 1 <==> s.state.Ready? && s.state.installing)
  {
    AlwaysInv(actions, n);
  }

  /** Once an installer is ready, no later action replaces it or the update it is of. */
  lemma {:induction false} ReadyIsForGood(actions: seq<Action>, m: nat, n: nat)
    requires m <= n <= |actions| && After(actions, m).state.Ready?
    ensures var before, later := After(actions, m), After(actions, n);
            && later.state.Ready? && later.state.update == before.state.update
            && later.state.installer == before.state.installer
            && before.launched <= later.launched
            && (before.state.installing ==> later.state.installing)
    decreases n - m
  {
    if m < n {
      ReadyIsForGood(actions, m, n - 1);
      AlwaysInv(actions, n - 1);
    }
  }

  /** A download whose cancel was accepted keeps being cancelled until it ends, and it ends with the same
      update on offer or with a dead worker, never with an installer. */
  lemma {:induction false} CancelledNeverReady(actions: seq<Action>, m: nat, n: nat)
    requires m < n <= |actions|
    requires actions[m] == DoCancel && CancelAsked(After(actions, m)).1.Ok?
    requires forall k :: m < k < n ==> After(actions, k).state.Downloading?
    ensures var update := After(actions, m).state.update;
            var s := After(actions, n);
            || (s.state.Downloading? && s.state.update == update && s.cancellationRequested)
            || s.state == Available(update)
            || s.state == Failed(WORKER_STOPPED)
    decreases n
  {
    AlwaysInv(actions, n - 1);
    if m < n - 1 {
      CancelledNeverReady(actions, m, n - 1);
      CancelledStays(After(actions, n - 1), actions[n - 1]);
    }
  }

  lemma CancelledStays(s: State, action: Action)
    requires Inv(s) && s.state.Downloading? && s.cancellationRequested
    ensures var next := Next(s, action);
            || (next.state.Downloading? && next.state.update == s.state.update && next.cancellationRequested)
            || next.state == Available(s.state.update)
            || next.state == Failed(WORKER_STOPPED)
  {
  }

  /** A ready installer comes from a download that reported it and was not cancelled. */
  lemma {:induction false} ReadyComesFromADownload(actions: seq<Action>, n: nat)
    requires 0 < n <= |actions|
    requires After(actions, n).state.Ready? && !After(actions, n - 1).state.Ready?
    ensures var before, s := After(actions, n - 1), After(actions, n);
            && actions[n - 1].DoPoll?
            && before.state.Downloading? && before.state.update == s.state.update
            && before.receiver == Some(SentEvent(DownloadDone(s.state.update, Ok(s.state.installer), false)))
            && !before.cancellationRequested && !s.state.installing
  {
    AlwaysInv(actions, n - 1);
  }

  /** Work fails only in a poll, and is then reported once, with the message the state keeps; an automatic
      failure is a check's, and a cancelled download fails only by its worker stopping. */
  lemma {:induction false} FailuresAreReportedOnce(actions: seq<Action>, n: nat)
    requires n < |actions|
    ensures var before, s := After(actions, n), After(actions, n + 1);
            var reported := if actions[n].DoPoll? then Polled(before).1 else [];
            && (s.state.Failed? && s.state != before.state ==> reported != [])
            && (reported != [] ==>
                  && |reported| == 1
                  && s.state == Failed(reported[0].message)
                  && (before.state.Checking? || before.state.Downloading?)
                  && (reported[0].automatic ==> before.state.Checking?)
                  && (before.cancellationRequested ==> reported[0].message == WORKER_STOPPED))
  {
    AlwaysInv(actions, n);
  }

  /** A worker that has finished, one way or the other, is let go of by the next poll. */
  lemma {:induction false} FinishedWorkIsCollected(actions: seq<Action>, n: nat)
    requires n < |actions| && actions[n].DoPoll?
    requires After(actions, n).receiver.Some? &&
               (After(actions, n).receiver.value.SentEvent? || After(actions, n).receiver.value.GoneSilently?)
    ensures var s := After(actions, n + 1);
            s.receiver.None? && s.cancel.None? && !s.state.Checking? && !s.state.Downloading? && s.launched == 0
  {
    AlwaysInv(actions, n);
  }
}
