/** What a run of the update manager brings about.

    Calls, polls and the worker's steps interleave in any order. Which calls are accepted is read off the
    state's name alone; what accepted work comes to is read off what its worker did and what was asked since.
 */
module UpdateRuns {
  import opened Outcomes
  import opened UpdateManager

  /** The first `n` actions give the manager a runtime, and it keeps it. */
  lemma {:induction false} RuntimeOnceSet(actions: seq<Action>, n: nat)
    requires n <= |actions|
    ensures After(actions, n).hasRuntime <==> exists k :: 0 <= k < n && actions[k].DoSetRuntime?
  {
    if n > 0 {
      RuntimeOnceSet(actions, n - 1);
    }
  }

  /* Which calls are accepted. */

  /** Nothing is known to be there to update to, and nothing is being done about it. */
  predicate AtRest(state: UpdateState) {
    state.Idle? || state.Failed?
  }

  /** A check starts exactly at rest, with a runtime and a thread to be had; a refused one says why, and changes
      nothing but that a thread that cannot be had leaves the manager idle. */
  lemma {:induction false} ChecksStart(actions: seq<Action>, n: nat, automatic: bool, spawns: bool)
    requires n <= |actions|
    ensures var s := After(actions, n);
            var (next, answer) := CheckStarted(s, automatic, spawns);
            && (answer.Ok? <==> AtRest(s.state) && s.hasRuntime && spawns)
            && (answer == Err(OperationInProgress) <==> s.state.Checking? || s.state.Downloading?)
            && (answer == Err(UpdateAlreadyAvailable) <==> s.state.Available? || s.state.Ready?)
            && (answer == Err(RuntimeUnavailable) <==> AtRest(s.state) && !s.hasRuntime)
            && (answer.Ok? ==> next == s.(state := Checking, receiver := Some(CheckWorker(automatic))))
            && (answer.Err? ==> if answer.error.Launch? then next == s.(state := Idle) else next == s)
            && (answer.Err? && answer.error.Launch? <==> AtRest(s.state) && s.hasRuntime && !spawns)
  {
    AlwaysInv(actions, n);
  }

  /** A download starts exactly with an update on offer, a runtime and a thread to be had, and it is of that
      update; a refused one changes nothing of what the application shows. */
  lemma {:induction false} DownloadsStart(actions: seq<Action>, n: nat, spawns: bool)
    requires n <= |actions|
    ensures var s := After(actions, n);
            var (next, answer) := DownloadStarted(s, spawns);
            && (answer.Ok? <==> s.state.Available? && s.hasRuntime && spawns)
            && (answer == Err(OperationInProgress) <==> s.state.Checking? || s.state.Downloading?)
            && (answer == Err(NoAvailableUpdate) <==> AtRest(s.state) || s.state.Ready?)
            && (answer == Err(RuntimeUnavailable) <==> s.state.Available? && !s.hasRuntime)
            && (answer.Ok? ==> During(next, s.state.update, DownloadWorker(s.state.update), false)
                               && next.state.progress.None? && next.launched == s.launched)
            && (answer.Err? ==> next.state == s.state && next.receiver == s.receiver && next.cancel == s.cancel
                                && next.launched == s.launched)
  {
    AlwaysInv(actions, n);
  }

  /** A cancel is accepted exactly while downloading. */
  lemma {:induction false} CancelsAreAccepted(actions: seq<Action>, n: nat)
    requires n <= |actions|
    ensures var s := After(actions, n);
            var (next, answer) := CancelAsked(s);
            if s.state.Downloading? then
              answer == Ok(()) && next == s.(cancel := Some(true), cancellationRequested := true)
            else answer == Err(NoAvailableUpdate) && next == s
  {
    AlwaysInv(actions, n);
  }

  /** The installer is launched exactly when one is ready, was not launched before, there is a runtime and the
      launch works; a launch that fails leaves it ready to be tried again. */
  lemma {:induction false} InstallsAreLaunched(actions: seq<Action>, n: nat, launch: Result<(), string>)
    requires n <= |actions|
    ensures var s := After(actions, n);
            var (next, answer) := InstallAsked(s, launch);
            && (answer.Ok? <==> s.state.Ready? && s.launched == 0 && s.hasRuntime && launch.Ok?)
            && (answer.Ok? ==> answer.value && next.launched == 1
                               && next.state == Ready(s.state.update, s.state.installer, true))
            && (answer.Err? ==> next == s)
            && (answer == Err(NoReadyInstaller) <==> !s.state.Ready?)
            && (answer == Err(AlreadyInstalling) <==> s.launched == 1)
            && (answer == Err(RuntimeUnavailable) <==> s.state.Ready? && s.launched == 0 && !s.hasRuntime)
            && (answer.Err? && answer.error.Launch? ==> launch == Err(answer.error.message))
  {
    AlwaysInv(actions, n);
  }

  /* What a check comes to. */

  predicate EndsCheck(action: Action) {
    action.DoWorker? && (action.move.CheckReturns? || action.move.Dies?)
  }

  lemma {:induction false} StillChecking(actions: seq<Action>, c: nat, k: nat)
    requires c < k <= |actions| && actions[c].DoStartCheck?
    requires CheckStarted(After(actions, c), actions[c].automatic, actions[c].spawns).1.Ok?
    requires forall j :: c < j < k ==> !EndsCheck(actions[j])
    ensures After(actions, k).state == Checking
    ensures After(actions, k).receiver == Some(CheckWorker(actions[c].automatic))
  {
    if k > c + 1 {
      StillChecking(actions, c, k - 1);
      AlwaysInv(actions, k - 1);
    }
  }

  /** Work that has ended, one way or the other, waits for the poll that collects it. */
  lemma {:induction false} WaitsForThePoll(actions: seq<Action>, m: nat, n: nat)
    requires m <= n <= |actions| && After(actions, m).receiver.Some?
    requires After(actions, m).receiver.value.SentEvent? || After(actions, m).receiver.value.GoneSilently?
    requires forall j :: m <= j < n ==> !actions[j].DoPoll?
    ensures After(actions, n).receiver == After(actions, m).receiver
    ensures After(actions, n).state == After(actions, m).state
    decreases n
  {
    if m < n {
      WaitsForThePoll(actions, m, n - 1);
      AlwaysInv(actions, n - 1);
    }
  }

  /** Whatever else happens meanwhile: an update a check finds is on offer after the next poll, finding none leaves
      the manager idle, and a failure is what is shown and reported. */
  lemma {:induction false} ChecksComeBack(actions: seq<Action>, c: nat, m: nat, n: nat)
    requires c < m < n < |actions| && actions[c].DoStartCheck?
    requires CheckStarted(After(actions, c), actions[c].automatic, actions[c].spawns).1.Ok?
    requires forall j :: c < j < m ==> !EndsCheck(actions[j])
    requires EndsCheck(actions[m])
    requires (forall j :: m < j < n ==> !actions[j].DoPoll?) && actions[n].DoPoll?
    ensures var (after, reported) := (After(actions, n + 1).state, Polled(After(actions, n)).1);
            match actions[m].move
            case CheckReturns(Ok(Some(update))) => after == Available(update) && reported == []
            case CheckReturns(Ok(None)) => after == Idle && reported == []
            case CheckReturns(Err(message)) =>
              after == Failed(message) &&
              reported == [Failure("check for application updates", message, actions[c].automatic)]
            case _ => after == Failed(WORKER_STOPPED) &&
                      reported == [Failure("application update", WORKER_STOPPED, false)]
  {
    StillChecking(actions, c, m);
    WaitsForThePoll(actions, m + 1, n);
  }

  /* What a download comes to. */

  /** The download of an update, with its worker at the other end and whether it was asked to stop. */
  ghost predicate During(s: State, update: AvailableUpdate, worker: Worker, cancelled: bool) {
    && s.state.Downloading? && s.state.update == update && s.receiver == Some(worker)
    && s.cancellationRequested == cancelled && s.cancel == Some(cancelled)
  }

  /** The step that takes a download's worker on, or ends it. */
  predicate MovesOn(worker: Worker, action: Action) {
    match worker
    case DownloadWorker(_) => action.DoWorker? && (action.move.FetchReturns? || action.move.Dies?)
    case FetchedWorker(_, _) => action.DoWorker? && (action.move.Reports? || action.move.Dies?)
    case _ => action.DoPoll?
  }

  predicate CancelledBetween(actions: seq<Action>, d: nat, k: nat)
    requires k <= |actions|
  {
    exists j :: d < j < k && actions[j].DoCancel?
  }

  lemma {:induction false} DownloadGoesOn(s: State, action: Action, update: AvailableUpdate, worker: Worker,
                                          cancelled: bool)
    requires During(s, update, worker, cancelled) && !MovesOn(worker, action)
    requires worker.DownloadWorker? || worker.FetchedWorker? || worker.SentEvent? || worker.GoneSilently?
    ensures During(Next(s, action), update, worker, cancelled || action.DoCancel?)
  {
  }

  lemma {:induction false} StillDuring(actions: seq<Action>, d: nat, m: nat, k: nat, update: AvailableUpdate,
                                       worker: Worker)
    requires d < m <= k <= |actions|
    requires During(After(actions, m), update, worker, CancelledBetween(actions, d, m))
    requires worker.DownloadWorker? || worker.FetchedWorker? || worker.SentEvent? || worker.GoneSilently?
    requires forall j :: m <= j < k ==> !MovesOn(worker, actions[j])
    ensures During(After(actions, k), update, worker, CancelledBetween(actions, d, k))
    decreases k
  {
    if m < k {
      StillDuring(actions, d, m, k - 1, update, worker);
      DownloadGoesOn(After(actions, k - 1), actions[k - 1], update, worker, CancelledBetween(actions, d, k - 1));
    }
  }

  /** The download begun at `d` has had its answer at `m`, and nothing of its worker's own happened in between. */
  ghost predicate Fetched(actions: seq<Action>, d: nat, m: nat) {
    && d < m < |actions| && actions[d].DoDownload? && DownloadStarted(After(actions, d), actions[d].spawns).1.Ok?
    && actions[m].DoWorker? && actions[m].move.FetchReturns?
    && forall j :: d < j < m && actions[j].DoWorker? ==> !actions[j].move.FetchReturns? && !actions[j].move.Dies?
  }

  lemma {:induction false} FetchedWaits(actions: seq<Action>, d: nat, m: nat, k: nat)
    requires Fetched(actions, d, m) && m < k <= |actions|
    requires forall j :: m < j < k && actions[j].DoWorker? ==> !actions[j].move.Reports? && !actions[j].move.Dies?
    ensures After(actions, d).state.Available?
    ensures During(After(actions, k), After(actions, d).state.update,
                   FetchedWorker(After(actions, d).state.update, actions[m].move.download),
                   CancelledBetween(actions, d, k))
  {
    DownloadsStart(actions, d, actions[d].spawns);
    var update := After(actions, d).state.update;
    StillDuring(actions, d, d + 1, m, update, DownloadWorker(update));
    assert CancelledBetween(actions, d, m + 1) == CancelledBetween(actions, d, m);
    StillDuring(actions, d, m + 1, k, update, FetchedWorker(update, actions[m].move.download));
  }

  /** Whatever else happens meanwhile: a download that its worker reported on comes to what was fetched, after the next
      poll, unless it was asked to stop before that; then its update is on offer again, and nothing is reported. */
  lemma {:induction false} DownloadsComeBack(actions: seq<Action>, d: nat, m: nat, p: nat, n: nat)
    requires Fetched(actions, d, m)
    requires m < p < n < |actions| && actions[p].DoWorker? && actions[p].move.Reports?
    requires forall j :: m < j < p && actions[j].DoWorker? ==> !actions[j].move.Reports? && !actions[j].move.Dies?
    requires (forall j :: p < j < n ==> !actions[j].DoPoll?) && actions[n].DoPoll?
    ensures After(actions, d).state.Available?
    ensures var update := After(actions, d).state.update;
            var (after, reported) := (After(actions, n + 1).state, Polled(After(actions, n)).1);
            if CancelledBetween(actions, d, n) then after == Available(update) && reported == []
            else match actions[m].move.download
              case Ok(installer) => after == Ready(update, installer, false) && reported == []
              case Err(message) =>
                after == Failed(message) && reported == [Failure("download the application update", message, false)]
  {
    FetchedWaits(actions, d, m, p);
    var update := After(actions, d).state.update;
    var sent := After(actions, p + 1).receiver.value;
    assert CancelledBetween(actions, d, p + 1) == CancelledBetween(actions, d, p);
    StillDuring(actions, d, p + 1, n, update, sent);
  }

  /** A download whose worker dies, before it has fetched or after, is shown and reported as stopped by the next
      poll. */
  lemma {:induction false} DeadDownloadsAreReported(actions: seq<Action>, n: nat, k: nat)
    requires k < n < |actions| && actions[k] == DoWorker(Dies) && After(actions, k).state.Downloading?
    requires After(actions, k).receiver.Some? && !After(actions, k).receiver.value.SentEvent?
    requires (forall j :: k < j < n ==> !actions[j].DoPoll?) && actions[n].DoPoll?
    ensures After(actions, n + 1).state == Failed(WORKER_STOPPED)
    ensures Polled(After(actions, n)).1 == [Failure("application update", WORKER_STOPPED, false)]
  {
    AlwaysInv(actions, k);
    WaitsForThePoll(actions, k + 1, n);
  }

  /** While a download's worker is at work, a poll shows the progress it published last. */
  lemma {:induction false} ProgressIsShown(actions: seq<Action>, m: nat, n: nat)
    requires m < n < |actions| && actions[m].DoWorker? && actions[m].move.Publishes? && actions[n].DoPoll?
    requires After(actions, m).receiver.Some? && After(actions, m).receiver.value.DownloadWorker?
    requires forall j :: m < j < n && actions[j].DoWorker? ==> actions[j].move.Reports?
    ensures After(actions, n + 1).state == Downloading(After(actions, m).receiver.value.update,
                                                       Some(actions[m].move.progress))
  {
    var update := After(actions, m).receiver.value.update;
    AlwaysInv(actions, m);
    PublishedStays(actions, m, n);
  }

  lemma {:induction false} PublishedStays(actions: seq<Action>, m: nat, k: nat)
    requires m < k <= |actions| && actions[m].DoWorker? && actions[m].move.Publishes?
    requires After(actions, m).receiver.Some? && After(actions, m).receiver.value.DownloadWorker?
    requires forall j :: m < j < k && actions[j].DoWorker? ==> actions[j].move.Reports?
    ensures After(actions, k).state.Downloading? && After(actions, k).receiver == After(actions, m).receiver
    ensures After(actions, k).state.update == After(actions, m).receiver.value.update
    ensures After(actions, k).downloadProgress == Some(Some(actions[m].move.progress))
  {
    if k > m + 1 {
      PublishedStays(actions, m, k - 1);
    } else {
      AlwaysInv(actions, m);
    }
  }

  /* A whole update. */

  /** An update found stays on offer until its download is asked for. */
  lemma {:induction false} StaysOnOffer(actions: seq<Action>, m: nat, k: nat)
    requires m <= k <= |actions| && After(actions, m).state.Available?
    requires forall j :: m <= j < k ==> !actions[j].DoDownload?
    ensures After(actions, k).state == After(actions, m).state
    ensures After(actions, m).hasRuntime ==> After(actions, k).hasRuntime
    decreases k
  {
    if m < k {
      StaysOnOffer(actions, m, k - 1);
      AlwaysInv(actions, k - 1);
    }
  }

  lemma {:induction false} RuntimeStays(actions: seq<Action>, m: nat, k: nat)
    requires m <= k <= |actions| && After(actions, m).hasRuntime
    ensures After(actions, k).hasRuntime
    decreases k
  {
    if m < k {
      RuntimeStays(actions, m, k - 1);
    }
  }

  /** A run in which a check starts at `c`, finds an update at `found` and is polled at `seen`; its download starts at
      `d`, fetches at `fetched`, reports at `told` and is polled at `done`,
        and is never asked to stop; and the installer
      is asked for at `i` and can be launched. Anything else may happen in between. */
  ghost predicate GoesWell(actions: seq<Action>, c: nat, found: nat, seen: nat, d: nat, fetched: nat, told: nat,
                           done: nat, i: nat) {
    && c < found < seen < d < fetched < told < done < i < |actions|
    && actions[c].DoStartCheck? && CheckStarted(After(actions, c), actions[c].automatic, actions[c].spawns).1.Ok?
    && (forall j :: c < j < found ==> !EndsCheck(actions[j]))
    && actions[found].DoWorker? && actions[found].move.CheckReturns?
    && actions[found].move.check.Ok? && actions[found].move.check.value.Some?
    && (forall j :: found < j < seen ==> !actions[j].DoPoll?) && actions[seen].DoPoll?
    && (forall j :: seen < j < d ==> !actions[j].DoDownload?) && actions[d] == DoDownload(true)
    && (forall j :: d < j < fetched && actions[j].DoWorker? ==>
          !actions[j].move.FetchReturns? && !actions[j].move.Dies?)
    && actions[fetched].DoWorker? && actions[fetched].move.FetchReturns? && actions[fetched].move.download.Ok?
    && (forall j :: fetched < j < told && actions[j].DoWorker? ==>
          !actions[j].move.Reports? && !actions[j].move.Dies?)
    && actions[told].DoWorker? && actions[told].move.Reports?
    && (forall j :: told < j < done ==> !actions[j].DoPoll?) && actions[done].DoPoll?
    && !CancelledBetween(actions, d, done)
    && actions[i] == DoInstall(Ok(()))
  }

  lemma {:induction false} ReadyInTheEnd(actions: seq<Action>, c: nat, found: nat, seen: nat, d: nat, fetched: nat,
                                         told: nat, done: nat, i: nat)
    requires GoesWell(actions, c, found, seen, d, fetched, told, done, i)
    ensures After(actions, done + 1).state ==
            Ready(actions[found].move.check.value.value, actions[fetched].move.download.value, false)
    ensures After(actions, d).hasRuntime
  {
    ChecksComeBack(actions, c, found, seen);
    RuntimeStays(actions, c, d);
    StaysOnOffer(actions, seen + 1, d);
    DownloadsStart(actions, d, true);
    DownloadsComeBack(actions, d, fetched, told, done);
  }

  /** Such a run ends with the very update that was found being installed, from the very file that was fetched, and
      with one launch. */
  lemma {:induction false} UpdatesGoThrough(actions: seq<Action>, c: nat, found: nat, seen: nat, d: nat, fetched: nat,
                                            told: nat, done: nat, i: nat)
    requires GoesWell(actions, c, found, seen, d, fetched, told, done, i)
    ensures After(actions, i + 1).state ==
            Ready(actions[found].move.check.value.value, actions[fetched].move.download.value, true)
    ensures After(actions, i + 1).launched == 1
  {
    ReadyInTheEnd(actions, c, found, seen, d, fetched, told, done, i);
    ReadyIsForGood(actions, done + 1, i);
    RuntimeStays(actions, d, i);
    InstallsAreLaunched(actions, i, Ok(()));
    ChannelExactlyWhileWorking(actions, i + 1);
  }
}
