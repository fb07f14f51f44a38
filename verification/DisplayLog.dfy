/** What is run and seen while a guest is moved to another version of its display payload.

    The guest is a world that answers every program run and every fact looked at as it pleases, knowing all
    that was run and seen before. A log holds what was run and what was seen, and an honest log holds nothing
    the world did not say. Outcomes are judged against the log.
 */
module DisplayLog {
  import opened Outcomes

  /** The programs that change the guest. */
  datatype Command =
    | InstallPackages
    | CreateSigningKey
    | CopySources
    | DkmsAdd(version: string)
    | DkmsBuild(version: string)
    | DkmsInstall(version: string)
    | DkmsRemove(version: string)
    | RebuildInitramfs
    | UnloadModule
    | LoadModule
    | SettleDesktop
    | EnsureServiceUser
    | InstallServices
    | StartServices

  /** The facts that are only looked at. */
  datatype Question =
    | GuestFactsReadable
    | PayloadReadable
    | PayloadServesGuest
    | DeclaredFilesMatch
    | ShuttingDown
    | DependenciesPresent
    | HasPackageManager
    | KernelSignsModules
    | KeyPairComplete
    | CertificateUsable
    | VersionInstalled(version: string)
    | HasInitramfsBuilder
    | ModuleListed
    | DevicePresent
    | ServicesVerified
    | PayloadCarriesServices
    | ServicesNeedInstall

  datatype Event =
    | Ran(command: Command, ok: bool)
    | Asked(question: Question, yes: bool)
    | SawLoaded(loaded: Option<string>)
    | SawPayload(carried: string)
    | SawVersions(listed: seq<string>)

  datatype World = World(
    succeeds: (Command, seq<Event>) -> bool,
    answers: (Question, seq<Event>) -> bool,
    loaded: seq<Event> -> Option<string>,
    carried: seq<Event> -> string,
    listed: seq<Event> -> seq<string>)

  datatype Outcome = Updated | RolledBack | UpdateFailed | RebootRequired

  datatype InstalledVersions = InstalledVersions(versions: seq<string>, loaded: Option<string>)

  predicate TrueAfter(world: World, past: seq<Event>, event: Event) {
    match event
    case Ran(command, ok) => ok == world.succeeds(command, past)
    case Asked(question, yes) => yes == world.answers(question, past)
    case SawLoaded(loaded) => loaded == world.loaded(past)
    case SawPayload(carried) => carried == world.carried(past)
    case SawVersions(listed) => listed == world.listed(past)
  }

  /** The log says what the world answered at each moment, and nothing else. */
  ghost predicate Honest(world: World, log: seq<Event>) {
    forall k :: 0 <= k < |log| ==> HonestAt(world, log, k)
  }

  predicate HonestAt(world: World, log: seq<Event>, k: nat)
    requires k < |log|
  {
    TrueAfter(world, log[..k], log[k])
  }

  lemma HonestAppend(world: World, log: seq<Event>, event: Event)
    requires Honest(world, log) && TrueAfter(world, log, event)
    ensures Honest(world, log + [event])
  {
    var after := log + [event];
    forall k | 0 <= k < |after| ensures HonestAt(world, after, k) {
      if k < |log| {
        assert HonestAt(world, log, k) && after[..k] == log[..k];
      } else {
        assert after[..k] == log;
      }
    }
  }

  /* What a log says of the module and its device. */

  /** The version last found loaded, unless the module was unloaded or found missing since. A failed attempt to unload
      it, the removal of a version from DKMS and the loading of a module ends nothing here. */
  function LoadedNow(log: seq<Event>): Option<string> {
    if log == [] then None
    else
      match log[|log| - 1]
      case SawLoaded(loaded) => loaded
      case Asked(ModuleListed, false) => None
      case Ran(UnloadModule, true) => None
      case _ => LoadedNow(log[..|log| - 1])
  }

  /** Whether the device was last found present, and the module not unloaded since. */
  function DeviceNow(log: seq<Event>): bool {
    if log == [] then false
    else
      match log[|log| - 1]
      case Asked(DevicePresent, yes) => yes
      case Ran(UnloadModule, true) => false
      case _ => DeviceNow(log[..|log| - 1])
  }

  /** Some version was left loaded on its device, as far as the log shows. */
  predicate LeftRunning(log: seq<Event>) {
    LoadedNow(log).Some? && DeviceNow(log)
  }

  predicate EndsLoaded(event: Event) {
    event.SawLoaded? || event == Asked(ModuleListed, false) || event == Ran(UnloadModule, true)
  }

  predicate EndsDevice(event: Event) {
    (event.Asked? && event.question.DevicePresent?) || event == Ran(UnloadModule, true)
  }

  /** A version is loaded now when a look found it and nothing since found otherwise or unloaded it. */
  lemma {:induction false} LoadedNowMeans(log: seq<Event>, version: string)
    ensures LoadedNow(log) == Some(version) <==>
              exists k :: 0 <= k < |log| && log[k] == SawLoaded(Some(version))
                          && forall j :: k < j < |log| ==> !EndsLoaded(log[j])
  {
    if log != [] {
      var front, last := log[..|log| - 1], log[|log| - 1];
      LoadedNowMeans(front, version);
      assert forall k :: 0 <= k < |front| ==> front[k] == log[k];
      if LoadedNow(log) == Some(version) {
        if last.SawLoaded? {
          assert log[|log| - 1] == SawLoaded(Some(version));
        } else {
          var k :| 0 <= k < |front| && front[k] == SawLoaded(Some(version))
                   && forall j :: k < j < |front| ==> !EndsLoaded(front[j]);
          assert log[k] == SawLoaded(Some(version)) && forall j :: k < j < |log| ==> !EndsLoaded(log[j]);
        }
      }
    }
  }

  lemma {:induction false} DeviceNowMeans(log: seq<Event>)
    ensures DeviceNow(log) <==>
              exists k :: 0 <= k < |log| && log[k] == Asked(DevicePresent, true)
                          && forall j :: k < j < |log| ==> !EndsDevice(log[j])
  {
    if log != [] {
      var front, last := log[..|log| - 1], log[|log| - 1];
      DeviceNowMeans(front);
      assert forall k :: 0 <= k < |front| ==> front[k] == log[k];
      if DeviceNow(log) {
        if EndsDevice(last) {
          assert log[|log| - 1] == Asked(DevicePresent, true);
        } else {
          var k :| 0 <= k < |front| && front[k] == Asked(DevicePresent, true)
                   && forall j :: k < j < |front| ==> !EndsDevice(front[j]);
          assert log[k] == Asked(DevicePresent, true) && forall j :: k < j < |log| ==> !EndsDevice(log[j]);
        }
      }
    }
  }

  /** One more event, and what it says of both. */
  lemma StateAppend(log: seq<Event>, event: Event)
    ensures LoadedNow(log + [event]) ==
            if event.SawLoaded? then event.loaded else if EndsLoaded(event) then None else LoadedNow(log)
    ensures DeviceNow(log + [event]) ==
            if EndsDevice(event) then event == Asked(DevicePresent, true) else DeviceNow(log)
    ensures WouldNotUnload(log + [event]) ==
            if event.Ran? && event.command.UnloadModule? then !event.ok && EndsPastTheDevice(log)
            else WouldNotUnload(log)
  {
    assert (log + [event])[..|log|] == log;
  }

  /** What may change which module is loaded or installed. */
  predicate Disturbs(event: Event) {
    event.Ran? && (event.command.UnloadModule? || event.command.LoadModule? || event.command.DkmsRemove?)
  }

  ghost predicate Undisturbed(log: seq<Event>, from: nat) {
    forall k :: from <= k < |log| ==> !Disturbs(log[k])
  }

  ghost predicate OnlyLooked(log: seq<Event>, from: nat) {
    forall k :: from <= k < |log| ==> !log[k].Ran?
  }

  /** Nothing is removed from DKMS but `version`. */
  ghost predicate RemovesOnly(log: seq<Event>, version: string) {
    forall k :: 0 <= k < |log| && log[k].Ran? && log[k].command.DkmsRemove? ==> log[k].command.version == version
  }

  predicate RemovesNothing(log: seq<Event>) {
    forall k :: 0 <= k < |log| && log[k].Ran? ==> !log[k].command.DkmsRemove?
  }

  /** The log ends with `version` seen loaded and its device seen present, undisturbed since. */
  ghost predicate SeenRunning(log: seq<Event>, version: string) {
    exists device, driver ::
      && 0 <= device < |log| && 0 <= driver < |log|
      && log[device] == Asked(DevicePresent, true) && log[driver] == SawLoaded(Some(version))
      && Undisturbed(log, device) && Undisturbed(log, driver)
  }

  /** The module refused to go and is still there: nothing was loaded or unloaded after that. */
  ghost predicate SeenInUse(log: seq<Event>) {
    exists k :: 0 <= k < |log| - 1 && log[k] == Ran(UnloadModule, false) && log[k + 1] == Asked(ModuleListed, true)
                && Undisturbed(log, k + 1)
  }

  /** DKMS said the version was installed for this kernel, or installing it succeeded. */
  ghost predicate SeenInstalled(log: seq<Event>, version: string) {
    exists k :: 0 <= k < |log| &&
                (log[k] == Asked(VersionInstalled(version), true) || log[k] == Ran(DkmsInstall(version), true))
  }

  ghost predicate SeenRemoved(log: seq<Event>, version: string) {
    exists k :: 0 <= k < |log| && log[k].Ran? && log[k].command == DkmsRemove(version)
  }

  ghost predicate EndsWith(log: seq<Event>, event: Event) {
    log != [] && log[|log| - 1] == event
  }

  /** The last thing seen is a version that does not verify: another than the target, or the target without its
      services. */
  ghost predicate EndsUnverified(log: seq<Event>) {
    EndsWith(log, Asked(ServicesVerified, false)) || exists version :: EndsWith(log, SawLoaded(Some(version)))
  }

  /** The last thing done is putting the services in place, and it failed. */
  ghost predicate EndsWithoutServices(log: seq<Event>) {
    || EndsWith(log, Ran(EnsureServiceUser, false))
    || EndsWith(log, Ran(InstallServices, false))
    || EndsWith(log, Ran(StartServices, false))
  }

  /** A version was found loaded, and the last answer is that its device is not there or that the guest is
      going down. */
  ghost predicate EndsNextToLoaded(log: seq<Event>) {
    && |log| >= 2 && log[|log| - 2].SawLoaded? && log[|log| - 2].loaded.Some?
    && (EndsWith(log, Asked(DevicePresent, false)) || EndsWith(log, Asked(ShuttingDown, true)))
  }

  /** The last attempt to unload the module came right after a verification that had found the device, and failed. */
  ghost predicate WouldNotUnload(log: seq<Event>) {
    && log != []
    && var front, last := log[..|log| - 1], log[|log| - 1];
    if last.Ran? && last.command.UnloadModule? then !last.ok && EndsPastTheDevice(front) else WouldNotUnload(front)
  }

  /** A verification that found the device got this far and no farther. */
  ghost predicate EndsPastTheDevice(log: seq<Event>) {
    EndsWith(log, Asked(ServicesVerified, false)) || exists loaded :: EndsWith(log, SawLoaded(loaded))
  }

  ghost predicate NoDeviceSeen(log: seq<Event>, from: nat) {
    forall k :: from <= k < |log| ==> log[k] != Asked(DevicePresent, true)
  }

  predicate IsService(command: Command) {
    command.EnsureServiceUser? || command.InstallServices? || command.StartServices?
  }

  const NEEDED := {GuestFactsReadable, PayloadReadable, PayloadServesGuest, DeclaredFilesMatch, DependenciesPresent,
                   DevicePresent}

  ghost predicate Ready(world: World, target: string) {
    && (forall question, past :: question in NEEDED ==> world.answers(question, past))
    && forall past :: world.carried(past) == target
  }

  /** A world in which an attempt gets as far as asking about the services: what it needs is there, its
      programs succeed, and once a module was loaded it is the target, on its device. */
  ghost predicate Reaches(world: World, target: string) {
    && Ready(world, target)
    && (forall command, past :: Installs(command) || command.LoadModule? ==> world.succeeds(command, past))
    && (forall past :: !Tried(past) ==> world.succeeds(UnloadModule, past))
    && forall past :: IsFresh(past) && Ran(LoadModule, true) in past ==> world.loaded(past) == Some(target)
  }

  /** Once a version was removed and the module loaded again, it is this version that is found, on its device. */
  ghost predicate ComesBack(world: World, removed: string, version: string) {
    forall past :: Reloaded(past, removed) ==>
      world.answers(ModuleListed, past) && world.answers(DevicePresent, past) && world.loaded(past) == Some(version)
  }

  /** A world that puts nothing in an update's way. */
  ghost predicate Willing(world: World, target: string) {
    && Reaches(world, target)
    && (forall past :: world.answers(ServicesVerified, past) && !world.answers(ShuttingDown, past))
    && forall command, past :: world.succeeds(command, past)
  }

  predicate Installs(command: Command) {
    command.CopySources? || command.DkmsBuild? || command.DkmsInstall? || command.RebuildInitramfs?
  }

  /** No version was found wanting yet, and none was removed. */
  predicate IsFresh(past: seq<Event>) {
    !Tried(past) && RemovesNothing(past)
  }

  predicate Tried(past: seq<Event>) {
    Asked(ServicesVerified, false) in past
  }

  /** The module was loaded again after a version was removed. */
  predicate Reloaded(log: seq<Event>, removed: string) {
    exists i, j :: 0 <= i < j < |log| && WasRun(log[i], DkmsRemove(removed)) && WasRun(log[j], LoadModule)
  }

  predicate WasRun(event: Event, command: Command) {
    event.Ran? && event.command == command
  }

  /** What neither changes the module or its device nor looks at them. */
  predicate Preparatory(event: Event) {
    match event
    case Ran(command, _) =>
      !command.UnloadModule? && !command.LoadModule? && !command.DkmsRemove? && !IsService(command)
    case Asked(question, _) =>
      !question.ModuleListed? && !question.DevicePresent? && !question.ServicesVerified? && !question.ShuttingDown?
    case SawLoaded(_) => false
    case _ => true
  }

  ghost predicate Prepares(log: seq<Event>, after: seq<Event>) {
    log < after && forall k :: |log| <= k < |after| ==> Preparatory(after[k])
  }

  /** Such events leave what a log says of the module and its device as it was. */
  lemma {:induction false} PreparingKeeps(log: seq<Event>, after: seq<Event>)
    requires log <= after && forall k :: |log| <= k < |after| ==> Preparatory(after[k])
    ensures LoadedNow(after) == LoadedNow(log) && DeviceNow(after) == DeviceNow(log)
    ensures WouldNotUnload(after) == WouldNotUnload(log)
    ensures Tried(after) == Tried(log) && (Ran(LoadModule, true) in after <==> Ran(LoadModule, true) in log)
    ensures Undisturbed(after, |log|)
  {
    if |log| < |after| {
      var front := after[..|after| - 1];
      assert after == front + [after[|after| - 1]];
      PreparingKeeps(log, front);
    } else {
      assert log == after;
    }
  }
}
