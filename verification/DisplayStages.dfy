/** What each stage of an update leaves in the log, stage by stage, and which programs that comes to.

    A stage's part of the log is told event by event, with whatever the world answered; the whole of an update
    is its stages' parts one after the other. Which programs an update runs, and in which order, follows.
 */
module DisplayStages {
  import opened Outcomes
  import opened DisplayLog

  /* Which programs were run. */

  function ProgramOf(event: Event): seq<Command> {
    if event.Ran? then [event.command] else []
  }

  /** The programs run, in order. */
  function Programs(log: seq<Event>): seq<Command> {
    if log == [] then [] else Programs(log[..|log| - 1]) + ProgramOf(log[|log| - 1])
  }

  lemma ProgramsAppend(log: seq<Event>, event: Event)
    ensures Programs(log + [event]) == Programs(log) + ProgramOf(event)
  {
    assert (log + [event])[..|log|] == log;
  }

  lemma {:induction false} ProgramsConcat(log: seq<Event>, more: seq<Event>)
    ensures Programs(log + more) == Programs(log) + Programs(more)
  {
    if more == [] {
      assert log + more == log;
    } else {
      var front, last := more[..|more| - 1], more[|more| - 1];
      ProgramsConcat(log, front);
      Further(log, front, [last]);
      assert more == front + [last];
      ProgramsAppend(log + front, last);
      ProgramsAppend(front, last);
      FurtherPrograms(Programs(log), Programs(front), ProgramOf(last));
    }
  }

  lemma FurtherPrograms(early: seq<Command>, middle: seq<Command>, late: seq<Command>)
    ensures early + middle + late == early + (middle + late)
  {
  }

  lemma {:induction false} NoPrograms(log: seq<Event>)
    requires OnlyLooked(log, 0)
    ensures Programs(log) == []
  {
    if log != [] {
      NoPrograms(log[..|log| - 1]);
    }
  }

  /** The programs of a few events. */
  lemma ProgramsOf(a: Event, b: Event, c: Event, d: Event)
    ensures Programs([a]) == ProgramOf(a)
    ensures Programs([a, b]) == ProgramOf(a) + ProgramOf(b)
    ensures Programs([a, b, c]) == ProgramOf(a) + ProgramOf(b) + ProgramOf(c)
    ensures Programs([a, b, c, d]) == ProgramOf(a) + ProgramOf(b) + ProgramOf(c) + ProgramOf(d)
  {
    ProgramsAppend([], a);
    assert [] + [a] == [a] && [a] + [b] == [a, b] && [a, b] + [c] == [a, b, c] && [a, b, c] + [d] == [a, b, c, d];
    ProgramsAppend([a], b);
    ProgramsAppend([a, b], c);
    ProgramsAppend([a, b, c], d);
  }

  /** What may be run before the sources of a version are staged. */
  predicate IsPreliminary(command: Command) {
    command.InstallPackages? || command.CreateSigningKey? || command.DkmsBuild? || command.DkmsInstall?
  }

  ghost predicate AllPreliminary(programs: seq<Command>) {
    forall command :: command in programs ==> IsPreliminary(command)
  }

  function InitramfsPrograms(builder: bool): seq<Command> {
    if builder then [RebuildInitramfs] else []
  }

  function BuildPrograms(version: string, installed: bool): seq<Command> {
    if installed then [] else [DkmsAdd(version), DkmsBuild(version), DkmsInstall(version)]
  }

  /** The programs that install a version: its sources are staged, it is built unless DKMS has it installed already, and
      the boot image is made anew where the guest can. */
  ghost predicate InstallsIn(programs: seq<Command>, version: string, installed: bool, builder: bool) {
    exists preliminary ::
      && AllPreliminary(preliminary)
      && programs == preliminary + [CopySources] + BuildPrograms(version, installed) + InitramfsPrograms(builder)
  }

  /** Installing stopped at the first thing it could not do without. */
  ghost predicate StoppedInstalling(log: seq<Event>, version: string) {
    || EndsWith(log, Asked(DependenciesPresent, false)) || EndsWith(log, Asked(HasPackageManager, false))
    || EndsWith(log, Ran(InstallPackages, false)) || EndsWith(log, Ran(CopySources, false))
    || EndsWith(log, Ran(DkmsBuild(version), false)) || EndsWith(log, Ran(DkmsInstall(version), false))
    || EndsWith(log, Ran(RebuildInitramfs, false))
  }

  /** A rollback's programs: the attempted version is unloaded and removed, and what is then installed is loaded. */
  function RollbackPrograms(attempted: string, builder: bool): seq<Command> {
    [UnloadModule, DkmsRemove(attempted), LoadModule] + InitramfsPrograms(builder)
  }

  lemma Further(log: seq<Event>, mine: seq<Event>, more: seq<Event>)
    ensures log + mine + more == log + (mine + more)
  {
  }

  /* Before anything is run. */

  /** The guest and the payload are as they have to be. The payload is the target's. */
  ghost predicate PayloadIn(mine: seq<Event>, target: string, ok: bool) {
    || (!ok && mine == [Asked(PayloadReadable, false)])
    || exists carried ::
         || (!ok && mine == [Asked(PayloadReadable, true), SawPayload(carried), Asked(PayloadServesGuest, false)])
         || (!ok && carried != target &&
             mine == [Asked(PayloadReadable, true), SawPayload(carried), Asked(PayloadServesGuest, true)])
         || (carried == target &&
             mine == [Asked(PayloadReadable, true), SawPayload(carried), Asked(PayloadServesGuest, true),
                      Asked(DeclaredFilesMatch, ok)])
  }

  /** What is installed and loaded. */
  ghost predicate VersionsIn(mine: seq<Event>, found: InstalledVersions) {
    if mine == [SawVersions(found.versions), Asked(ModuleListed, false)] then found.loaded.None?
    else mine == [SawVersions(found.versions), Asked(ModuleListed, true), SawLoaded(found.loaded)]
  }

  /** The update starts exactly when all of this is as it should be and the guest is not going down. */
  ghost predicate PrepareIn(mine: seq<Event>, target: string, builder: bool, before: Option<InstalledVersions>) {
    || (before.None? && mine == [Asked(GuestFactsReadable, false)])
    || (before.None? && exists payload :: RefusedFrom(mine, target, builder, payload))
    || exists payload, versions, found :: LooksFrom(mine, target, builder, before, payload, versions, found)
  }

  ghost predicate RefusedFrom(mine: seq<Event>, target: string, builder: bool, payload: seq<Event>) {
    PayloadIn(payload, target, false) && mine == FactEvents(builder) + payload
  }

  function FactEvents(builder: bool): seq<Event> {
    [Asked(GuestFactsReadable, true), Asked(HasInitramfsBuilder, builder)]
  }

  ghost predicate LooksFrom(mine: seq<Event>, target: string, builder: bool, before: Option<InstalledVersions>,
                            payload: seq<Event>, versions: seq<Event>, found: InstalledVersions) {
    && PayloadIn(payload, target, true) && VersionsIn(versions, found)
    && (before.Some? ==> before == Some(found))
    && mine == FactEvents(builder) + payload + versions + [Asked(ShuttingDown, before.None?)]
  }

  /* Installing. */

  /** What is needed to build is there, or is installed and then there. */
  ghost predicate DependenciesIn(mine: seq<Event>, ok: bool) {
    || (ok && mine == [Asked(DependenciesPresent, true)])
    || (!ok && mine == [Asked(DependenciesPresent, false), Asked(HasPackageManager, false)])
    || (!ok && mine == [Asked(DependenciesPresent, false), Asked(HasPackageManager, true), Ran(InstallPackages, false)])
    || mine == [Asked(DependenciesPresent, false), Asked(HasPackageManager, true), Ran(InstallPackages, true),
                Asked(DependenciesPresent, ok)]
  }

  /** There is a pair to sign with, or one is made. */
  predicate PairIn(mine: seq<Event>, made: bool) {
    mine == if made then [Asked(KernelSignsModules, true), Asked(KeyPairComplete, false), Ran(CreateSigningKey, true)]
            else [Asked(KernelSignsModules, true), Asked(KeyPairComplete, true)]
  }

  /** Versions built again, each installed when its build went well. */
  function RebuildEvents(versions: seq<string>, builds: seq<bool>, installs: seq<bool>): seq<Event>
    requires |builds| == |installs| <= |versions|
  {
    if builds == [] then []
    else
      var n := |builds| - 1;
      RebuildEvents(versions, builds[..n], installs[..n]) + [Ran(DkmsBuild(versions[n]), builds[n])] +
      if builds[n] then [Ran(DkmsInstall(versions[n]), installs[n])] else []
  }

  lemma OneMoreRebuild(mine: seq<Event>, versions: seq<string>, builds: seq<bool>, installs: seq<bool>, built: bool,
                       installed: bool)
    requires RebuildsOf(mine, versions, builds, installs) && |builds| < |versions|
    ensures var n := |builds|;
            var more := [Ran(DkmsBuild(versions[n]), built)] +
                        if built then [Ran(DkmsInstall(versions[n]), installed)] else [];
            RebuildsOf(mine + more, versions, builds + [built], installs + [installed])
  {
    var n := |builds|;
    assert (builds + [built])[..n] == builds && (installs + [installed])[..n] == installs;
  }

  /** The versions listed are built again, in order, until a build fails. */
  ghost predicate RebuildsIn(mine: seq<Event>, builds: seq<bool>) {
    exists versions, installs: seq<bool> :: RebuildsOf(mine, versions, builds, installs) && IsAsFar(versions, builds)
  }

  ghost predicate RebuildsOf(mine: seq<Event>, versions: seq<string>, builds: seq<bool>, installs: seq<bool>) {
    |builds| == |installs| <= |versions| && mine == [SawVersions(versions)] + RebuildEvents(versions, builds, installs)
  }

  /** Every version was built, or the last build failed and only that. */
  predicate IsAsFar(versions: seq<string>, builds: seq<bool>) {
    && (forall i :: 0 <= i < |builds| - 1 ==> builds[i])
    && (|builds| < |versions| ==> builds != [] && !builds[|builds| - 1])
  }

  /** The signing key's stage: what is listed is built again exactly when the pair had to be made, and is usable. */
  ghost predicate SigningIn(mine: seq<Event>, rebuilds: Option<seq<bool>>) {
    || (rebuilds.None? && mine == [Asked(KernelSignsModules, false)])
    || (rebuilds.None? &&
        mine == [Asked(KernelSignsModules, true), Asked(KeyPairComplete, false), Ran(CreateSigningKey, false)])
    || exists pair, made, more :: SigningFrom(mine, rebuilds, pair, made, more)
  }

  ghost predicate SigningFrom(mine: seq<Event>, rebuilds: Option<seq<bool>>, pair: seq<Event>, made: bool,
                              more: seq<Event>) {
    && PairIn(pair, made)
    && mine == pair + [Asked(CertificateUsable, rebuilds.Some?)] + more
    && if rebuilds.Some? && made then RebuildsIn(more, rebuilds.value)
       else more == [] && rebuilds in {None, Some([])}
  }

  /** The version is built and installed, unless DKMS has it installed already. */
  ghost predicate BuildIn(mine: seq<Event>, version: string, installed: bool, ok: bool) {
    if installed then ok && mine == [Asked(VersionInstalled(version), true)]
    else
      exists added ::
        || (!ok && mine == [Asked(VersionInstalled(version), false), Ran(DkmsAdd(version), added),
                            Ran(DkmsBuild(version), false)])
        || mine == [Asked(VersionInstalled(version), false), Ran(DkmsAdd(version), added),
                    Ran(DkmsBuild(version), true),
                    Ran(DkmsInstall(version), ok)]
  }

  predicate InitramfsIn(mine: seq<Event>, builder: bool, ok: bool) {
    if builder then mine == [Ran(RebuildInitramfs, ok)] else ok && mine == []
  }

  /** The sources are staged, the version is built and the boot image is made anew. */
  ghost predicate StagedIn(mine: seq<Event>, target: string, installed: bool, builder: bool, ok: bool) {
    || (!ok && mine == [Ran(CopySources, false)])
    || exists build, built, image :: StagedFrom(mine, target, installed, builder, ok, build, built, image)
  }

  ghost predicate StagedFrom(mine: seq<Event>, target: string, installed: bool, builder: bool, ok: bool,
                             build: seq<Event>, built: bool, image: seq<Event>) {
    && BuildIn(build, target, installed, built)
    && (if built then InitramfsIn(image, builder, ok) else !ok && image == [])
    && mine == [Ran(CopySources, true)] + build + image
  }

  /** Everything up to the moment the module is to be swapped. */
  ghost predicate InstallIn(mine: seq<Event>, target: string, installed: bool, builder: bool, ok: bool) {
    || (!ok && DependenciesIn(mine, false))
    || exists needed, signing, rebuilds, staged ::
         && DependenciesIn(needed, true) && SigningIn(signing, rebuilds)
         && StagedIn(staged, target, installed, builder, ok)
         && mine == needed + signing + staged
  }

  /* Swapping. */

  datatype Attempt = Succeeded | AttemptFailed | MustReboot

  /** The target is looked for on a device that is there, with its services. */
  ghost predicate VerifyIn(mine: seq<Event>, target: string, ok: bool) {
    || (!ok && mine == [Asked(DevicePresent, false)])
    || exists settled, loaded ::
         || (!ok && loaded != Some(target) &&
             mine == [Asked(DevicePresent, true), Ran(SettleDesktop, settled), SawLoaded(loaded)])
         || (loaded == Some(target) &&
             mine == [Asked(DevicePresent, true), Ran(SettleDesktop, settled), SawLoaded(loaded),
                      Asked(ServicesVerified, ok)])
  }

  /** The old module is unloaded and the new one loaded, unless the old one is in use; then it is verified. */
  ghost predicate SwapIn(mine: seq<Event>, target: string, attempt: Attempt) {
    || (attempt == MustReboot && mine == [Ran(UnloadModule, false), Asked(ModuleListed, true)])
    || exists gone, listed :: (gone || !listed) && LoadsIn(mine, target, attempt, gone, listed)
  }

  ghost predicate LoadsIn(mine: seq<Event>, target: string, attempt: Attempt, gone: bool, listed: bool) {
    var unloaded := [Ran(UnloadModule, gone), Asked(ModuleListed, listed)];
    || (attempt == AttemptFailed && mine == unloaded + [Ran(LoadModule, false)])
    || exists look ::
         && attempt != MustReboot && VerifyIn(look, target, attempt == Succeeded)
         && mine == unloaded + [Ran(LoadModule, true)] + look
  }

  ghost predicate TryIn(mine: seq<Event>, target: string, builder: bool, attempt: Attempt) {
    || (attempt == AttemptFailed && exists installed :: InstallIn(mine, target, installed, builder, false))
    || exists install, installed, swap ::
         && InstallIn(install, target, installed, builder, true) && SwapIn(swap, target, attempt)
         && mine == install + swap
  }

  /** The services the payload carries are put in place, where it carries any. */
  ghost predicate ServicesIn(mine: seq<Event>, ok: bool) {
    || (ok && mine == [Asked(PayloadCarriesServices, false)])
    || (!ok && mine == [Asked(PayloadCarriesServices, true), Ran(EnsureServiceUser, false)])
    || mine == [Asked(PayloadCarriesServices, true), Ran(EnsureServiceUser, true), Asked(ServicesNeedInstall, false),
                Ran(StartServices, ok)]
    || (!ok && mine == [Asked(PayloadCarriesServices, true), Ran(EnsureServiceUser, true),
                        Asked(ServicesNeedInstall, true), Ran(InstallServices, false)])
    || mine == [Asked(PayloadCarriesServices, true), Ran(EnsureServiceUser, true), Asked(ServicesNeedInstall, true),
                Ran(InstallServices, true), Ran(StartServices, ok)]
  }

  /* Rolling back. */

  /** The version wanted back is looked for, and then its device. */
  ghost predicate RestoredIn(mine: seq<Event>, previous: string, restored: bool) {
    || (!restored && mine == [Asked(ModuleListed, false)])
    || exists loaded ::
         || (!restored && loaded != Some(previous) && mine == [Asked(ModuleListed, true), SawLoaded(loaded)])
         || (loaded == Some(previous) &&
             mine == [Asked(ModuleListed, true), SawLoaded(loaded), Asked(DevicePresent, restored)])
  }

  /** The attempted version is unloaded and removed, what is then installed is loaded, the boot image is made anew, and
      the version wanted back is looked for. */
  ghost predicate RollbackIn(mine: seq<Event>, previous: string, attempted: string, builder: bool, gone: bool,
                             restored: bool) {
    exists removed, loaded, image, made, look ::
      && InitramfsIn(image, builder, made) && RestoredIn(look, previous, restored)
      && mine == SwapBackEvents(attempted, gone, removed, loaded) + image + look
  }

  ghost predicate RollsBackIn(mine: seq<Event>, previous: string, attempted: string, builder: bool, restored: bool) {
    exists gone :: RollbackIn(mine, previous, attempted, builder, gone, restored)
  }

  function SwapBackEvents(attempted: string, gone: bool, removed: bool, loaded: bool): seq<Event> {
    [Ran(UnloadModule, gone), Ran(DkmsRemove(attempted), removed), Ran(LoadModule, loaded)]
  }

  /* A whole update. */

  /** The attempt and what follows it: services after one that verified, nothing after one that needs a reboot, and a
      rollback after one that failed, when there is a version to return to. */
  ghost predicate AttemptIn(mine: seq<Event>, previous: Option<string>, target: string, builder: bool, outcome: Outcome,
                            verified: bool) {
    exists tried, attempt, rest ::
      && TryIn(tried, target, builder, attempt) && mine == tried + rest
      && match attempt
         case Succeeded =>
           verified && outcome in {Updated, UpdateFailed} && ServicesIn(rest, outcome == Updated)
         case MustReboot => !verified && outcome == RebootRequired && rest == []
         case AttemptFailed =>
           && !verified && outcome in {RolledBack, UpdateFailed}
           && if previous.None? then outcome == UpdateFailed && rest == []
              else RollsBackIn(rest, previous.value, target, builder, outcome == RolledBack)
  }
}
