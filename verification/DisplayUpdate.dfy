/** Moving the guest to another version of its display payload, and back when that does not verify.

    Every program run and every fact looked at goes into a log, and outcomes are judged against it.
 */
module DisplayUpdate {
  import opened Outcomes
  import opened DisplayLog
  import opened DisplayStages
  import opened DisplayMeaning
  import StageReport

  /* Small decisions. */

  /** The first version that is not the current one. */
  function Previous(versions: seq<string>, current: string): Option<string> {
    if versions == [] then None
    else if versions[0] != current then Some(versions[0])
    else Previous(versions[1..], current)
  }

  /** What a rollback of `attempted` returns to. */
  function RollbackTarget(before: InstalledVersions, attempted: string): Option<string> {
    if before.loaded.Some? then before.loaded else Previous(before.versions, attempted)
  }

  /** The previous version is the first listed that is not the current one, if any is not. */
  lemma {:induction false} PreviousIsAnother(versions: seq<string>, current: string)
    ensures Previous(versions, current).None? <==> forall i :: 0 <= i < |versions| ==> versions[i] == current
    ensures Previous(versions, current).Some? ==>
              exists i :: 0 <= i < |versions| && versions[i] == Previous(versions, current).value != current
                          && forall j :: 0 <= j < i ==> versions[j] == current
  {
    if versions != [] && versions[0] == current {
      var rest := versions[1..];
      PreviousIsAnother(rest, current);
      if Previous(rest, current).Some? {
        var i :| 0 <= i < |rest| && rest[i] == Previous(rest, current).value != current
                 && forall j :: 0 <= j < i ==> rest[j] == current;
        assert versions[i + 1] == rest[i];
        assert forall j :: 1 <= j < i + 1 ==> versions[j] == rest[j - 1];
      } else {
        assert forall j :: 1 <= j < |versions| ==> versions[j] == rest[j - 1];
      }
    }
  }

  /** A rollback returns to the very version it removes exactly when that version was loaded to begin with. */
  lemma RollbackToTheAttempted(before: InstalledVersions, attempted: string)
    ensures RollbackTarget(before, attempted) == Some(attempted) <==> before.loaded == Some(attempted)
    ensures RollbackTarget(before, attempted).None? <==>
              before.loaded.None? && forall i :: 0 <= i < |before.versions| ==> before.versions[i] == attempted
  {
    PreviousIsAnother(before.versions, attempted);
  }

  /* One program, one look. */

  method Run(world: World, log: seq<Event>, command: Command) returns (after: seq<Event>, ok: bool)
    requires Honest(world, log)
    ensures Honest(world, after) && after == log + [Ran(command, ok)]
    ensures ok == world.succeeds(command, log)
  {
    ok := world.succeeds(command, log);
    HonestAppend(world, log, Ran(command, ok));
    after := log + [Ran(command, ok)];
  }

  method Ask(world: World, log: seq<Event>, question: Question) returns (after: seq<Event>, yes: bool)
    requires Honest(world, log)
    ensures Honest(world, after) && after == log + [Asked(question, yes)]
    ensures yes == world.answers(question, log)
  {
    yes := world.answers(question, log);
    HonestAppend(world, log, Asked(question, yes));
    after := log + [Asked(question, yes)];
  }

  method LoadedVersion(world: World, log: seq<Event>) returns (after: seq<Event>, loaded: Option<string>)
    requires Honest(world, log)
    ensures Honest(world, after) && after == log + [SawLoaded(loaded)]
    ensures loaded == world.loaded(log)
  {
    loaded := world.loaded(log);
    HonestAppend(world, log, SawLoaded(loaded));
    after := log + [SawLoaded(loaded)];
  }

  method ListedVersions(world: World, log: seq<Event>) returns (after: seq<Event>, versions: seq<string>)
    requires Honest(world, log)
    ensures Honest(world, after) && after == log + [SawVersions(versions)]
    ensures versions == world.listed(log)
  {
    versions := world.listed(log);
    HonestAppend(world, log, SawVersions(versions));
    after := log + [SawVersions(versions)];
  }

  /** What is installed and loaded, as the world said it was after `past`. */
  ghost predicate FoundAfter(world: World, found: InstalledVersions, past: seq<Event>) {
    var listing := past + [SawVersions(found.versions)];
    && found.versions == world.listed(past)
    && found.loaded == if world.answers(ModuleListed, listing) then world.loaded(listing + [Asked(ModuleListed, true)])
                       else None
  }

  method CarriedVersion(world: World, log: seq<Event>) returns (after: seq<Event>, carried: string)
    requires Honest(world, log)
    ensures Honest(world, after) && after == log + [SawPayload(carried)]
    ensures carried == world.carried(log)
  {
    carried := world.carried(log);
    HonestAppend(world, log, SawPayload(carried));
    after := log + [SawPayload(carried)];
  }

  method ReadInstalledVersions(world: World, log: seq<Event>)
    returns (after: seq<Event>, installed: InstalledVersions, ghost mine: seq<Event>)
    requires Honest(world, log)
    ensures Honest(world, after) && after == log + mine && VersionsIn(mine, installed)
    ensures FoundAfter(world, installed, log)
  {
    var versions, listed;
    after, versions := ListedVersions(world, log);
    after, listed := Ask(world, after, ModuleListed);
    mine := [SawVersions(versions), Asked(ModuleListed, listed)];
    assert after == log + mine;
    var loaded := None;
    if listed {
      after, loaded := LoadedVersion(world, after);
      Further(log, mine, [SawLoaded(loaded)]);
      mine := [SawVersions(versions), Asked(ModuleListed, true), SawLoaded(loaded)];
    }
    installed := InstalledVersions(versions, loaded);
  }

  /* The stages. */

  /** Checks the mounted payload; it is the target's or the update does not start. */
  method PayloadStage(world: World, log: seq<Event>, target: string)
    returns (after: seq<Event>, ok: bool, ghost mine: seq<Event>)
    requires Honest(world, log)
    ensures Honest(world, after) && after == log + mine && PayloadIn(mine, target, ok)
    ensures Ready(world, target) ==> ok
  {
    after, ok := Ask(world, log, PayloadReadable);
    mine := [Asked(PayloadReadable, ok)];
    if !ok {
      return;
    }
    var carried;
    after, carried := CarriedVersion(world, after);
    after, ok := Ask(world, after, PayloadServesGuest);
    mine := [Asked(PayloadReadable, true), SawPayload(carried), Asked(PayloadServesGuest, ok)];
    assert after == log + mine;
    if !ok {
      return;
    }
    if carried != target {
      return after, false, mine;
    }
    after, ok := Ask(world, after, DeclaredFilesMatch);
    Further(log, mine, [Asked(DeclaredFilesMatch, ok)]);
    mine := [Asked(PayloadReadable, true), SawPayload(carried), Asked(PayloadServesGuest, true),
             Asked(DeclaredFilesMatch, ok)];
  }

  method DependenciesStage(world: World, log: seq<Event>) returns (after: seq<Event>, ok: bool, ghost mine: seq<Event>)
    requires Honest(world, log)
    ensures Honest(world, after) && after == log + mine && DependenciesIn(mine, ok)
    ensures (forall past :: world.answers(DependenciesPresent, past)) ==> ok
  {
    after, ok := Ask(world, log, DependenciesPresent);
    mine := [Asked(DependenciesPresent, ok)];
    if ok {
      return;
    }
    after, ok := Ask(world, after, HasPackageManager);
    mine := [Asked(DependenciesPresent, false), Asked(HasPackageManager, ok)];
    assert after == log + mine;
    if !ok {
      return;
    }
    after, ok := Run(world, after, InstallPackages);
    Further(log, mine, [Ran(InstallPackages, ok)]);
    mine := [Asked(DependenciesPresent, false), Asked(HasPackageManager, true), Ran(InstallPackages, ok)];
    if ok {
      after, ok := Ask(world, after, DependenciesPresent);
      Further(log, mine, [Asked(DependenciesPresent, ok)]);
      mine := [Asked(DependenciesPresent, false), Asked(HasPackageManager, true), Ran(InstallPackages, true),
               Asked(DependenciesPresent, ok)];
    }
  }

  /** Makes sure there is a signing key; versions signed with one that was replaced are built again. `rebuilds` says
      how those builds went, when the stage got as far as to report on the key. */
  method SigningKeyStage(world: World, log: seq<Event>)
    returns (after: seq<Event>, rebuilds: Option<seq<bool>>, ghost mine: seq<Event>)
    requires Honest(world, log)
    ensures Honest(world, after) && after == log + mine && SigningIn(mine, rebuilds)
  {
    var signs, complete, usable;
    after, signs := Ask(world, log, KernelSignsModules);
    mine := [Asked(KernelSignsModules, signs)];
    if !signs {
      return after, None, mine;
    }
    after, complete := Ask(world, after, KeyPairComplete);
    mine := [Asked(KernelSignsModules, true), Asked(KeyPairComplete, complete)];
    assert after == log + mine;
    if !complete {
      var created;
      after, created := Run(world, after, CreateSigningKey);
      Further(log, mine, [Ran(CreateSigningKey, created)]);
      mine := [Asked(KernelSignsModules, true), Asked(KeyPairComplete, false), Ran(CreateSigningKey, created)];
      if !created {
        return after, None, mine;
      }
    }
    ghost var pair := mine;
    assert PairIn(pair, !complete);
    after, usable := Ask(world, after, CertificateUsable);
    Further(log, pair, [Asked(CertificateUsable, usable)]);
    mine := pair + [Asked(CertificateUsable, usable)];
    assert mine == mine + [];
    if !usable {
      assert SigningFrom(mine, None, pair, !complete, []);
      return after, None, mine;
    }
    var builds := [];
    if !complete {
      ghost var more;
      after, builds, more := ResignInstalledVersions(world, after);
      Further(log, mine, more);
      mine := mine + more;
      assert SigningFrom(mine, Some(builds), pair, true, more);
    } else {
      assert SigningFrom(mine, Some([]), pair, false, []);
    }
    rebuilds := Some(builds);
  }

  /** Builds every installed version again, until a build fails. */
  method ResignInstalledVersions(world: World, log: seq<Event>)
    returns (after: seq<Event>, builds: seq<bool>, ghost mine: seq<Event>)
    requires Honest(world, log)
    ensures Honest(world, after) && after == log + mine && RebuildsIn(mine, builds)
  {
    var versions;
    after, versions := ListedVersions(world, log);
    builds := [];
    ghost var installs: seq<bool> := [];
    mine := [SawVersions(versions)];
    assert mine == [SawVersions(versions)] + RebuildEvents(versions, builds, installs);
    for n := 0 to |versions|
      invariant Honest(world, after) && after == log + mine && |builds| == n
      invariant RebuildsOf(mine, versions, builds, installs) && forall i :: 0 <= i < n ==> builds[i]
    {
      var built, installed;
      ghost var before, earlier := mine, builds;
      after, built := Run(world, after, DkmsBuild(versions[n]));
      Further(log, before, [Ran(DkmsBuild(versions[n]), built)]);
      mine := before + [Ran(DkmsBuild(versions[n]), built)];
      builds := builds + [built];
      if !built {
        installs := installs + [false];
        OneMoreRebuild(before, versions, earlier, installs[..n], false, false);
        assert installs[..n] + [false] == installs && mine == before + ([Ran(DkmsBuild(versions[n]), false)] + []);
        assert RebuildsOf(mine, versions, builds, installs) && IsAsFar(versions, builds);
        return;
      }
      ghost var building := mine;
      after, installed := Run(world, after, DkmsInstall(versions[n]));
      Further(log, building, [Ran(DkmsInstall(versions[n]), installed)]);
      mine := building + [Ran(DkmsInstall(versions[n]), installed)];
      OneMoreRebuild(before, versions, earlier, installs, true, installed);
      Further(before, [Ran(DkmsBuild(versions[n]), true)], [Ran(DkmsInstall(versions[n]), installed)]);
      installs := installs + [installed];
    }
    assert IsAsFar(versions, builds);
  }

  /** The same stage writing into a report: what the host will read of the signing key, whatever is recorded later, is
      a failure exactly when some rebuild failed. */
  method ReportSigningKey(world: World, log: seq<Event>, report: StageReport.Report, failure: string, signed: string)
    returns (after: seq<Event>, rebuilds: Option<seq<bool>>, ghost mine: seq<Event>)
    requires Honest(world, log) && report.Valid() && report.steps == StageReport.DISPLAY_STEPS
    requires StageReport.FirstAnswer(report.history, StageReport.SIGNING_KEY).None?
    modifies report
    ensures Honest(world, after) && after == log + mine && SigningIn(mine, rebuilds) && report.Valid()
    ensures rebuilds.Some? ==> forall late, reason ::
              StageReport.Expected(report.steps, report.history + late, reason)[3] ==
              if SomeBuildFailed(mine)
              then StageReport.Stage(StageReport.SIGNING_KEY, StageReport.StageFailed, failure)
              else StageReport.Stage(StageReport.SIGNING_KEY, StageReport.StageOk, signed)
  {
    after, rebuilds, mine := SigningKeyStage(world, log);
    if rebuilds.Some? {
      SigningShows(mine, rebuilds);
      var resigned := StageReport.RecordSigningKey(report, true, rebuilds.value, failure, signed);
    }
  }

  method BuildStage(world: World, log: seq<Event>, version: string)
    returns (after: seq<Event>, ok: bool, ghost mine: seq<Event>, ghost installed: bool)
    requires Honest(world, log)
    ensures Honest(world, after) && after == log + mine && BuildIn(mine, version, installed, ok)
    ensures (forall past :: world.succeeds(DkmsBuild(version), past) && world.succeeds(DkmsInstall(version), past)) ==>
              ok
  {
    var added;
    after, ok := Ask(world, log, VersionInstalled(version));
    installed := ok;
    mine := [Asked(VersionInstalled(version), ok)];
    if ok {
      return;
    }
    after, added := Run(world, after, DkmsAdd(version));
    after, ok := Run(world, after, DkmsBuild(version));
    mine := [Asked(VersionInstalled(version), false), Ran(DkmsAdd(version), added), Ran(DkmsBuild(version), ok)];
    assert after == log + mine;
    if ok {
      after, ok := Run(world, after, DkmsInstall(version));
      Further(log, mine, [Ran(DkmsInstall(version), ok)]);
      mine := [Asked(VersionInstalled(version), false), Ran(DkmsAdd(version), added), Ran(DkmsBuild(version), true),
               Ran(DkmsInstall(version), ok)];
    }
  }

  /** Makes the boot image anew, where the guest has what makes one. */
  method InitramfsStage(world: World, log: seq<Event>, builder: bool)
    returns (after: seq<Event>, ok: bool, ghost mine: seq<Event>)
    requires Honest(world, log)
    ensures Honest(world, after) && after == log + mine && InitramfsIn(mine, builder, ok)
    ensures (forall past :: world.succeeds(RebuildInitramfs, past)) ==> ok
  {
    if !builder {
      assert log + [] == log;
      return log, true, [];
    }
    after, ok := Run(world, log, RebuildInitramfs);
    mine := [Ran(RebuildInitramfs, ok)];
  }

  predicate MustRebootToReload(unloadSucceeded: bool, stillLoaded: bool) {
    !unloadSucceeded && stillLoaded
  }

  /** Swaps the loaded module for the installed one, unless the old one is in use: a reboot is needed exactly when
      the module would not go and is still there, and then nothing is loaded. Otherwise the old one is gone. */
  method ReloadModule(world: World, log: seq<Event>) returns (after: seq<Event>, attempt: Attempt)
    requires Honest(world, log)
    ensures Honest(world, after)
    ensures attempt == MustReboot <==> after == log + [Ran(UnloadModule, false), Asked(ModuleListed, true)]
    ensures attempt != MustReboot <==>
              exists gone, listed :: (gone || !listed) &&
                after == log + [Ran(UnloadModule, gone), Asked(ModuleListed, listed),
                                Ran(LoadModule, attempt == Succeeded)]
    ensures world.succeeds(UnloadModule, log) && (forall past :: world.succeeds(LoadModule, past)) ==>
              attempt == Succeeded
  {
    var unloaded, listed, loaded;
    after, unloaded := Run(world, log, UnloadModule);
    after, listed := Ask(world, after, ModuleListed);
    assert after == log + [Ran(UnloadModule, unloaded), Asked(ModuleListed, listed)];
    if MustRebootToReload(unloaded, listed) {
      return after, MustReboot;
    }
    after, loaded := Run(world, after, LoadModule);
    attempt := if loaded then Succeeded else AttemptFailed;
    assert after == log + [Ran(UnloadModule, unloaded), Asked(ModuleListed, listed),
                           Ran(LoadModule, attempt == Succeeded)];
  }

  /** Looks for the device and, when it is there, at what is loaded. */
  method LookAtModule(world: World, log: seq<Event>)
    returns (after: seq<Event>, present: bool, loaded: Option<string>, ghost mine: seq<Event>)
    requires Honest(world, log) && IsFresh(log)
    ensures Honest(world, after) && after == log + mine && IsFresh(after)
    ensures !present ==> mine == [Asked(DevicePresent, false)] && loaded.None?
    ensures present ==> exists settled ::
              mine == [Asked(DevicePresent, true), Ran(SettleDesktop, settled), SawLoaded(loaded)]
    ensures (forall past :: log <= past && IsFresh(past) ==> world.answers(DevicePresent, past)) ==> present
    ensures present ==> exists past :: log <= past && IsFresh(past) && loaded == world.loaded(past)
  {
    loaded := None;
    after, present := Ask(world, log, DevicePresent);
    mine := [Asked(DevicePresent, present)];
    if present {
      var settled;
      after, settled := Run(world, after, SettleDesktop);
      ghost var waited := after;
      assert log <= waited && IsFresh(waited);
      after, loaded := LoadedVersion(world, after);
      mine := [Asked(DevicePresent, true), Ran(SettleDesktop, settled), SawLoaded(loaded)];
      assert after == log + mine;
    }
  }

  /** The target is loaded on a device that is there, and its services verify. */
  method Verify(world: World, log: seq<Event>, target: string)
    returns (after: seq<Event>, ok: bool, ghost mine: seq<Event>)
    requires Honest(world, log) && IsFresh(log)
    ensures Honest(world, after) && after == log + mine && VerifyIn(mine, target, ok)
    ensures (forall past :: log <= past && IsFresh(past) ==>
                              world.answers(DevicePresent, past) && world.loaded(past) == Some(target)) ==>
              EndsWith(after, Asked(ServicesVerified, ok))
  {
    var present, loaded;
    after, present, loaded, mine := LookAtModule(world, log);
    if !present || loaded != Some(target) {
      return after, false, mine;
    }
    ghost var looked := mine;
    ghost var settled :| looked == [Asked(DevicePresent, true), Ran(SettleDesktop, settled), SawLoaded(loaded)];
    after, ok := Ask(world, after, ServicesVerified);
    Further(log, looked, [Asked(ServicesVerified, ok)]);
    mine := [Asked(DevicePresent, true), Ran(SettleDesktop, settled), SawLoaded(loaded), Asked(ServicesVerified, ok)];
  }

  /** Puts the services in place; it fails exactly when one of its programs does, which is then the last thing done. */
  method ServicesStages(world: World, log: seq<Event>) returns (after: seq<Event>, ok: bool, ghost mine: seq<Event>)
    requires Honest(world, log)
    ensures Honest(world, after) && after == log + mine && ServicesIn(mine, ok)
    ensures (forall command, past :: world.succeeds(command, past)) ==> ok
    ensures ServicesFail(world) ==> !ok
  {
    var carried, needed;
    after, carried := Ask(world, log, PayloadCarriesServices);
    mine := [Asked(PayloadCarriesServices, carried)];
    if !carried {
      return after, true, mine;
    }
    after, ok := Run(world, after, EnsureServiceUser);
    mine := [Asked(PayloadCarriesServices, true), Ran(EnsureServiceUser, ok)];
    assert after == log + mine;
    if !ok {
      return;
    }
    after, needed := Ask(world, after, ServicesNeedInstall);
    Further(log, mine, [Asked(ServicesNeedInstall, needed)]);
    mine := [Asked(PayloadCarriesServices, true), Ran(EnsureServiceUser, true), Asked(ServicesNeedInstall, needed)];
    if needed {
      after, ok := Run(world, after, InstallServices);
      Further(log, mine, [Ran(InstallServices, ok)]);
      mine := [Asked(PayloadCarriesServices, true), Ran(EnsureServiceUser, true), Asked(ServicesNeedInstall, true),
               Ran(InstallServices, ok)];
      if !ok {
        return;
      }
    }
    ghost var installed := mine;
    after, ok := Run(world, after, StartServices);
    Further(log, installed, [Ran(StartServices, ok)]);
    mine := installed + [Ran(StartServices, ok)];
  }

  /** Stages the sources, builds the version and makes the boot image anew. */
  method StageAndBuild(world: World, log: seq<Event>, target: string, builder: bool)
    returns (after: seq<Event>, ok: bool, ghost mine: seq<Event>, ghost installed: bool)
    requires Honest(world, log)
    ensures Honest(world, after) && after == log + mine && StagedIn(mine, target, installed, builder, ok)
    ensures Reaches(world, target) ==> ok
  {
    installed := false;
    after, ok := Run(world, log, CopySources);
    mine := [Ran(CopySources, ok)];
    if !ok {
      return;
    }
    ghost var build, image, copied := [], [], mine;
    after, ok, build, installed := BuildStage(world, after, target);
    Further(log, copied, build);
    mine := copied + build;
    if !ok {
      assert mine == mine + image;
      assert StagedFrom(mine, target, installed, builder, false, build, false, image);
      return;
    }
    after, ok, image := InitramfsStage(world, after, builder);
    Further(log, mine, image);
    mine := mine + image;
    assert StagedFrom(mine, target, installed, builder, ok, build, true, image);
  }

  /** Everything up to the moment the module is to be swapped. */
  method InstallTarget(world: World, log: seq<Event>, target: string, builder: bool)
    returns (after: seq<Event>, ok: bool, ghost mine: seq<Event>, ghost installed: bool)
    requires Honest(world, log)
    ensures Honest(world, after) && after == log + mine && InstallIn(mine, target, installed, builder, ok)
    ensures Reaches(world, target) ==> ok
  {
    installed := false;
    after, ok, mine := DependenciesStage(world, log);
    if !ok {
      return;
    }
    var rebuilds;
    ghost var needed, signing, staged := mine, [], [];
    after, rebuilds, signing := SigningKeyStage(world, after);
    Further(log, needed, signing);
    after, ok, staged, installed := StageAndBuild(world, after, target, builder);
    Further(log, needed + signing, staged);
    mine := needed + signing + staged;
  }

  /** Swaps the target in and verifies it. */
  method SwapTargetIn(world: World, log: seq<Event>, target: string)
    returns (after: seq<Event>, attempt: Attempt, ghost mine: seq<Event>)
    requires Honest(world, log) && IsFresh(log)
    ensures Honest(world, after) && after == log + mine && SwapIn(mine, target, attempt)
    ensures Reaches(world, target) ==>
              EndsWith(after, Asked(ServicesVerified, attempt == Succeeded)) && Ran(LoadModule, true) in after
              && attempt != MustReboot
  {
    after, attempt := ReloadModule(world, log);
    if attempt == MustReboot {
      mine := [Ran(UnloadModule, false), Asked(ModuleListed, true)];
      return;
    }
    ghost var gone, listed :| (gone || !listed) &&
      after == log + [Ran(UnloadModule, gone), Asked(ModuleListed, listed), Ran(LoadModule, attempt == Succeeded)];
    ghost var unloaded := [Ran(UnloadModule, gone), Asked(ModuleListed, listed)];
    mine := unloaded + [Ran(LoadModule, attempt == Succeeded)];
    assert after == log + mine;
    if attempt == AttemptFailed {
      assert LoadsIn(mine, target, attempt, gone, listed);
      return;
    }
    ghost var look;
    ghost var loading, reloaded := mine, after;
    LaterHolds(reloaded, Ran(LoadModule, true));
    var ok;
    after, ok, look := Verify(world, after, target);
    attempt := if ok then Succeeded else AttemptFailed;
    Further(log, loading, look);
    mine := loading + look;
    assert LoadsIn(mine, target, attempt, gone, listed);
    assert look != [] && after[|after| - 1] == look[|look| - 1];
  }

  lemma LaterHolds(log: seq<Event>, event: Event)
    requires event in log
    ensures forall past :: log <= past ==> event in past
  {
    forall past | log <= past ensures event in past {
      assert past == log + past[|log|..];
    }
  }

  /** Everything between deciding to update and knowing whether it worked. */
  method TryTarget(world: World, log: seq<Event>, target: string, builder: bool)
    returns (after: seq<Event>, attempt: Attempt, ghost mine: seq<Event>)
    requires Honest(world, log) && IsFresh(log)
    ensures Honest(world, after) && after == log + mine && TryIn(mine, target, builder, attempt)
    ensures Reaches(world, target) ==>
              EndsWith(after, Asked(ServicesVerified, attempt == Succeeded)) && Ran(LoadModule, true) in after
              && attempt != MustReboot
  {
    var ok;
    ghost var install, installed, swap := [], false, [];
    after, ok, install, installed := InstallTarget(world, log, target, builder);
    if !ok {
      return after, AttemptFailed, install;
    }
    InstallingOnlyPrepares(log, install, target, installed, builder, true);
    InstallShows(install, target, installed, builder, true);
    PreparingRemovesNothing(install);
    RemovesConcat(log, install, target);
    after, attempt, swap := SwapTargetIn(world, after, target);
    Further(log, install, swap);
    mine := install + swap;
  }

  /** Takes the attempted version away, loads what is then installed, and makes the boot image anew. */
  method SwapBack(world: World, log: seq<Event>, attempted: string, builder: bool)
    returns (after: seq<Event>, ghost mine: seq<Event>)
    requires Honest(world, log)
    ensures Honest(world, after) && after == log + mine && Reloaded(after, attempted)
    ensures exists removed, loaded, image, made ::
              InitramfsIn(image, builder, made) &&
              mine == SwapBackEvents(attempted, world.succeeds(UnloadModule, log), removed, loaded) + image
  {
    var gone, removed, loaded, made;
    after, gone := Run(world, log, UnloadModule);
    after, removed := Run(world, after, DkmsRemove(attempted));
    after, loaded := Run(world, after, LoadModule);
    mine := SwapBackEvents(attempted, gone, removed, loaded);
    assert after == log + mine;
    assert WasRun(after[|log| + 1], DkmsRemove(attempted)) && WasRun(after[|log| + 2], LoadModule);
    ghost var image, swapped := [], mine;
    ghost var reloaded := after;
    after, made, image := InitramfsStage(world, after, builder);
    Further(log, swapped, image);
    mine := swapped + image;
    assert after[|log| + 1] == reloaded[|log| + 1] && after[|log| + 2] == reloaded[|log| + 2];
  }

  /** Puts the previous version back, when there is one; it is reported as back exactly when it is then found listed,
      loaded and on its device. */
  method RollBack(world: World, log: seq<Event>, before: InstalledVersions, attempted: string, builder: bool)
    returns (after: seq<Event>, outcome: Outcome, ghost mine: seq<Event>)
    requires Honest(world, log)
    ensures Honest(world, after) && after == log + mine
    ensures outcome == RolledBack || outcome == UpdateFailed
    ensures RollbackTarget(before, attempted).None? ==> mine == [] && outcome == UpdateFailed
    ensures RollbackTarget(before, attempted).Some? ==>
              RollbackIn(mine, RollbackTarget(before, attempted).value, attempted, builder,
                         world.succeeds(UnloadModule, log), outcome == RolledBack)
    ensures RollbackTarget(before, attempted).Some? ==> forall version :: ComesBack(world, attempted, version) ==>
              EndsOn(mine, version, RollbackTarget(before, attempted).value, outcome == RolledBack)
  {
    var previous := RollbackTarget(before, attempted);
    if previous.None? {
      assert log + [] == log;
      return log, UpdateFailed, [];
    }
    var restored;
    ghost var swapped, look := [], [];
    after, swapped := SwapBack(world, log, attempted, builder);
    after, restored, look := Restored(world, after, previous.value, attempted);
    Further(log, swapped, look);
    mine := swapped + look;
    outcome := if restored then RolledBack else UpdateFailed;
    assert look != [] && mine[|mine| - 1] == look[|look| - 1];
  }

  lemma ReloadedLater(log: seq<Event>, mine: seq<Event>, removed: string)
    requires Reloaded(log, removed)
    ensures Reloaded(log + mine, removed)
  {
    var i, j :| 0 <= i < j < |log| && WasRun(log[i], DkmsRemove(removed)) && WasRun(log[j], LoadModule);
    assert (log + mine)[i] == log[i] && (log + mine)[j] == log[j];
  }

  /** Looks whether the module is there, and at what is loaded if it is. */
  method LookForModule(world: World, log: seq<Event>, removed: string)
    returns (after: seq<Event>, loaded: Option<string>, ghost mine: seq<Event>)
    requires Honest(world, log) && Reloaded(log, removed)
    ensures Honest(world, after) && after == log + mine
    ensures mine == [Asked(ModuleListed, true), SawLoaded(loaded)] ||
              (loaded.None? && mine == [Asked(ModuleListed, false)])
    ensures forall version :: ComesBack(world, removed, version) ==> loaded == Some(version)
  {
    var listed;
    loaded := None;
    after, listed := Ask(world, log, ModuleListed);
    mine := [Asked(ModuleListed, listed)];
    if listed {
      ReloadedLater(log, mine, removed);
      after, loaded := LoadedVersion(world, after);
      mine := [Asked(ModuleListed, true), SawLoaded(loaded)];
      assert after == log + mine;
    }
  }

  /** Looks whether a version is back: listed, the one wanted, on a device that is there. */
  method Restored(world: World, log: seq<Event>, previous: string, removed: string)
    returns (after: seq<Event>, restored: bool, ghost mine: seq<Event>)
    requires Honest(world, log) && Reloaded(log, removed)
    ensures Honest(world, after) && after == log + mine && RestoredIn(mine, previous, restored)
    ensures forall version :: ComesBack(world, removed, version) ==> EndsOn(mine, version, previous, restored)
  {
    var loaded;
    after, loaded, mine := LookForModule(world, log, removed);
    restored := false;
    if loaded == Some(previous) {
      ghost var looked := mine;
      ReloadedLater(log, looked, removed);
      after, restored := Ask(world, after, DevicePresent);
      Further(log, looked, [Asked(DevicePresent, restored)]);
      mine := [Asked(ModuleListed, true), SawLoaded(loaded), Asked(DevicePresent, restored)];
    }
  }

  /** The version found is the one wanted back, or is the last thing seen. */
  ghost predicate EndsOn(mine: seq<Event>, version: string, previous: string, restored: bool) {
    (restored <==> version == previous) && (!restored ==> EndsWith(mine, SawLoaded(Some(version))))
  }

  /** The guest is ready to be changed: its facts and the target's payload are there, and it is not going down. */
  method Prepare(world: World, target: string)
    returns (log: seq<Event>, before: Option<InstalledVersions>, builder: bool)
    ensures Honest(world, log) && PrepareIn(log, target, builder, before)
    ensures before.Some? ==> FoundEarly(world, before.value)
    ensures Ready(world, target) && (forall past :: !world.answers(ShuttingDown, past)) ==> before.Some?
    ensures ReadyButStopping(world, target) ==> before.None? && LoadedNow(log).Some?
  {
    var ok;
    builder := false;
    log, ok := Ask(world, [], GuestFactsReadable);
    if !ok {
      return log, None, false;
    }
    log, builder := Ask(world, log, HasInitramfsBuilder);
    ghost var facts, payload := log, [];
    log, ok, payload := PayloadStage(world, log, target);
    if !ok {
      assert facts == FactEvents(builder) && RefusedFrom(log, target, builder, payload);
      return log, None, builder;
    }
    assert facts == FactEvents(builder);
    FactsShow(builder, payload, target, true);
    log, before := LookBefore(world, log, target, builder, payload);
  }

  /** Reads what a rollback would return to, unless the guest is going down. */
  method LookBefore(world: World, log: seq<Event>, ghost target: string, ghost builder: bool, ghost payload: seq<Event>)
    returns (after: seq<Event>, before: Option<InstalledVersions>)
    requires Honest(world, log) && OnlyLooked(log, 0) && IsFresh(log)
    requires log == FactEvents(builder) + payload
    requires PayloadIn(payload, target, true)
    ensures Honest(world, after) && PrepareIn(after, target, builder, before)
    ensures before.Some? ==> FoundEarly(world, before.value)
    ensures (forall past :: world.answers(ShuttingDown, past)) ==> before.None?
    ensures (forall past :: !world.answers(ShuttingDown, past)) ==> before.Some?
    ensures (forall past :: world.answers(ModuleListed, past) && world.loaded(past).Some?) ==> LoadedNow(after).Some?
  {
    var installed, stopping;
    ghost var versions;
    after, installed, versions := ReadInstalledVersions(world, log);
    ghost var found := after;
    after, stopping := Ask(world, after, ShuttingDown);
    before := if stopping then None else Some(installed);
    StateAppend(found, Asked(ShuttingDown, stopping));
    VersionsShow(log, versions, installed);
    assert LooksFrom(after, target, builder, before, payload, versions, installed);
  }

  /** What is installed and loaded, as the world said it was before anything was run. */
  ghost predicate FoundEarly(world: World, found: InstalledVersions) {
    exists past :: OnlyLooked(past, 0) && IsFresh(past) && FoundAfter(world, found, past)
  }

  /** A world ready for the update in which some version is loaded, but the guest is going down. */
  ghost predicate ReadyButStopping(world: World, target: string) {
    && Ready(world, target)
    && forall past :: world.answers(ModuleListed, past) && world.loaded(past).Some? && world.answers(ShuttingDown, past)
  }

  /** The attempt, and what becomes of it. */
  method Attempted(world: World, log: seq<Event>, before: InstalledVersions, target: string, builder: bool)
    returns (after: seq<Event>, outcome: Outcome, verified: bool, ghost mine: seq<Event>)
    requires Honest(world, log) && OnlyLooked(log, 0) && !DeviceNow(log) && !Tried(log)
    ensures Honest(world, after) && after == log + mine
    ensures AttemptIn(mine, RollbackTarget(before, target), target, builder, outcome, verified)
    ensures Reaches(world, target) ==>
              Concludes(world, RollbackTarget(before, target), target, after, outcome, verified)
    ensures verified && (forall command, past :: world.succeeds(command, past)) ==> outcome == Updated
    ensures verified && ServicesFail(world) ==> outcome == UpdateFailed
  {
    var attempt;
    ghost var tried, rest := [], [];
    verified := false;
    after, attempt, tried := TryTarget(world, log, target, builder);
    ghost var attempted := after;
    if Reaches(world, target) {
      AskedOfTheWorld(world, after, ServicesVerified, attempt == Succeeded);
    }
    TryShows(log, tried, target, builder, attempt);
    if attempt == Succeeded {
      verified := true;
      var ok;
      after, ok, rest := ServicesStages(world, after);
      outcome := if ok then Updated else UpdateFailed;
    } else if attempt == MustReboot {
      outcome := RebootRequired;
      assert attempted == attempted + rest;
    } else {
      after, outcome, rest := RollBack(world, after, before, target, builder);
      if Reaches(world, target) {
        RolledConcludes(world, attempted, rest, RollbackTarget(before, target), target, builder, outcome);
      }
    }
    Further(log, tried, rest);
    mine := tried + rest;
  }

  /** What an attempt that gets as far as asking about the services comes to, where the world always answers alike. */
  ghost predicate Concludes(world: World, previous: Option<string>, target: string, log: seq<Event>, outcome: Outcome,
                            verified: bool) {
    && ((forall past :: world.answers(ServicesVerified, past)) ==> verified)
    && ((forall past :: !world.answers(ServicesVerified, past)) ==>
          !verified && RollsBackAs(world, previous, target, log, outcome))
  }

  /** A rollback comes to what the world goes on finding once the target was removed. */
  ghost predicate RollsBackAs(world: World, previous: Option<string>, target: string, log: seq<Event>,
                              outcome: Outcome) {
    && (outcome == RolledBack || outcome == UpdateFailed)
    && (previous.None? ==> outcome == UpdateFailed && EndsWith(log, Asked(ServicesVerified, false)))
    && (previous.Some? ==> forall version :: ComesBack(world, target, version) ==>
          && (outcome == RolledBack <==> version == previous.value)
          && (outcome == UpdateFailed ==>
                && EndsWith(log, SawLoaded(Some(version)))
                && ((forall past :: Tried(past) ==> !world.succeeds(UnloadModule, past)) ==> LeftRunning(log))))
  }

  lemma {:induction false} RolledConcludes(world: World, log: seq<Event>, rest: seq<Event>, previous: Option<string>,
                                           target: string, builder: bool, outcome: Outcome)
    requires EndsWith(log, Asked(ServicesVerified, false)) && (DeviceNow(log) <==> EndsPastTheDevice(log))
    requires outcome == RolledBack || outcome == UpdateFailed
    requires previous.None? ==> rest == [] && outcome == UpdateFailed
    requires previous.Some? ==>
               && RollbackIn(rest, previous.value, target, builder, world.succeeds(UnloadModule, log), outcome ==
                             RolledBack)
               && forall version :: ComesBack(world, target, version) ==>
                    EndsOn(rest, version, previous.value, outcome == RolledBack)
    ensures RollsBackAs(world, previous, target, log + rest, outcome)
  {
    if previous.None? {
      assert log + rest == log;
    } else {
      RollbackShows(log, rest, previous.value, target, builder, world.succeeds(UnloadModule, log), outcome ==
                    RolledBack);
      assert log[|log| - 1] in log;
      assert rest != [] ==> (log + rest)[|log + rest| - 1] == rest[|rest| - 1];
    }
  }

  lemma AskedOfTheWorld(world: World, log: seq<Event>, question: Question, yes: bool)
    requires Honest(world, log) && EndsWith(log, Asked(question, yes))
    ensures exists past :: world.answers(question, past) == yes
  {
    assert HonestAt(world, log, |log| - 1);
  }

  ghost predicate ServicesFail(world: World) {
    forall past :: world.answers(PayloadCarriesServices, past) && !world.succeeds(StartServices, past)
  }

  /** What a rollback would return to, if the update started at all. */
  function Previously(before: Option<InstalledVersions>, target: string): Option<string> {
    if before.None? then None else RollbackTarget(before.value, target)
  }

  /** Moves the guest to `target`. Over every world, the outcome says no more than what was seen.
      `before` is what was there, absent when the update never started; `verified` says that the target passed its
      verification, whatever became of its services afterwards. */
  method RunUpdate(world: World, target: string)
    returns (log: seq<Event>, outcome: Outcome, before: Option<InstalledVersions>, verified: bool, builder: bool,
             ghost prepared: seq<Event>, ghost mine: seq<Event>)
    ensures Honest(world, log) && log == prepared + mine
    // What was looked at, and then every program and every answer, stage by stage.
    ensures PrepareIn(prepared, target, builder, before)
    ensures if before.None? then mine == [] && outcome == UpdateFailed && !verified
            else AttemptIn(mine, Previously(before, target), target, builder, outcome, verified)
    // Nothing is run by an update that does not start; the others run their programs in this order.
    ensures if before.None? then OnlyLooked(log, 0)
            else RunsInOrder(Programs(log), Previously(before, target), target, builder, outcome, verified)
    // What was seen, for each outcome, and what a failed update leaves loaded and running.
    ensures Shown(log, Previously(before, target), target, outcome, verified)
    ensures outcome == UpdateFailed ==> LeftBehind(log, Previously(before, target))
    ensures Willing(world, target) ==> outcome == Updated
    // What follows is for particular worlds.
    ensures before.Some? ==> FoundEarly(world, before.value)
    ensures Reaches(world, target) && (forall past :: !world.answers(ShuttingDown, past)) ==>
              before.Some? && Concludes(world, Previously(before, target), target, log, outcome, verified)
    ensures verified && ServicesFail(world) ==> outcome == UpdateFailed
    ensures ReadyButStopping(world, target) ==> before.None? && LoadedNow(log).Some?
  {
    log, before, builder := Prepare(world, target);
    prepared, mine := log, [];
    PreparingShows(log, target, builder, before);
    if before.None? {
      assert log == log + mine;
      NothingWasRun(log, target);
      return log, UpdateFailed, None, false, builder, prepared, mine;
    }
    log, outcome, verified, mine := Attempted(world, log, before.value, target, builder);
    UpdateShows(prepared, mine, Previously(before, target), target, builder, outcome, verified);
    UpdateRunsInOrder(mine, Previously(before, target), target, builder, outcome, verified);
    NoPrograms(prepared);
    ProgramsConcat(prepared, mine);
    assert [] + Programs(mine) == Programs(mine);
  }

  lemma NothingWasRun(log: seq<Event>, target: string)
    requires OnlyLooked(log, 0) && !DeviceNow(log) && !EndsUnverified(log) && !EndsWithoutServices(log)
    requires LoadedNow(log).Some? <==> EndsNextToLoaded(log)
    ensures Shown(log, None, target, UpdateFailed, false) && LeftBehind(log, None)
  {
  }

  /** What was loaded before, where a world says so as long as nothing was run. */
  lemma FoundLoaded(world: World, found: InstalledVersions, version: string)
    requires FoundEarly(world, found)
    requires forall past :: OnlyLooked(past, 0) && IsFresh(past) ==>
               world.answers(ModuleListed, past) && world.loaded(past) == Some(version)
    ensures found.loaded == Some(version)
  {
    var past :| OnlyLooked(past, 0) && IsFresh(past) && FoundAfter(world, found, past);
    var listing := past + [SawVersions(found.versions)];
    assert OnlyLooked(listing, 0) && OnlyLooked(listing + [Asked(ModuleListed, true)], 0);
  }

  /** What was there before, where a world never lists a version or the module. */
  lemma FoundNothing(world: World, found: InstalledVersions)
    requires FoundEarly(world, found)
    requires forall past :: !world.answers(ModuleListed, past) && world.listed(past) == []
    ensures found == InstalledVersions([], None)
  {
  }

  /* Worlds in which a failed update does not mean that nothing runs, and two in which a rollback gets through. */

  /** In every world where the target gets as far as its services, these verify, and starting them fails: the
      update fails and the target runs. */
  method WithoutServices(world: World, target: string) returns (log: seq<Event>, outcome: Outcome)
    requires Reaches(world, target) && ServicesFail(world)
    requires forall past :: !world.answers(ShuttingDown, past) && world.answers(ServicesVerified, past)
    ensures outcome == UpdateFailed && SeenRunning(log, target) && LeftRunning(log) && RemovesNothing(log)
  {
    var before, verified, builder;
    ghost var prepared, mine;
    log, outcome, before, verified, builder, prepared, mine := RunUpdate(world, target);
  }

  /** The target verifies and runs, and starting its services fails. */
  method FailsWithoutServices() returns (log: seq<Event>, outcome: Outcome)
    ensures outcome == UpdateFailed && SeenRunning(log, "2") && LeftRunning(log) && RemovesNothing(log)
  {
    var world := World((command: Command, past) => !command.StartServices?,
                       (question: Question, past) => question != ShuttingDown,
                       past => Some("2"), past => "2", past => ["1"]);
    log, outcome := WithoutServices(world, "2");
  }

  /** The first version a guest ever gets is loaded on its device, and its services do not verify. */
  method FailsUnverified() returns (log: seq<Event>, outcome: Outcome)
    ensures outcome == UpdateFailed && RemovesNothing(log) && LeftRunning(log)
  {
    var world := World((command: Command, past) => true,
                       (question: Question, past) => question !in {ShuttingDown, ModuleListed, ServicesVerified},
                       past => Some("2"), past => "2", past => []);
    assert Reaches(world, "2");
    var before, verified, builder;
    ghost var prepared, mine;
    log, outcome, before, verified, builder, prepared, mine := RunUpdate(world, "2");
    FoundNothing(world, before.value);
  }

  /** What is loaded, in a world where loading brings the target for good. */
  function OnceLoaded(past: seq<Event>): string {
    if exists i :: 0 <= i < |past| && WasRun(past[i], LoadModule) then "2" else "1"
  }

  /** Before anything is run the old version is what is loaded, and the guest is not going down. */
  ghost predicate OldIsLoaded(world: World, version: string) {
    && (forall past :: OnlyLooked(past, 0) && IsFresh(past) ==>
          world.answers(ModuleListed, past) && world.loaded(past) == Some(version))
    && forall past :: !world.answers(ShuttingDown, past) && !world.answers(ServicesVerified, past)
  }

  /** In every world where the target gets as far as its services, these do not verify, it will not be unloaded, and it
      goes on being found: the update fails and the target is left running. */
  method StillLoaded(world: World, target: string, standing: string) returns (log: seq<Event>, outcome: Outcome)
    requires Reaches(world, target) && OldIsLoaded(world, standing) && standing != target
    requires ComesBack(world, target, target) && forall past :: Tried(past) ==> !world.succeeds(UnloadModule, past)
    ensures outcome == UpdateFailed && LoadedNow(log) == Some(target) && DeviceNow(log)
  {
    var before, verified, builder;
    ghost var prepared, mine;
    log, outcome, before, verified, builder, prepared, mine := RunUpdate(world, target);
    FoundLoaded(world, before.value, standing);
    LastLooked(log, target);
  }

  lemma {:induction false} LastLooked(log: seq<Event>, version: string)
    requires EndsWith(log, SawLoaded(Some(version)))
    ensures LoadedNow(log) == Some(version)
  {
    StateAppend(log[..|log| - 1], SawLoaded(Some(version)));
    assert log == log[..|log| - 1] + [SawLoaded(Some(version))];
  }

  /** In every world where the target gets as far as its services, these do not verify, and the old version is
      found again once the module was loaded after the target's removal: the update rolls back to it. */
  method BackAgain(world: World, target: string, standing: string) returns (log: seq<Event>, outcome: Outcome)
    requires Reaches(world, target) && OldIsLoaded(world, standing) && ComesBack(world, target, standing)
    ensures outcome == RolledBack && SeenRemoved(log, target) && SeenRunning(log, standing)
  {
    var before, verified, builder;
    ghost var prepared, mine;
    log, outcome, before, verified, builder, prepared, mine := RunUpdate(world, target);
    FoundLoaded(world, before.value, standing);
  }

  lemma OnceLoadedIs(past: seq<Event>)
    ensures OnlyLooked(past, 0) ==> OnceLoaded(past) == "1"
    ensures Ran(LoadModule, true) in past || Reloaded(past, "2") ==> OnceLoaded(past) == "2"
  {
    assert WasRun(Ran(LoadModule, true), LoadModule);
  }

  /** The target is loaded on its device, its services do not verify, and it is in use by the time it is to be unloaded:
      the rollback finds it still there. */
  method FailsStillLoaded() returns (log: seq<Event>, outcome: Outcome)
    ensures outcome == UpdateFailed && LoadedNow(log) == Some("2") && DeviceNow(log)
  {
    var world := World((command: Command, past) => command.UnloadModule? ==> !Tried(past),
                       (question: Question, past) => question !in {ShuttingDown, ServicesVerified},
                       past => Some(OnceLoaded(past)), past => "2", past => ["2", "1"]);
    forall past
      ensures OnlyLooked(past, 0) ==> OnceLoaded(past) == "1"
      ensures Ran(LoadModule, true) in past || Reloaded(past, "2") ==> OnceLoaded(past) == "2"
    {
      OnceLoadedIs(past);
    }
    log, outcome := StillLoaded(world, "2", "1");
  }

  /** The guest is going down before anything was tried; a version was found loaded and nothing was run. */
  method FailsBeforeItStarts() returns (log: seq<Event>, outcome: Outcome)
    ensures outcome == UpdateFailed && OnlyLooked(log, 0) && LoadedNow(log).Some?
  {
    var world := World((command: Command, past) => true, (question: Question, past) => true,
                       past => Some("1"), past => "2", past => ["1"]);
    assert ReadyButStopping(world, "2");
    var before, verified, builder;
    ghost var prepared, mine;
    log, outcome, before, verified, builder, prepared, mine := RunUpdate(world, "2");
  }

  /** The target was loaded to begin with and its services do not verify: it is removed, and is what is rolled
      back to. */
  method RollsBackToItself() returns (log: seq<Event>, outcome: Outcome)
    ensures outcome == RolledBack && SeenRemoved(log, "2") && SeenRunning(log, "2")
  {
    var world := World((command: Command, past) => true,
                       (question: Question, past) => question !in {ShuttingDown, ServicesVerified},
                       past => Some("2"), past => "2", past => ["2"]);
    log, outcome := BackAgain(world, "2", "2");
  }

  /** What is loaded, in a world where a version that fails its verification is gone until the old one is loaded in its
      place. */
  function LoadedInTurn(past: seq<Event>): Option<string> {
    if Reloaded(past, "2") then Some("1") else if IsFresh(past) then Some(OnceLoaded(past)) else None
  }

  lemma LoadedInTurnIs(past: seq<Event>)
    ensures OnlyLooked(past, 0) && IsFresh(past) ==> LoadedInTurn(past) == Some("1")
    ensures Reloaded(past, "2") ==> LoadedInTurn(past) == Some("1")
    ensures IsFresh(past) && Ran(LoadModule, true) in past ==> LoadedInTurn(past) == Some("2")
  {
    OnceLoadedIs(past);
  }

  /** The old version is loaded, the target's services do not verify, and the old version is found again only once the
      module was loaded after the target's removal: the rollback brings it back. */
  method RollsBack() returns (log: seq<Event>, outcome: Outcome)
    ensures outcome == RolledBack && SeenRemoved(log, "2") && SeenRunning(log, "1")
  {
    var world := World((command: Command, past) => true,
                       (question: Question, past) =>
                         if question == ModuleListed then LoadedInTurn(past).Some?
                         else question !in {ShuttingDown, ServicesVerified},
                       past => LoadedInTurn(past), past => "2", past => ["2", "1"]);
    forall past
      ensures OnlyLooked(past, 0) && IsFresh(past) ==> LoadedInTurn(past) == Some("1")
      ensures Reloaded(past, "2") ==> LoadedInTurn(past) == Some("1")
      ensures IsFresh(past) && Ran(LoadModule, true) in past ==> LoadedInTurn(past) == Some("2")
    {
      LoadedInTurnIs(past);
    }
    log, outcome := BackAgain(world, "2", "1");
  }
}
