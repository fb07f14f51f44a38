/** What the log of an update means: what was run, what was left loaded, and what was seen running.

    All of it follows from which events the stages leave in the log, whatever the world answered.
 */
module DisplayMeaning {
  import opened Outcomes
  import opened DisplayLog
  import opened DisplayStages

  /* What installing comes to. */

  ghost predicate AllPreparatory(mine: seq<Event>) {
    forall i :: 0 <= i < |mine| ==> Preparatory(mine[i])
  }

  lemma PreparatoryConcat(early: seq<Event>, late: seq<Event>)
    requires AllPreparatory(early) && AllPreparatory(late)
    ensures AllPreparatory(early + late)
  {
  }

  lemma PreparatoryPrepares(log: seq<Event>, mine: seq<Event>)
    requires AllPreparatory(mine) && mine != []
    ensures Prepares(log, log + mine)
  {
    var after := log + mine;
    assert forall k :: |log| <= k < |after| ==> after[k] == mine[k - |log|];
  }

  /** What comes before the sources of a version are staged. */
  predicate IsEarly(event: Event) {
    Preparatory(event) && (event.Ran? ==> IsPreliminary(event.command))
  }

  ghost predicate AllEarly(mine: seq<Event>) {
    forall i :: 0 <= i < |mine| ==> IsEarly(mine[i])
  }

  lemma {:induction false} EarlyPrograms(mine: seq<Event>)
    requires AllEarly(mine)
    ensures AllPreliminary(Programs(mine))
  {
    if mine != [] {
      EarlyPrograms(mine[..|mine| - 1]);
    }
  }

  predicate IsFailedBuild(event: Event) {
    event.Ran? && event.command.DkmsBuild? && !event.ok
  }

  /** Some build failed. */
  ghost predicate SomeBuildFailed(mine: seq<Event>) {
    exists i :: 0 <= i < |mine| && IsFailedBuild(mine[i])
  }

  lemma FailedBuildsConcat(early: seq<Event>, late: seq<Event>)
    ensures SomeBuildFailed(early + late) <==> SomeBuildFailed(early) || SomeBuildFailed(late)
  {
    var mine := early + late;
    assert forall i :: 0 <= i < |early| ==> mine[i] == early[i];
    assert forall i :: 0 <= i < |late| ==> mine[|early| + i] == late[i];
    if SomeBuildFailed(late) {
      var i :| 0 <= i < |late| && IsFailedBuild(late[i]);
      assert IsFailedBuild(mine[|early| + i]);
    }
  }

  lemma {:induction false} RebuildsShow(versions: seq<string>, builds: seq<bool>, installs: seq<bool>)
    requires |builds| == |installs| <= |versions|
    ensures AllEarly(RebuildEvents(versions, builds, installs))
    ensures (exists i :: 0 <= i < |builds| && !builds[i]) <==>
                         SomeBuildFailed(RebuildEvents(versions, builds, installs))
  {
    if builds != [] {
      var n := |builds| - 1;
      RebuildsShow(versions, builds[..n], installs[..n]);
      var early := RebuildEvents(versions, builds[..n], installs[..n]);
      var last := [Ran(DkmsBuild(versions[n]), builds[n])] +
                  if builds[n] then [Ran(DkmsInstall(versions[n]), installs[n])] else [];
      assert RebuildEvents(versions, builds, installs) == early + last;
      FailedBuildsConcat(early, last);
      assert SomeBuildFailed(last) <==> !builds[n] by {
        assert !builds[n] ==> IsFailedBuild(last[0]);
      }
      assert forall i :: 0 <= i < n ==> builds[i] == builds[..n][i];
    }
  }

  /** Rebuilding takes the versions in order: each is built and then installed, and one that fails to build is the last
      thing done. */
  lemma {:induction false} RebuildsInOrder(versions: seq<string>, builds: seq<bool>, installs: seq<bool>)
    requires |builds| == |installs| <= |versions| && forall i :: 0 <= i < |builds| - 1 ==> builds[i]
    ensures var events, n := RebuildEvents(versions, builds, installs), |builds|;
            && |events| == (if n > 0 && !builds[n - 1] then 2 * n - 1 else 2 * n)
            && (forall i :: 0 <= i < n ==> events[2 * i] == Ran(DkmsBuild(versions[i]), builds[i]))
            && forall i :: 0 <= i < n && builds[i] ==> events[2 * i + 1] == Ran(DkmsInstall(versions[i]), installs[i])
  {
    if builds != [] {
      var n := |builds| - 1;
      RebuildsInOrder(versions, builds[..n], installs[..n]);
      var early := RebuildEvents(versions, builds[..n], installs[..n]);
      assert |early| == 2 * n;
    }
  }

  lemma {:induction false} RebuildsOnly(mine: seq<Event>, builds: seq<bool>)
    requires RebuildsIn(mine, builds)
    ensures AllEarly(mine)
    ensures (exists i :: 0 <= i < |builds| && !builds[i]) <==> SomeBuildFailed(mine)
  {
    var versions, installs: seq<bool> :| RebuildsOf(mine, versions, builds, installs) && IsAsFar(versions, builds);
    RebuildsShow(versions, builds, installs);
    FailedBuildsConcat([SawVersions(versions)], RebuildEvents(versions, builds, installs));
    assert !SomeBuildFailed([SawVersions(versions)]);
  }

  lemma PairShows(pair: seq<Event>, made: bool, usable: bool)
    requires PairIn(pair, made)
    ensures AllEarly(pair + [Asked(CertificateUsable, usable)])
    ensures !SomeBuildFailed(pair + [Asked(CertificateUsable, usable)])
  {
  }

  /** The signing key's stage comes early, and its builds show in the log. */
  lemma {:induction false} SigningShows(mine: seq<Event>, rebuilds: Option<seq<bool>>)
    requires SigningIn(mine, rebuilds)
    ensures AllEarly(mine)
    ensures rebuilds.Some? ==>
              ((exists i :: 0 <= i < |rebuilds.value| && !rebuilds.value[i]) <==> SomeBuildFailed(mine))
  {
    if pair, made, more :| SigningFrom(mine, rebuilds, pair, made, more) {
      PairShows(pair, made, rebuilds.Some?);
      FailedBuildsConcat(pair + [Asked(CertificateUsable, rebuilds.Some?)], more);
      if rebuilds.Some? && made {
        RebuildsOnly(more, rebuilds.value);
      } else {
        assert !SomeBuildFailed(more);
      }
    }
  }

  lemma DependenciesShow(mine: seq<Event>, ok: bool)
    requires DependenciesIn(mine, ok)
    ensures mine != [] && AllEarly(mine)
    ensures !ok ==> StoppedInstalling(mine, "")
  {
  }

  /** Installing only prepares; it works exactly when nothing it needs failed last; and then the version is
      installed. */
  lemma {:induction false} InstallShows(mine: seq<Event>, target: string, installed: bool, builder: bool, ok: bool)
    requires InstallIn(mine, target, installed, builder, ok)
    ensures mine != [] && AllPreparatory(mine)
    ensures ok ==> SeenInstalled(mine, target)
    ensures !ok <==> StoppedInstalling(mine, target)
    ensures ok ==> InstallsIn(Programs(mine), target, installed, builder)
  {
    if !ok && DependenciesIn(mine, false) {
      DependenciesShow(mine, false);
    } else {
      var needed, signing, rebuilds, staged :|
        && DependenciesIn(needed, true) && SigningIn(signing, rebuilds)
        && StagedIn(staged, target, installed, builder, ok)
        && mine == needed + signing + staged;
      DependenciesShow(needed, true);
      SigningShows(signing, rebuilds);
      EarlyThenStaged(needed + signing, staged, target, installed, builder, ok);
    }
  }

  lemma {:induction false} EarlyThenStaged(early: seq<Event>, staged: seq<Event>, target: string, installed: bool,
                                           builder: bool, ok: bool)
    requires AllEarly(early) && StagedIn(staged, target, installed, builder, ok)
    ensures var mine := early + staged;
            && mine != [] && AllPreparatory(mine) && (ok ==> SeenInstalled(mine, target))
            && (!ok <==> StoppedInstalling(mine, target))
            && (ok ==> InstallsIn(Programs(mine), target, installed, builder))
  {
    var mine := early + staged;
    StagedShows(staged, target, installed, builder, ok);
    assert mine[|mine| - 1] == staged[|staged| - 1];
    if ok {
      InstalledLater(early, staged, target);
      EarlyThenStagedPrograms(early, staged, target, installed, builder);
    }
  }

  lemma {:induction false} EarlyThenStagedPrograms(early: seq<Event>, staged: seq<Event>, target: string,
                                                   installed: bool, builder: bool)
    requires AllEarly(early) && StagedIn(staged, target, installed, builder, true)
    ensures InstallsIn(Programs(early + staged), target, installed, builder)
  {
    StagedPrograms(staged, target, installed, builder);
    EarlyPrograms(early);
    ProgramsConcat(early, staged);
    Regrouped(Programs(early), [CopySources], BuildPrograms(target, installed), InitramfsPrograms(builder));
  }

  lemma Regrouped(a: seq<Command>, b: seq<Command>, c: seq<Command>, d: seq<Command>)
    ensures a + (b + c + d) == a + b + c + d
  {
  }

  lemma InstalledLater(early: seq<Event>, late: seq<Event>, version: string)
    requires SeenInstalled(late, version)
    ensures SeenInstalled(early + late, version)
  {
    var k :| 0 <= k < |late| &&
             (late[k] == Asked(VersionInstalled(version), true) || late[k] == Ran(DkmsInstall(version), true));
    assert (early + late)[|early| + k] == late[k];
  }

  lemma {:induction false} StagedShows(mine: seq<Event>, target: string, installed: bool, builder: bool, ok: bool)
    requires StagedIn(mine, target, installed, builder, ok)
    ensures mine != [] && AllPreparatory(mine)
    ensures ok ==> SeenInstalled(mine, target)
    ensures !ok <==> StoppedInstalling(mine, target)
  {
    if mine == [Ran(CopySources, false)] {
      assert mine[0] != Ran(CopySources, true);
    } else {
      var build, built, image :| StagedFrom(mine, target, installed, builder, ok, build, built, image);
      BuildShows(build, target, installed, built);
      PreparatoryConcat([Ran(CopySources, true)], build);
      PreparatoryConcat([Ran(CopySources, true)] + build, image);
      assert mine[|mine| - 1] == if image != [] then image[|image| - 1] else build[|build| - 1];
      if built {
        InstalledLater([Ran(CopySources, true)], build, target);
        StillThere([Ran(CopySources, true)] + build, image, target);
      }
    }
  }

  lemma StillThere(early: seq<Event>, late: seq<Event>, version: string)
    requires SeenInstalled(early, version)
    ensures SeenInstalled(early + late, version)
  {
    var k :| 0 <= k < |early| &&
             (early[k] == Asked(VersionInstalled(version), true) || early[k] == Ran(DkmsInstall(version), true));
    assert (early + late)[k] == early[k];
  }

  lemma BuildShows(mine: seq<Event>, version: string, installed: bool, ok: bool)
    requires BuildIn(mine, version, installed, ok)
    ensures mine != [] && AllPreparatory(mine)
    ensures var last := mine[|mine| - 1];
            if ok then last == Asked(VersionInstalled(version), true) || last == Ran(DkmsInstall(version), true)
            else last == Ran(DkmsBuild(version), false) || last == Ran(DkmsInstall(version), false)
  {
  }

  lemma {:induction false} StagedPrograms(mine: seq<Event>, target: string, installed: bool, builder: bool)
    requires StagedIn(mine, target, installed, builder, true)
    ensures Programs(mine) == [CopySources] + BuildPrograms(target, installed) + InitramfsPrograms(builder)
  {
    var copied := Ran(CopySources, true);
    var build, built, image :| StagedFrom(mine, target, installed, builder, true, build, built, image);
    BuildRuns(build, target, installed);
    ProgramsConcat([copied] + build, image);
    ProgramsConcat([copied], build);
    ProgramsOf(copied, copied, copied, copied);
    ProgramsOf(Ran(RebuildInitramfs, true), copied, copied, copied);
  }

  lemma {:induction false} BuildRuns(mine: seq<Event>, version: string, installed: bool)
    requires BuildIn(mine, version, installed, true)
    ensures Programs(mine) == BuildPrograms(version, installed)
  {
    if installed {
      ProgramsOf(mine[0], mine[0], mine[0], mine[0]);
    } else {
      ProgramsOf(mine[0], mine[1], mine[2], mine[3]);
    }
  }

  lemma {:induction false} InstallingOnlyPrepares(log: seq<Event>, mine: seq<Event>, target: string, installed: bool,
                                                  builder: bool, ok: bool)
    requires InstallIn(mine, target, installed, builder, ok)
    ensures Prepares(log, log + mine) && (ok ==> SeenInstalled(log + mine, target))
    ensures LoadedNow(log + mine) == LoadedNow(log) && DeviceNow(log + mine) == DeviceNow(log)
    ensures WouldNotUnload(log + mine) == WouldNotUnload(log) && Tried(log + mine) == Tried(log)
  {
    InstallShows(mine, target, installed, builder, ok);
    PreparatoryPrepares(log, mine);
    PreparingKeeps(log, log + mine);
    if ok {
      InstalledLater(log, mine, target);
    }
  }

  /* What a verification and a swap come to. */

  /** A verification that works has seen the target running. When it does not, what is left loaded, and whether on its
      device, is as far as it got. */
  lemma {:induction false} VerifyShows(log: seq<Event>, mine: seq<Event>, target: string, ok: bool)
    requires VerifyIn(mine, target, ok) && LoadedNow(log).None? && !DeviceNow(log)
    ensures mine != [] && VerifyShown(log + mine, target, ok)
  {
    if mine == [Asked(DevicePresent, false)] {
      StateAppend(log, mine[0]);
      QuietEnd(log, mine[0]);
    } else {
      assert |mine| == 3 || |mine| == 4;
      if |mine| == 3 {
        AnotherShows(log, mine, mine[2].loaded);
      } else {
        TargetShows(log, mine, target, ok);
      }
    }
  }

  ghost predicate VerifyShown(after: seq<Event>, target: string, ok: bool) {
    && (ok <==> EndsWith(after, Asked(ServicesVerified, true)))
    && (ok ==> SeenRunning(after, target) && LoadedNow(after) == Some(target) && DeviceNow(after))
    && (!ok ==> (LoadedNow(after).Some? <==> EndsUnverified(after)))
    && (!ok ==> (DeviceNow(after) <==> EndsPastTheDevice(after)))
    && !EndsWithoutServices(after) && !EndsNextToLoaded(after)
  }

  lemma {:induction false} AnotherShows(log: seq<Event>, mine: seq<Event>, loaded: Option<string>)
    requires |mine| == 3 && mine[0] == Asked(DevicePresent, true) && mine[2] == SawLoaded(loaded)
    requires mine[1].Ran? && mine[1].command.SettleDesktop?
    ensures var after := log + mine;
            && LoadedNow(after) == loaded && DeviceNow(after) && EndsWith(after, SawLoaded(loaded))
            && (LoadedNow(after).Some? <==> EndsUnverified(after))
            && !EndsWithoutServices(after) && !EndsNextToLoaded(after) && EndsPastTheDevice(after)
  {
    StateAfterThree(log, mine[0], mine[1], mine[2]);
    assert mine == [mine[0], mine[1], mine[2]];
    assert EndsWith(log + mine, SawLoaded(loaded));
  }

  lemma {:induction false} TargetShows(log: seq<Event>, mine: seq<Event>, target: string, ok: bool)
    requires |mine| == 4 && mine[0] == Asked(DevicePresent, true) && mine[2] == SawLoaded(Some(target))
    requires mine[1].Ran? && mine[1].command.SettleDesktop? && mine[3] == Asked(ServicesVerified, ok)
    ensures VerifyShown(log + mine, target, ok)
  {
    var three := log + [mine[0], mine[1], mine[2]];
    StateAfterThree(log, mine[0], mine[1], mine[2]);
    StateAppend(three, mine[3]);
    Further(log, [mine[0], mine[1], mine[2]], [mine[3]]);
    assert mine == [mine[0], mine[1], mine[2]] + [mine[3]];
    FoundRunning(log, target, three + [mine[3]]);
    assert EndsWith(log + mine, Asked(ServicesVerified, ok));
  }

  /** A version found loaded on a device that is there is seen running. */
  lemma FoundRunning(log: seq<Event>, version: string, after: seq<Event>)
    requires |log| + 3 <= |after| && Undisturbed(after, |log|)
    requires after[|log|] == Asked(DevicePresent, true) && after[|log| + 2] == SawLoaded(Some(version))
    ensures SeenRunning(after, version)
  {
  }

  /** A look at the device and at what is loaded, with a program in between that touches neither. */
  lemma {:induction false} StateAfterThree(log: seq<Event>, a: Event, b: Event, c: Event)
    requires a == Asked(DevicePresent, true) && b.Ran? && b.command.SettleDesktop? && c.SawLoaded?
    ensures var after := log + [a, b, c];
            LoadedNow(after) == c.loaded && DeviceNow(after) && WouldNotUnload(after) == WouldNotUnload(log)
  {
    StateAppend(log, a);
    StateAppend(log + [a], b);
    StateAppend(log + [a] + [b], c);
    assert log + [a] + [b] + [c] == log + [a, b, c];
  }

  /** After a log that shows nothing loaded, an answer does not follow on a version found loaded. */
  lemma QuietEnd(log: seq<Event>, event: Event)
    requires LoadedNow(log).None?
    ensures !EndsNextToLoaded(log + [event])
  {
    if log != [] {
      assert (log + [event])[|log| - 1] == log[|log| - 1];
    }
  }

  /** Where nothing is loaded, the log does not end next to a version found loaded. */
  lemma NothingFoundYet(log: seq<Event>)
    ensures EndsNextToLoaded(log) ==> LoadedNow(log).Some?
  {
    if EndsNextToLoaded(log) {
      var front := log[..|log| - 1];
      assert front[|front| - 1] == log[|log| - 2];
    }
  }

  /* What is removed. */

  lemma RemovesConcat(early: seq<Event>, late: seq<Event>, version: string)
    ensures RemovesOnly(early, version) && RemovesOnly(late, version) ==> RemovesOnly(early + late, version)
    ensures RemovesNothing(early) && RemovesNothing(late) ==> RemovesNothing(early + late)
    ensures RemovesNothing(early) ==> RemovesOnly(early, version)
  {
    var mine := early + late;
    assert forall k :: 0 <= k < |mine| ==> mine[k] == if k < |early| then early[k] else late[k - |early|];
  }

  lemma PreparingRemovesNothing(mine: seq<Event>)
    requires AllPreparatory(mine)
    ensures RemovesNothing(mine)
  {
  }

  /* What a swap and an attempt come to. */

  /** What an attempt that failed leaves behind: the device seen only by a verification, and, where nothing was
      loaded to begin with, a version loaded only when that is what it ends on. */
  ghost predicate FailedFrom(log: seq<Event>, after: seq<Event>) {
    && (DeviceNow(after) <==> EndsPastTheDevice(after))
    && (LoadedNow(log).None? ==> (LoadedNow(after).Some? <==> EndsUnverified(after)) && !EndsNextToLoaded(after))
  }

  /** What an attempt comes to, as the log shows it. */
  ghost predicate AttemptShown(log: seq<Event>, after: seq<Event>, target: string, attempt: Attempt) {
    && (attempt == Succeeded ==>
          SeenRunning(after, target) && LoadedNow(after) == Some(target) && DeviceNow(after))
    && (attempt == MustReboot ==> SeenInUse(after))
    && (attempt == AttemptFailed ==> FailedFrom(log, after))
    && !EndsWithoutServices(after)
  }

  lemma {:induction false} ReloadShows(log: seq<Event>, gone: bool, listed: bool, loaded: bool)
    requires !DeviceNow(log) && (gone || !listed)
    ensures var after := log + ([Ran(UnloadModule, gone), Asked(ModuleListed, listed)] + [Ran(LoadModule, loaded)]);
            LoadedNow(after).None? && !DeviceNow(after) && EndsWith(after, Ran(LoadModule, loaded))
  {
    var a, b, c := Ran(UnloadModule, gone), Asked(ModuleListed, listed), Ran(LoadModule, loaded);
    StateAppend(log, a);
    StateAppend(log + [a], b);
    StateAppend(log + [a] + [b], c);
    assert log + [a] + [b] + [c] == log + ([a, b] + [c]);
  }

  lemma {:induction false} SwapShows(log: seq<Event>, mine: seq<Event>, target: string, attempt: Attempt)
    requires SwapIn(mine, target, attempt) && !DeviceNow(log)
    ensures mine != [] && RemovesNothing(mine) && AttemptShown(log, log + mine, target, attempt)
  {
    var after := log + mine;
    if mine == [Ran(UnloadModule, false), Asked(ModuleListed, true)] {
      assert after[|log|] == mine[0] && after[|log| + 1] == mine[1];
    } else {
      var gone, listed :| (gone || !listed) && LoadsIn(mine, target, attempt, gone, listed);
      LoadShows(log, mine, target, attempt, gone, listed);
    }
  }

  lemma {:induction false} LoadShows(log: seq<Event>, mine: seq<Event>, target: string, attempt: Attempt, gone: bool,
                                     listed: bool)
    requires LoadsIn(mine, target, attempt, gone, listed) && (gone || !listed) && !DeviceNow(log)
    ensures mine != [] && RemovesNothing(mine) && attempt != MustReboot
    ensures AttemptShown(log, log + mine, target, attempt)
  {
    var unloaded := [Ran(UnloadModule, gone), Asked(ModuleListed, listed)];
    if attempt == AttemptFailed && mine == unloaded + [Ran(LoadModule, false)] {
      ReloadShows(log, gone, listed, false);
      NothingFoundYet(log + mine);
    } else {
      var look :| && attempt != MustReboot && VerifyIn(look, target, attempt == Succeeded)
                  && mine == unloaded + [Ran(LoadModule, true)] + look;
      var loading := unloaded + [Ran(LoadModule, true)];
      ReloadShows(log, gone, listed, true);
      VerifyShows(log + loading, look, target, attempt == Succeeded);
      Further(log, loading, look);
      LooksRemoveNothing(look, target, attempt == Succeeded);
      RemovesConcat(loading, look, target);
    }
  }

  lemma LooksRemoveNothing(look: seq<Event>, target: string, ok: bool)
    requires VerifyIn(look, target, ok)
    ensures RemovesNothing(look)
  {
  }

  /** An attempt that succeeds has seen the target running, installed and nothing removed; one that needs a reboot has
      seen the module in use; and one that fails leaves what its last look says. */
  lemma {:induction false} TryShows(log: seq<Event>, mine: seq<Event>, target: string, builder: bool, attempt: Attempt)
    requires TryIn(mine, target, builder, attempt) && !DeviceNow(log)
    ensures mine != [] && RemovesNothing(mine) && AttemptShown(log, log + mine, target, attempt)
    ensures attempt != AttemptFailed ==> SeenInstalled(log + mine, target)
  {
    if installed :| attempt == AttemptFailed && InstallIn(mine, target, installed, builder, false) {
      InstallShows(mine, target, installed, builder, false);
      PreparingRemovesNothing(mine);
      InstallingOnlyPrepares(log, mine, target, installed, builder, false);
      FailedInstalling(log, mine, target);
    } else {
      var install, installed, swap :|
        && InstallIn(install, target, installed, builder, true) && SwapIn(swap, target, attempt)
        && mine == install + swap;
      InstallShows(install, target, installed, builder, true);
      PreparingRemovesNothing(install);
      InstallingOnlyPrepares(log, install, target, installed, builder, true);
      SwapShows(log + install, swap, target, attempt);
      RemovesConcat(install, swap, target);
      Further(log, install, swap);
      StillThere(log + install, swap, target);
    }
  }

  lemma {:induction false} FailedInstalling(log: seq<Event>, mine: seq<Event>, target: string)
    requires mine != [] && StoppedInstalling(mine, target)
    requires LoadedNow(log + mine) == LoadedNow(log) && DeviceNow(log + mine) == DeviceNow(log) == false
    ensures AttemptShown(log, log + mine, target, AttemptFailed)
  {
    var after := log + mine;
    assert after[|after| - 1] == mine[|mine| - 1];
    NothingFoundYet(after);
  }

  /* What the services come to. */

  predicate IsIdle(event: Event) {
    !EndsLoaded(event) && !EndsDevice(event) && !Disturbs(event)
  }

  lemma {:induction false} IdleKeeps(log: seq<Event>, mine: seq<Event>)
    requires forall i :: 0 <= i < |mine| ==> IsIdle(mine[i])
    ensures var after := log + mine;
            && LoadedNow(after) == LoadedNow(log) && DeviceNow(after) == DeviceNow(log)
            && WouldNotUnload(after) == WouldNotUnload(log) && Undisturbed(after, |log|)
  {
    if mine == [] {
      assert log + mine == log;
    } else {
      var front := mine[..|mine| - 1];
      IdleKeeps(log, front);
      StateAppend(log + front, mine[|mine| - 1]);
      assert log + front + [mine[|mine| - 1]] == log + mine;
    }
  }

  /** Putting the services in place fails exactly when it ends on one of its programs that failed, and touches nothing
      that is loaded. */
  lemma {:induction false} ServicesShow(log: seq<Event>, mine: seq<Event>, ok: bool)
    requires ServicesIn(mine, ok)
    ensures var after := log + mine;
            && mine != [] && RemovesNothing(mine) && (!ok <==> EndsWithoutServices(after))
            && LoadedNow(after) == LoadedNow(log) && DeviceNow(after) == DeviceNow(log) && Undisturbed(after, |log|)
  {
    IdleKeeps(log, mine);
    assert (log + mine)[|log + mine| - 1] == mine[|mine| - 1];
  }

  /* What a rollback comes to. */

  /** A version is seen running only by a look at its device since the module was last changed. */
  lemma NotRunningSince(log: seq<Event>, changed: nat, version: string)
    requires changed < |log| && Disturbs(log[changed])
    requires NoDeviceSeen(log, changed) || forall k :: changed <= k < |log| ==> log[k] != SawLoaded(Some(version))
    ensures !SeenRunning(log, version)
  {
  }

  /** Unloading, removing and loading: what is left of what was known. */
  lemma {:induction false} SwapBackShows(log: seq<Event>, attempted: string, gone: bool, removed: bool, loaded: bool,
                                         image: seq<Event>, builder: bool, made: bool)
    requires InitramfsIn(image, builder, made)
    ensures var mine := SwapBackEvents(attempted, gone, removed, loaded) + image;
            var after := log + mine;
            && (DeviceNow(after) <==> DeviceNow(log) && !gone)
            && (WouldNotUnload(after) <==> EndsPastTheDevice(log) && !gone)
            && RemovesOnly(mine, attempted) && SeenRemoved(after, attempted)
            && after[|log| + 2] == Ran(LoadModule, loaded) && Undisturbed(after, |log| + 3)
            && NoDeviceSeen(after, |log| + 2) && |mine| >= 3
            && forall k :: |log| + 2 <= k < |after| ==> !after[k].SawLoaded?
  {
    var a, b, c := Ran(UnloadModule, gone), Ran(DkmsRemove(attempted), removed), Ran(LoadModule, loaded);
    StateAppend(log, a);
    StateAppend(log + [a], b);
    StateAppend(log + [a] + [b], c);
    assert log + [a] + [b] + [c] == log + [a, b, c];
    IdleKeeps(log + [a, b, c], image);
    Further(log, [a, b, c], image);
    assert (log + [a, b, c] + image)[|log| + 1] == b && (log + [a, b, c] + image)[|log| + 2] == c;
  }

  /** A look for the version wanted back: it is seen running exactly when that is what was found. */
  lemma {:induction false} RestoredShows(log: seq<Event>, changed: nat, mine: seq<Event>, previous: string,
                                         restored: bool)
    requires RestoredIn(mine, previous, restored)
    requires changed < |log| && Disturbs(log[changed]) && Undisturbed(log, changed + 1) && NoDeviceSeen(log, changed)
    requires forall k :: changed <= k < |log| ==> !log[k].SawLoaded?
    ensures var after := log + mine;
            && RemovesNothing(mine) && WouldNotUnload(after) == WouldNotUnload(log)
            && (restored <==> SeenRunning(after, previous))
            && (restored ==> LoadedNow(after) == Some(previous) && DeviceNow(after))
            && (!restored ==> (LoadedNow(after).Some? <==> EndsUnverified(after) || EndsNextToLoaded(after)))
            && (!restored ==> (LeftRunning(after) <==> EndsUnverified(after) && DeviceNow(log)))
            && (!restored ==> !EndsWith(after, SawLoaded(Some(previous)))) && !EndsWithoutServices(after)
  {
    if |mine| == 1 {
      StateAppend(log, mine[0]);
      assert mine == [mine[0]];
      NothingFoundYet(log + mine);
      NotRunningSince(log + mine, changed, previous);
    } else if |mine| == 2 {
      StateAppend(log, mine[0]);
      StateAppend(log + [mine[0]], mine[1]);
      assert log + mine == log + [mine[0]] + [mine[1]];
      NotRunningSince(log + mine, changed, previous);
    } else {
      StateAppend(log, mine[0]);
      StateAppend(log + [mine[0]], mine[1]);
      StateAppend(log + [mine[0]] + [mine[1]], mine[2]);
      assert log + mine == log + [mine[0]] + [mine[1]] + [mine[2]];
      SeenAgain(log, mine[0], mine[1], mine[2], previous, changed);
    }
  }

  lemma {:induction false} SeenAgain(log: seq<Event>, a: Event, b: Event, c: Event, version: string, changed: nat)
    requires changed < |log| && Disturbs(log[changed]) && NoDeviceSeen(log, changed)
    requires !Disturbs(a) && b == SawLoaded(Some(version)) && c.Asked? && c.question.DevicePresent?
    requires a.Asked? && a.question.ModuleListed?
    ensures SeenRunning(log + [a] + [b] + [c], version) <==> c.yes
  {
    var after := log + [a] + [b] + [c];
    assert after[|log| + 1] == b && after[|log| + 2] == c;
    if !c.yes {
      assert after[changed] == log[changed];
      NotRunningSince(after, changed, version);
    }
  }

  /** A rollback removes the attempted version and nothing else; the version wanted back is seen running exactly
      when the rollback says so. When it does not, some version was left loaded exactly when the last look found
      one, and left loaded on its device exactly when, besides, the attempt had found the device and the module
      would not go. */
  lemma {:induction false} RollbackShows(log: seq<Event>, mine: seq<Event>, previous: string, attempted: string,
                                         builder: bool, gone: bool, restored: bool)
    requires RollbackIn(mine, previous, attempted, builder, gone, restored)
    requires DeviceNow(log) <==> EndsPastTheDevice(log)
    ensures var after := log + mine;
            && RemovesOnly(mine, attempted) && SeenRemoved(after, attempted) && !EndsWithoutServices(after)
            && (restored <==> SeenRunning(after, previous))
            && (restored ==> LoadedNow(after) == Some(previous) && DeviceNow(after))
            && (!restored ==> (LoadedNow(after).Some? <==> EndsUnverified(after) || EndsNextToLoaded(after)))
            && (!restored ==> (LeftRunning(after) <==> EndsUnverified(after) && WouldNotUnload(after)))
            && (!restored ==> !EndsWith(after, SawLoaded(Some(previous))))
            && (WouldNotUnload(after) <==> EndsPastTheDevice(log) && !gone)
  {
    var removed, loaded, image, made, look :|
      && InitramfsIn(image, builder, made) && RestoredIn(look, previous, restored)
      && mine == SwapBackEvents(attempted, gone, removed, loaded) + image + look;
    var swapped := SwapBackEvents(attempted, gone, removed, loaded) + image;
    SwapBackShows(log, attempted, gone, removed, loaded, image, builder, made);
    RestoredShows(log + swapped, |log| + 2, look, previous, restored);
    Further(log, swapped, look);
    RemovesConcat(swapped, look, attempted);
    RemovesConcat(look, [], attempted);
    var k :| 0 <= k < |log + swapped| && (log + swapped)[k].Ran? && (log + swapped)[k].command == DkmsRemove(attempted);
    assert (log + mine)[k] == (log + swapped)[k];
  }

  /* What a whole update comes to. */

  /** What may be said of an update from its outcome. `previous` is what a rollback would return to. */
  ghost predicate Shown(log: seq<Event>, previous: Option<string>, target: string, outcome: Outcome, verified: bool) {
    && RemovesOnly(log, target)
    && (verified ==> SeenRunning(log, target) && SeenInstalled(log, target) && RemovesNothing(log))
    // An update that verified fails exactly when putting its services in place did.
    && (verified && outcome == UpdateFailed <==> EndsWithoutServices(log))
    && (verified && outcome != UpdateFailed <==> outcome == Updated)
    && (outcome == RolledBack ==>
          previous.Some? && SeenRunning(log, previous.value) && SeenRemoved(log, target))
    && (outcome == RebootRequired ==> SeenInUse(log) && SeenInstalled(log, target) && RemovesNothing(log))
    && (previous.None? ==> RemovesNothing(log) && outcome != RolledBack)
  }

  /** What a failed update leaves loaded, and on its device. */
  ghost predicate LeftBehind(log: seq<Event>, previous: Option<string>) {
    && (LoadedNow(log).Some? <==> EndsWithoutServices(log) || EndsUnverified(log) || EndsNextToLoaded(log))
    && (LeftRunning(log) <==>
        EndsWithoutServices(log) || (EndsUnverified(log) && (previous.None? || WouldNotUnload(log))))
  }

  lemma {:induction false} UpdateShows(log: seq<Event>, mine: seq<Event>, previous: Option<string>, target: string,
                                       builder: bool, outcome: Outcome, verified: bool)
    requires AttemptIn(mine, previous, target, builder, outcome, verified)
    requires OnlyLooked(log, 0) && !DeviceNow(log) && (LoadedNow(log).Some? ==> previous.Some?)
    ensures Shown(log + mine, previous, target, outcome, verified)
    ensures outcome == UpdateFailed ==> LeftBehind(log + mine, previous)
  {
    var tried, attempt, rest :|
      && TryIn(tried, target, builder, attempt) && mine == tried + rest
      && match attempt
         case Succeeded =>
           verified && outcome in {Updated, UpdateFailed} && ServicesIn(rest, outcome == Updated)
         case MustReboot => !verified && outcome == RebootRequired && rest == []
         case AttemptFailed =>
           && !verified && outcome in {RolledBack, UpdateFailed}
           && if previous.None? then outcome == UpdateFailed && rest == []
              else RollsBackIn(rest, previous.value, target, builder, outcome == RolledBack);
    TryShows(log, tried, target, builder, attempt);
    RemovesConcat(log, tried, target);
    Further(log, tried, rest);
    match attempt
    case Succeeded => ServedShows(log + tried, rest, previous, target, outcome);
    case MustReboot => assert log + tried + [] == log + tried;
    case AttemptFailed =>
      if previous.None? {
        assert log + tried + [] == log + tried;
      } else {
        RolledShows(log + tried, rest, previous.value, target, builder, outcome);
      }
  }

  lemma {:induction false} ServedShows(log: seq<Event>, rest: seq<Event>, previous: Option<string>, target: string,
                                       outcome: Outcome)
    requires ServicesIn(rest, outcome == Updated) && outcome in {Updated, UpdateFailed}
    requires SeenRunning(log, target) && LoadedNow(log) == Some(target) && DeviceNow(log) && SeenInstalled(log, target)
    requires RemovesNothing(log)
    ensures Shown(log + rest, previous, target, outcome, true)
    ensures outcome == UpdateFailed ==> LeftBehind(log + rest, previous)
  {
    ServicesShow(log, rest, outcome == Updated);
    RemovesConcat(log, rest, target);
    RemovesConcat(log + rest, [], target);
    StillThere(log, rest, target);
    StillRunning(log, log + rest, target);
  }

  /** Programs that do not touch the module leave what was seen running as it was. */
  lemma StillRunning(log: seq<Event>, after: seq<Event>, version: string)
    requires log <= after && SeenRunning(log, version) && Undisturbed(after, |log|)
    ensures SeenRunning(after, version)
  {
    var device, driver :|
      && 0 <= device < |log| && 0 <= driver < |log|
      && log[device] == Asked(DevicePresent, true) && log[driver] == SawLoaded(Some(version))
      && Undisturbed(log, device) && Undisturbed(log, driver);
    assert forall k :: 0 <= k < |log| ==> after[k] == log[k];
    assert after[device] == Asked(DevicePresent, true) && after[driver] == SawLoaded(Some(version));
  }

  lemma {:induction false} RolledShows(log: seq<Event>, rest: seq<Event>, previous: string, target: string,
                                       builder: bool,
                                       outcome: Outcome)
    requires RollsBackIn(rest, previous, target, builder, outcome == RolledBack) &&
               outcome in {RolledBack, UpdateFailed}
    requires RemovesNothing(log) && (DeviceNow(log) <==> EndsPastTheDevice(log))
    ensures Shown(log + rest, Some(previous), target, outcome, false)
    ensures outcome == UpdateFailed ==> LeftBehind(log + rest, Some(previous))
  {
    var gone :| RollbackIn(rest, previous, target, builder, gone, outcome == RolledBack);
    RollbackShows(log, rest, previous, target, builder, gone, outcome == RolledBack);
    RemovesConcat(log, [], target);
    RemovesConcat(log, rest, target);
  }

  /* Which programs an update runs. */

  ghost predicate NoRemoval(programs: seq<Command>) {
    forall command :: command in programs ==> !command.DkmsRemove?
  }

  lemma {:induction false} NothingRemoved(mine: seq<Event>)
    requires RemovesNothing(mine)
    ensures NoRemoval(Programs(mine))
  {
    if mine != [] {
      NothingRemoved(mine[..|mine| - 1]);
    }
  }

  /** The services' programs: the account, what is to be installed, and the start. */
  predicate AreServices(programs: seq<Command>, ok: bool) {
    && (programs <= [EnsureServiceUser, InstallServices, StartServices] ||
        programs == [EnsureServiceUser, StartServices])
    && (ok && programs != [] ==> programs[|programs| - 1] == StartServices)
  }

  lemma {:induction false} ServicesPrograms(mine: seq<Event>, ok: bool)
    requires ServicesIn(mine, ok)
    ensures AreServices(Programs(mine), ok)
  {
    var a := mine[0];
    if |mine| == 1 {
      ProgramsOf(a, a, a, a);
    } else if |mine| == 2 {
      ProgramsOf(a, mine[1], a, a);
      assert Programs(mine) == [EnsureServiceUser];
    } else if |mine| == 4 {
      ProgramsOf(a, mine[1], mine[2], mine[3]);
      assert Programs(mine) == [EnsureServiceUser, mine[3].command];
    } else {
      AllServicesPrograms(mine);
    }
  }

  lemma {:induction false} AllServicesPrograms(mine: seq<Event>)
    requires ServicesIn(mine, true) || ServicesIn(mine, false)
    requires |mine| > 4
    ensures Programs(mine) == [EnsureServiceUser, InstallServices, StartServices]
  {
    ProgramsOf(mine[0], mine[1], mine[2], mine[3]);
    ProgramsAppend([mine[0], mine[1], mine[2], mine[3]], mine[4]);
    assert mine == [mine[0], mine[1], mine[2], mine[3]] + [mine[4]];
  }

  lemma {:induction false} VerifyPrograms(look: seq<Event>, target: string)
    requires VerifyIn(look, target, true)
    ensures Programs(look) == [SettleDesktop]
  {
    ProgramsOf(look[0], look[1], look[2], look[3]);
  }

  lemma {:induction false} LoadingPrograms(gone: bool, listed: bool, loaded: bool)
    ensures Programs([Ran(UnloadModule, gone), Asked(ModuleListed, listed)] + [Ran(LoadModule, loaded)]) ==
            [UnloadModule, LoadModule]
  {
    var a, b, c := Ran(UnloadModule, gone), Asked(ModuleListed, listed), Ran(LoadModule, loaded);
    ProgramsOf(a, b, c, a);
    assert [a, b] + [c] == [a, b, c];
  }

  lemma {:induction false} SwapPrograms(mine: seq<Event>, target: string, attempt: Attempt)
    requires SwapIn(mine, target, attempt) && attempt != AttemptFailed
    ensures Programs(mine) == if attempt == MustReboot then [UnloadModule]
              else [UnloadModule, LoadModule, SettleDesktop]
  {
    if attempt == MustReboot {
      ProgramsOf(mine[0], mine[1], mine[0], mine[0]);
    } else {
      var gone, listed :| (gone || !listed) && LoadsIn(mine, target, attempt, gone, listed);
      var loading := [Ran(UnloadModule, gone), Asked(ModuleListed, listed)] + [Ran(LoadModule, true)];
      var look :| VerifyIn(look, target, true) && mine == loading + look;
      LoadingPrograms(gone, listed, true);
      VerifyPrograms(look, target);
      ProgramsConcat(loading, look);
    }
  }

  lemma {:induction false} SwapBackPrograms(attempted: string, gone: bool, removed: bool, loaded: bool)
    ensures Programs(SwapBackEvents(attempted, gone, removed, loaded)) ==
            [UnloadModule, DkmsRemove(attempted), LoadModule]
  {
    var a, b, c := Ran(UnloadModule, gone), Ran(DkmsRemove(attempted), removed), Ran(LoadModule, loaded);
    ProgramsOf(a, b, c, a);
  }

  lemma {:induction false} ImagePrograms(image: seq<Event>, builder: bool, made: bool)
    requires InitramfsIn(image, builder, made)
    ensures Programs(image) == InitramfsPrograms(builder)
  {
    var a := Ran(RebuildInitramfs, made);
    ProgramsOf(a, a, a, a);
  }

  lemma {:induction false} RestoredPrograms(look: seq<Event>, previous: string, restored: bool)
    requires RestoredIn(look, previous, restored)
    ensures Programs(look) == []
  {
    NoPrograms(look);
  }

  lemma {:induction false} RollbackRuns(mine: seq<Event>, previous: string, attempted: string, builder: bool,
                                        restored: bool)
    requires RollsBackIn(mine, previous, attempted, builder, restored)
    ensures Programs(mine) == RollbackPrograms(attempted, builder)
  {
    var gone :| RollbackIn(mine, previous, attempted, builder, gone, restored);
    var removed, loaded, image, made, look :|
      && InitramfsIn(image, builder, made) && RestoredIn(look, previous, restored)
      && mine == SwapBackEvents(attempted, gone, removed, loaded) + image + look;
    SwapBackPrograms(attempted, gone, removed, loaded);
    ImagePrograms(image, builder, made);
    RestoredPrograms(look, previous, restored);
    ProgramsConcat(SwapBackEvents(attempted, gone, removed, loaded) + image, look);
    ProgramsConcat(SwapBackEvents(attempted, gone, removed, loaded), image);
    assert Programs(mine) == RollbackPrograms(attempted, builder) + [];
  }

  /** The programs an update runs, in order. One that gets through, or stops for a reboot, has installed its target and
      swapped it in; one that failed, with a version to return to, ends with exactly the rollback's programs. */
  ghost predicate RunsInOrder(programs: seq<Command>, previous: Option<string>, target: string, builder: bool,
                              outcome: Outcome, verified: bool) {
    if verified then
      exists early, installed, services ::
        && InstallsIn(early, target, installed, builder) && AreServices(services, outcome == Updated)
        && programs == early + [UnloadModule, LoadModule, SettleDesktop] + services
    else if outcome == RebootRequired then
      exists early, installed :: InstallsIn(early, target, installed, builder) && programs == early + [UnloadModule]
    else if previous.None? then NoRemoval(programs)
    else exists early :: NoRemoval(early) && programs == early + RollbackPrograms(target, builder)
  }

  lemma {:induction false} UpdateRunsInOrder(mine: seq<Event>, previous: Option<string>, target: string, builder: bool,
                                             outcome: Outcome, verified: bool)
    requires AttemptIn(mine, previous, target, builder, outcome, verified)
    ensures RunsInOrder(Programs(mine), previous, target, builder, outcome, verified)
  {
    var tried, attempt, rest :|
      && TryIn(tried, target, builder, attempt) && mine == tried + rest
      && match attempt
         case Succeeded =>
           verified && outcome in {Updated, UpdateFailed} && ServicesIn(rest, outcome == Updated)
         case MustReboot => !verified && outcome == RebootRequired && rest == []
         case AttemptFailed =>
           && !verified && outcome in {RolledBack, UpdateFailed}
           && if previous.None? then outcome == UpdateFailed && rest == []
              else RollsBackIn(rest, previous.value, target, builder, outcome == RolledBack);
    TryShows([], tried, target, builder, attempt);
    NothingRemoved(tried);
    ProgramsConcat(tried, rest);
    if attempt == AttemptFailed {
      if previous.None? {
        assert tried + [] == tried;
      } else {
        RollbackRuns(rest, previous.value, target, builder, outcome == RolledBack);
      }
    } else {
      var early, installed := TriedPrograms(tried, target, builder, attempt);
      if attempt == Succeeded {
        ServicesPrograms(rest, outcome == Updated);
      } else {
        assert tried + [] == tried;
      }
    }
  }

  lemma {:induction false} TriedPrograms(tried: seq<Event>, target: string, builder: bool, attempt: Attempt)
    returns (early: seq<Command>, installed: bool)
    requires TryIn(tried, target, builder, attempt) && attempt != AttemptFailed
    ensures InstallsIn(early, target, installed, builder)
    ensures Programs(tried) ==
            early + if attempt == MustReboot then [UnloadModule] else [UnloadModule, LoadModule, SettleDesktop]
  {
    var install, installed', swap :|
      && InstallIn(install, target, installed', builder, true) && SwapIn(swap, target, attempt)
      && tried == install + swap;
    early, installed := Programs(install), installed';
    InstallShows(install, target, installed, builder, true);
    SwapPrograms(swap, target, attempt);
    ProgramsConcat(install, swap);
  }

  /* What is known before anything is run. */

  /** What is known of the guest when an update starts, or does not. */
  ghost predicate ShownBefore(log: seq<Event>, target: string, before: Option<InstalledVersions>) {
    && OnlyLooked(log, 0) && !DeviceNow(log) && !Tried(log) && !EndsUnverified(log) && !EndsWithoutServices(log)
    && (before.Some? ==> LoadedNow(log) == before.value.loaded && SawPayload(target) in log)
    && (before.None? ==> (LoadedNow(log).Some? <==> EndsNextToLoaded(log)))
  }

  /** Nothing is run, and what is found loaded is what is known to be loaded. */
  lemma {:induction false} PreparingShows(log: seq<Event>, target: string, builder: bool,
                                          before: Option<InstalledVersions>)
    requires PrepareIn(log, target, builder, before)
    ensures ShownBefore(log, target, before)
  {
    if before.None? && log == [Asked(GuestFactsReadable, false)] {
      assert log == [] + [log[0]];
      StateAppend([], log[0]);
    } else if payload :| before.None? && RefusedFrom(log, target, builder, payload) {
      FactsShow(builder, payload, target, false);
      NothingFoundYet(log);
    } else {
      var payload, versions, found :| LooksFrom(log, target, builder, before, payload, versions, found);
      LooksShow(log, target, builder, before, payload, versions, found);
    }
  }

  lemma {:induction false} LooksShow(log: seq<Event>, target: string, builder: bool, before: Option<InstalledVersions>,
                                     payload: seq<Event>, versions: seq<Event>, found: InstalledVersions)
    requires LooksFrom(log, target, builder, before, payload, versions, found)
    ensures ShownBefore(log, target, before)
  {
    FactsShow(builder, payload, target, true);
    LookedBefore(FactEvents(builder) + payload, versions, found, before.None?);
    assert SawPayload(target) in FactEvents(builder) + payload;
  }

  lemma {:induction false} FactsShow(builder: bool, payload: seq<Event>, target: string, ok: bool)
    requires PayloadIn(payload, target, ok)
    ensures var log := FactEvents(builder) + payload;
            && OnlyLooked(log, 0) && !DeviceNow(log) && !Tried(log) && LoadedNow(log).None?
            && !EndsUnverified(log) && !EndsWithoutServices(log) && (ok ==> SawPayload(target) in payload)
  {
    var facts := FactEvents(builder);
    PayloadShows(payload, target, ok);
    PreparatoryConcat(facts, payload);
    PreparatoryPrepares([], facts + payload);
    assert [] + (facts + payload) == facts + payload;
    PreparingKeeps([], facts + payload);
    assert (facts + payload)[|facts + payload| - 1] == payload[|payload| - 1];
  }

  lemma PayloadShows(payload: seq<Event>, target: string, ok: bool)
    requires PayloadIn(payload, target, ok)
    ensures payload != [] && AllPreparatory(payload) && OnlyLooked(payload, 0)
    ensures payload[|payload| - 1].Asked? && !payload[|payload| - 1].question.ServicesVerified?
    ensures ok ==> SawPayload(target) in payload
  {
    assert ok ==> payload[1] == SawPayload(target);
  }

  lemma {:induction false} VersionsShow(log: seq<Event>, versions: seq<Event>, found: InstalledVersions)
    requires VersionsIn(versions, found)
    ensures var after := log + versions;
            && LoadedNow(after) == found.loaded && DeviceNow(after) == DeviceNow(log)
            && (found.loaded.Some? <==> after[|after| - 1].SawLoaded? && after[|after| - 1].loaded.Some?)
  {
    StateAppend(log, versions[0]);
    StateAppend(log + [versions[0]], versions[1]);
    if |versions| == 2 {
      assert log + versions == log + [versions[0]] + [versions[1]];
    } else {
      StateAppend(log + [versions[0]] + [versions[1]], versions[2]);
      assert log + versions == log + [versions[0]] + [versions[1]] + [versions[2]];
    }
  }

  lemma LooksOnly(log: seq<Event>, versions: seq<Event>, found: InstalledVersions, stopping: bool)
    requires VersionsIn(versions, found) && OnlyLooked(log, 0) && !Tried(log)
    ensures var after := log + versions + [Asked(ShuttingDown, stopping)]; OnlyLooked(after, 0) && !Tried(after)
  {
  }

  lemma {:induction false} LookedBefore(log: seq<Event>, versions: seq<Event>, found: InstalledVersions, stopping: bool)
    requires VersionsIn(versions, found) && OnlyLooked(log, 0) && !DeviceNow(log) && !Tried(log) && LoadedNow(log).None?
    ensures var after := log + versions + [Asked(ShuttingDown, stopping)];
            && OnlyLooked(after, 0) && !DeviceNow(after) && !Tried(after) && LoadedNow(after) == found.loaded
            && !EndsUnverified(after) && !EndsWithoutServices(after)
            && (stopping ==> (LoadedNow(after).Some? <==> EndsNextToLoaded(after)))
  {
    VersionsShow(log, versions, found);
    LooksOnly(log, versions, found, stopping);
    StateAppend(log + versions, Asked(ShuttingDown, stopping));
    var after := log + versions + [Asked(ShuttingDown, stopping)];
    assert after[|after| - 2] == (log + versions)[|log + versions| - 1];
  }
}
