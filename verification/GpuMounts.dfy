/** Bringing the guest's mounts to what a GPU share manifest asks for.

    The mount table maps a path to what is mounted there, at most one mount to a path. What the kernel
    answers to a mount, an unmount, a directory or a read-back is an oracle's choice, call by call. The
    log keeps all of these with their answers, in order, and the table is what they have made of it.
 */
module GpuMounts {
  import opened Outcomes
  import opened GpuTargets
  import opened MountLog
  import MountInfo

  /** A share the mount table names, at its path. */
  datatype MountedShare = MountedShare(path: Path, share: string)

  /** What the kernel does: the mount table as it writes it out, absent when that cannot be read, and its answers. */
  datatype Oracle = Oracle(mountinfo: Option<seq<MountInfo.Entry>>, mkdir: nat -> bool, mount: nat -> bool,
                           readsBack: nat -> bool, unmount: nat -> bool)

  datatype MountState = Mounted | Refused | Failed

  datatype GpuMount = GpuMount(share: string, state: MountState, path: Option<Path>)

  datatype Step = Refuse(share: string, reason: Refusal)
                | Attach(share: string, path: Path, already: Option<string>)

  datatype Work = Work(shares: seq<Step>, stale: seq<Path>)

  const MOUNT_ATTEMPTS := 2

  /* Deciding. */

  /** The share of the first listed mount at a path. */
  function ShareAt(mounted: seq<MountedShare>, path: Path): Option<string> {
    if mounted == [] then None
    else if mounted[0].path == path then Some(mounted[0].share)
    else ShareAt(mounted[1..], path)
  }

  ghost predicate Wanted(planned: seq<Planned>, path: Path) {
    exists i :: 0 <= i < |planned| && planned[i].Mount? && planned[i].path == path
  }

  function StepOf(planned: Planned, mounted: seq<MountedShare>): Step {
    match planned
    case Refused(share, reason) => Refuse(share, reason)
    case Mount(share, path) => Attach(share, path, ShareAt(mounted, path))
  }

  /** What a plan comes to, given what is mounted: one step for each share, in
      order, and as stale exactly the managed mounts the manifest does not name. */
  method Reconcile(planned: seq<Planned>, mounted: seq<MountedShare>) returns (work: Work)
    ensures |work.shares| == |planned|
    ensures forall i :: 0 <= i < |planned| ==> work.shares[i] == StepOf(planned[i], mounted)
    ensures forall path :: path in work.stale <==>
              IsManaged(path) && !Wanted(planned, path) && exists j :: 0 <= j < |mounted| && mounted[j].path == path
  {
    var shares: seq<Step> := [];
    var wanted: seq<Path> := [];
    for n := 0 to |planned|
      invariant |shares| == n
      invariant forall i :: 0 <= i < n ==> shares[i] == StepOf(planned[i], mounted)
      invariant forall path :: path in wanted <==>
                               exists i :: 0 <= i < n && planned[i].Mount? && planned[i].path == path
    {
      if planned[n].Mount? {
        wanted := wanted + [planned[n].path];
      }
      shares := shares + [StepOf(planned[n], mounted)];
    }
    var stale: seq<Path> := [];
    for n := 0 to |mounted|
      invariant forall path :: path in stale <==>
                  IsManaged(path) && path !in wanted && exists j :: 0 <= j < n && mounted[j].path == path
    {
      if IsManaged(mounted[n].path) && mounted[n].path !in wanted {
        stale := stale + [mounted[n].path];
      }
    }
    work := Work(shares, stale);
  }

  /** What the merged userspace is made of, first found first. */
  function UserspaceLayers(attached: seq<Path>): seq<Path> {
    (if WSL_D3D12 in attached then [WSL_D3D12] else []) + (if WSL_HOST_LIB in attached then [WSL_HOST_LIB] else [])
  }

  predicate IsUserspaceHalf(path: Path) {
    path == WSL_D3D12 || path == WSL_HOST_LIB
  }

  function WithoutHalves(attached: seq<Path>): seq<Path> {
    if attached == [] then []
    else WithoutHalves(attached[..|attached| - 1]) +
         if IsUserspaceHalf(attached[|attached| - 1]) then [] else [attached[|attached| - 1]]
  }

  /** The layers are exactly the mounted halves of the userspace, Microsoft's libraries before the host's, whatever
      order they were mounted in; and what is not a layer is searched for itself. */
  lemma {:induction false} LayersAndLibraries(attached: seq<Path>, path: Path)
    ensures path in UserspaceLayers(attached) <==> path in attached && IsUserspaceHalf(path)
    ensures forall i, j :: 0 <= i < j < |UserspaceLayers(attached)| ==>
              UserspaceLayers(attached)[i] == WSL_D3D12 && UserspaceLayers(attached)[j] == WSL_HOST_LIB
    ensures path in WithoutHalves(attached) <==> path in attached && !IsUserspaceHalf(path)
  {
    HalvesAreLeftOut(attached, path);
    assert WSL_D3D12[3] != WSL_HOST_LIB[3];
  }

  lemma {:induction false} HalvesAreLeftOut(attached: seq<Path>, path: Path)
    ensures path in WithoutHalves(attached) <==> path in attached && !IsUserspaceHalf(path)
  {
    if attached != [] {
      HalvesAreLeftOut(attached[..|attached| - 1], path);
      assert attached == attached[..|attached| - 1] + [attached[|attached| - 1]];
    }
  }

  /** A listing of the table's 9p mounts, in whatever order. */
  ghost predicate Lists(mounted: seq<MountedShare>, table: Table) {
    && (forall i :: 0 <= i < |mounted| ==>
                    mounted[i].path in table && table[mounted[i].path] == NineP(mounted[i].share))
    && (forall path :: Carries9p(table, path) ==> exists i :: 0 <= i < |mounted| && mounted[i].path == path)
  }

  /** The components of an absolute path. */
  function Components(text: string): Path {
    WithoutEmpty(MountInfo.Split(text, '/'))
  }

  function WithoutEmpty(pieces: seq<string>): Path {
    if pieces == [] then []
    else (if pieces[0] == "" then [] else [pieces[0]]) + WithoutEmpty(pieces[1..])
  }

  /** A path's components are read back out of its text. */
  lemma {:induction false} ComponentsOfPath(path: Path)
    requires path != [] && forall i :: 0 <= i < |path| ==> path[i] != "" && '/' !in path[i]
    ensures Components("/" + MountInfo.Join(path, '/')) == path
  {
    var text := MountInfo.Join(path, '/');
    MountInfo.SplitUndoesJoin(path, '/');
    assert ("/" + text)[1..] == text;
    assert MountInfo.Split("/" + text, '/') == [""] + path;
    assert ([""] + path)[1..] == path;
    NothingEmpty(path);
  }

  lemma {:induction false} NothingEmpty(pieces: seq<string>)
    requires forall i :: 0 <= i < |pieces| ==> pieces[i] != ""
    ensures WithoutEmpty(pieces) == pieces
  {
    if pieces != [] {
      NothingEmpty(pieces[1..]);
    }
  }

  function Placed(parsed: seq<MountInfo.MountedShare>): (mounted: seq<MountedShare>)
    ensures |mounted| == |parsed|
    ensures forall i :: 0 <= i < |parsed| ==> mounted[i] == MountedShare(Components(parsed[i].path), parsed[i].share)
  {
    seq(|parsed|, i requires 0 <= i < |parsed| => MountedShare(Components(parsed[i].path), parsed[i].share))
  }

  predicate Is9pAt(entry: MountInfo.Entry, path: Path) {
    entry.fsType == "9p" && Components(entry.mountPoint) == path
  }

  /** The kernel's entries are well formed, and their 9p mounts are the table's. */
  ghost predicate Describes(entries: seq<MountInfo.Entry>, table: Table) {
    && (forall i :: 0 <= i < |entries| ==> MountInfo.WellFormed(entries[i]))
    && (forall i, path :: 0 <= i < |entries| && Is9pAt(entries[i], path) ==>
          Lookup(table, path) == Some(NineP(MountInfo.AnameOf(entries[i].superOptions))))
    && (forall path :: Carries9p(table, path) ==> exists i :: 0 <= i < |entries| && Is9pAt(entries[i], path))
  }

  /** When the mount table can be read, what is read is the guest's own. */
  ghost predicate Tells(oracle: Oracle, table: Table) {
    oracle.mountinfo.Some? ==> Describes(oracle.mountinfo.value, table)
  }

  /** What is parsed out of the kernel's text lists the table's 9p mounts. */
  lemma {:induction false} ParsedTableLists(entries: seq<MountInfo.Entry>, table: Table)
    requires Describes(entries, table)
    ensures Lists(Placed(MountInfo.Meanings(entries)), table)
  {
    var meanings := MountInfo.Meanings(entries);
    var mounted := Placed(meanings);
    forall j | 0 <= j < |mounted| ensures Lookup(table, mounted[j].path) == Some(NineP(mounted[j].share)) {
      var i := MeaningHasEntry(entries, j);
      assert Is9pAt(entries[i], mounted[j].path);
    }
    forall path | Carries9p(table, path) ensures exists j :: 0 <= j < |mounted| && mounted[j].path == path {
      var i :| 0 <= i < |entries| && Is9pAt(entries[i], path);
      var j := EntryHasMeaning(entries, i);
      assert mounted[j].path == path;
    }
  }

  lemma {:induction false} MeaningHasEntry(entries: seq<MountInfo.Entry>, j: nat) returns (i: nat)
    requires j < |MountInfo.Meanings(entries)|
    ensures i < |entries| && MountInfo.Meaning(entries[i]) == Some(MountInfo.Meanings(entries)[j])
  {
    if MountInfo.Meaning(entries[0]).Some? && j == 0 {
      i := 0;
    } else {
      var skipped := if MountInfo.Meaning(entries[0]).Some? then 1 else 0;
      i := MeaningHasEntry(entries[1..], j - skipped);
      i := i + 1;
    }
  }

  lemma {:induction false} EntryHasMeaning(entries: seq<MountInfo.Entry>, i: nat) returns (j: nat)
    requires i < |entries| && MountInfo.Meaning(entries[i]).Some?
    ensures j < |MountInfo.Meanings(entries)| && MountInfo.Meanings(entries)[j] == MountInfo.Meaning(entries[i]).value
  {
    if i == 0 {
      j := 0;
    } else {
      j := EntryHasMeaning(entries[1..], i - 1);
      j := j + if MountInfo.Meaning(entries[0]).Some? then 1 else 0;
    }
  }

  lemma {:induction false} ShareAtIsTheTables(mounted: seq<MountedShare>, path: Path)
    ensures ShareAt(mounted, path).None? <==> forall i :: 0 <= i < |mounted| ==> mounted[i].path != path
    ensures ShareAt(mounted, path).Some? ==>
              exists i :: 0 <= i < |mounted| && mounted[i] == MountedShare(path, ShareAt(mounted, path).value)
  {
    if mounted != [] {
      ShareAtIsTheTables(mounted[1..], path);
      assert forall i :: 1 <= i < |mounted| ==> mounted[i] == mounted[1..][i - 1];
      if mounted[0].path == path {
        assert mounted[0] == MountedShare(path, mounted[0].share);
      } else if ShareAt(mounted, path).Some? {
        var i :| 0 <= i < |mounted[1..]| && mounted[1..][i] == MountedShare(path, ShareAt(mounted, path).value);
        assert mounted[i + 1] == MountedShare(path, ShareAt(mounted, path).value);
      }
    }
  }

  /* Carrying out. */

  class Guest {
    var table: Table
    var log: seq<Op>
    /** How many questions the kernel has been asked. */
    var asked: nat
    /** The table before anything was logged. */
    ghost const start: Table

    ghost predicate Valid()
      reads this
    {
      table == Replayed(start, log)
    }

    constructor (table: Table)
      ensures Valid() && this.table == table && log == []
    {
      this.table, log, asked, start := table, [], 0, table;
    }

    method Ask(answers: nat -> bool) returns (answer: bool)
      modifies this`asked
      ensures answer == answers(old(asked))
    {
      answer, asked := answers(asked), asked + 1;
    }

    method MakeDirectory(path: Path, oracle: Oracle) returns (ok: bool)
      requires Valid()
      modifies this
      ensures Valid() && ok == oracle.mkdir(old(asked))
      ensures log == old(log) + [MakingDirectory(path, ok)] && table == old(table)
    {
      ok := Ask(oracle.mkdir);
      ReplayedAppend(start, log, MakingDirectory(path, ok));
      log := log + [MakingDirectory(path, ok)];
    }

    /** Whether a mounted share can be read. */
    method ReadBack(path: Path, oracle: Oracle) returns (ok: bool)
      requires Valid()
      modifies this
      ensures Valid() && ok == oracle.readsBack(old(asked))
      ensures log == old(log) + [ReadingBack(path, ok)] && table == old(table)
    {
      ok := Ask(oracle.readsBack);
      ReplayedAppend(start, log, ReadingBack(path, ok));
      log := log + [ReadingBack(path, ok)];
    }

    method Detach(path: Path, oracle: Oracle) returns (ghost mine: seq<Op>)
      requires Valid()
      modifies this
      ensures Valid() && OnlyAt(old(table), table, path) && log == old(log) + mine
      ensures var ok := oracle.unmount(old(asked)) && path in old(table);
              && mine == [Unmounting(path, Lookup(old(table), path), ok)]
              && table == (if ok then old(table) - {path} else old(table))
    {
      var ok := Ask(oracle.unmount);
      ok := ok && path in table;
      ReplayedAppend(start, log, Unmounting(path, Lookup(table, path), ok));
      mine := [Unmounting(path, Lookup(table, path), ok)];
      log := log + [Unmounting(path, Lookup(table, path), ok)];
      if ok {
        table := table - {path};
      }
    }

    method MountPlan9Share(share: string, path: Path, oracle: Oracle) returns (ok: bool)
      requires Valid()
      modifies this
      ensures Valid() && ok == oracle.mount(old(asked))
      ensures log == old(log) + [Mounting9p(path, share, ok)]
      ensures table == if ok then old(table)[path := NineP(share)] else old(table)
    {
      ok := Ask(oracle.mount);
      ReplayedAppend(start, log, Mounting9p(path, share, ok));
      log := log + [Mounting9p(path, share, ok)];
      if ok {
        table := table[path := NineP(share)];
      }
    }

    method MountOverlay(layers: seq<Path>, oracle: Oracle) returns (ok: bool)
      requires Valid()
      modifies this
      ensures Valid() && ok == oracle.mount(old(asked))
      ensures log == old(log) + [MountingOverlay(layers, ok)]
      ensures table == if ok then old(table)[WSL_LIB := Overlay(layers)] else old(table)
    {
      ok := Ask(oracle.mount);
      ReplayedAppend(start, log, MountingOverlay(layers, ok));
      log := log + [MountingOverlay(layers, ok)];
      if ok {
        table := table[WSL_LIB := Overlay(layers)];
      }
    }

    /** Reads the mounts out of the kernel's text; a text that cannot be read is no mounts at all. */
    method ReadMountTable(oracle: Oracle) returns (mounted: seq<MountedShare>)
      requires Tells(oracle, table)
      ensures if oracle.mountinfo.Some? then Lists(mounted, table) else mounted == []
    {
      if oracle.mountinfo.None? {
        return [];
      }
      mounted := Placed(MountInfo.Parse(MountInfo.Table(oracle.mountinfo.value)));
      MountInfo.TableIsRead(oracle.mountinfo.value);
      ParsedTableLists(oracle.mountinfo.value, table);
    }

    /** Sees to one share; `mine`, what it adds to the log, tells the whole of it. A report of `Mounted` means the path
        carries the share now. */
    method AttachOne(share: string, path: Path, already: Option<string>, oracle: Oracle)
      returns (mount: GpuMount, ghost mine: seq<Op>)
      requires Valid() && (already.Some? ==> Lookup(table, path) == Some(NineP(already.value)))
      modifies this
      ensures Valid() && OnlyAt(old(table), table, path)
      ensures log == old(log) + mine && Story(mine, share, path, already, mount.state == Mounted)
      ensures mount == GpuMount(share, Mounted, Some(path)) || mount == GpuMount(share, Failed, None)
      ensures mount.state == Mounted ==> Lookup(table, path) == Some(NineP(share))
    {
      mine := [];
      if already == Some(share) {
        var readable := ReadBack(path, oracle);
        mine := Look(share, path, already, readable);
        if readable {
          return GpuMount(share, Mounted, Some(path)), mine;
        }
      }
      ghost var look := Look(share, path, already, false);
      var made := MakeDirectory(path, oracle);
      Appended(old(log), look, [MakingDirectory(path, made)]);
      mine := look + [MakingDirectory(path, made)];
      if !made {
        return GpuMount(share, Failed, None), mine;
      }
      ghost var more;
      mount, more := ClearAndMount(share, path, already, oracle);
      Appended(old(log), mine, more);
      mine := mine + more;
    }

    /** Takes away what is mounted at the path, and mounts the share. */
    method ClearAndMount(share: string, path: Path, already: Option<string>, oracle: Oracle)
      returns (mount: GpuMount, ghost mine: seq<Op>)
      requires Valid() && (already.Some? ==> Lookup(table, path) == Some(NineP(already.value)))
      modifies this
      ensures Valid() && OnlyAt(old(table), table, path) && log == old(log) + mine
      ensures forall look: seq<Op> :: look == Look(share, path, already, false) + [MakingDirectory(path, true)] ==>
                Story(look + mine, share, path, already, mount.state == Mounted)
      ensures mount == GpuMount(share, Mounted, Some(path)) || mount == GpuMount(share, Failed, None)
      ensures mount.state == Mounted ==> Lookup(table, path) == Some(NineP(share))
    {
      ghost var cleared := [];
      if already.Some? {
        cleared := Detach(path, oracle);
      }
      assert log == old(log) + cleared && IsClearing(cleared, path, already);
      ghost var first, second;
      mount, first, second := MountTwice(share, path, oracle);
      mine := cleared + first + second;
      assert log == old(log) + mine;
      ToldInFull(cleared, first, second, share, path, already, mount.state == Mounted);
    }

    /** Mounts a share, with one more attempt for one that fails. */
    method MountTwice(share: string, path: Path, oracle: Oracle)
      returns (mount: GpuMount, ghost first: seq<Op>, ghost second: seq<Op>)
      requires Valid()
      modifies this
      ensures Valid() && OnlyAt(old(table), table, path) && log == old(log) + first + second
      ensures Attempts(first, second, share, path, mount.state == Mounted)
      ensures mount == GpuMount(share, Mounted, Some(path)) || mount == GpuMount(share, Failed, None)
      ensures mount.state == Mounted ==> Lookup(table, path) == Some(NineP(share))
    {
      first, second := [], [];
      for attempt := 0 to MOUNT_ATTEMPTS
        invariant Valid() && OnlyAt(old(table), table, path)
        invariant log == if attempt == 0 then old(log)
                         else if attempt == 1 then old(log) + first else old(log) + first + second
        invariant attempt >= 1 ==> IsAttempt(first, share, path, false)
        invariant if attempt <= 1 then second == [] else IsAttempt(second, share, path, false)
      {
        ghost var mine;
        var ok;
        ok, mine := TryMount(share, path, oracle);
        first, second := if attempt == 0 then mine else first, if attempt == 0 then [] else mine;
        if ok {
          assert attempt == 0 ==> old(log) + first + [] == old(log) + first;
          return GpuMount(share, Mounted, Some(path)), first, second;
        }
      }
      return GpuMount(share, Failed, None), first, second;
    }

    /** One attempt: a mount that does not read back is taken away again. */
    method TryMount(share: string, path: Path, oracle: Oracle) returns (ok: bool, ghost mine: seq<Op>)
      requires Valid()
      modifies this
      ensures Valid() && OnlyAt(old(table), table, path)
      ensures log == old(log) + mine && IsAttempt(mine, share, path, ok)
      ensures ok ==> Lookup(table, path) == Some(NineP(share))
    {
      ok := MountPlan9Share(share, path, oracle);
      mine := [Mounting9p(path, share, ok)];
      if ok {
        ok := ReadBack(path, oracle);
        mine := [Mounting9p(path, share, true), ReadingBack(path, ok)];
        assert log == old(log) + mine;
        if !ok {
          ghost var gone := Detach(path, oracle);
          mine := mine + gone;
        }
      }
    }

    /** Presents the mounted halves of the userspace as one directory, replacing what was there. */
    method MergeWslLib(attached: seq<Path>, oracle: Oracle) returns (merged: Option<Path>, ghost mine: seq<Op>)
      requires Valid()
      modifies this
      ensures Valid() && OnlyAt(old(table), table, WSL_LIB)
      ensures log == old(log) + mine && IsMerge(mine, UserspaceLayers(attached), merged.Some?)
      ensures mine[0].was == Lookup(old(table), WSL_LIB)
      ensures merged.Some? ==>
                merged == Some(WSL_LIB) && Lookup(table, WSL_LIB) == Some(Overlay(UserspaceLayers(attached)))
      ensures merged.None? ==> Lookup(table, WSL_LIB) == if mine[0].ok then None else Lookup(old(table), WSL_LIB)
    {
      var lower := UserspaceLayers(attached);
      ghost var gone := Detach(WSL_LIB, oracle);
      mine := gone;
      if lower == [] {
        return None, mine;
      }
      var made := MakeDirectory(WSL_LIB, oracle);
      mine := [gone[0], MakingDirectory(WSL_LIB, made)];
      Appended(old(log), gone, [MakingDirectory(WSL_LIB, made)]);
      if !made {
        return None, mine;
      }
      var ok := MountOverlay(lower, oracle);
      Appended(old(log), mine, [MountingOverlay(lower, ok)]);
      mine := [gone[0], MakingDirectory(WSL_LIB, true), MountingOverlay(lower, ok)];
      merged := if ok then Some(WSL_LIB) else None;
    }

    /** Takes the stale mounts away, one by one; nothing but them is touched. */
    method DetachStale(stale: seq<Path>, oracle: Oracle) returns (ghost mine: seq<Op>)
      requires Valid()
      modifies this
      ensures Valid() && log == old(log) + mine && Detached(old(table), table, mine, stale)
    {
      mine := [];
      for n := 0 to |stale|
        invariant Valid() && log == old(log) + mine && Detached(old(table), table, mine, stale[..n])
      {
        ghost var before := table;
        ghost var gone := Detach(stale[n], oracle);
        Appended(old(log), mine, gone);
        OneMoreDetached(old(table), before, table, mine, stale[..n], gone[0]);
        assert stale[..n + 1] == stale[..n] + [stale[n]];
        mine := mine + gone;
      }
      assert stale[..|stale|] == stale;
    }

    /** Carries out one step: a refusal is reported, anything else is attached. */
    method CarryOut(step: Step, oracle: Oracle) returns (mount: GpuMount, ghost mine: seq<Op>)
      requires Valid()
      requires step.Attach? && step.already.Some? ==> Lookup(table, step.path) == Some(NineP(step.already.value))
      modifies this
      ensures Valid() && log == old(log) + mine && IsCarriedOut(step, old(table), mount, mine, table)
    {
      match step
      case Refuse(share, reason) =>
        mount, mine := GpuMount(share, MountState.Refused, None), [];
      case Attach(share, path, already) =>
        mount, mine := AttachOne(share, path, already, oracle);
    }

    /** Carries out the steps of a manifest whose targets are distinct. */
    method AttachAll(steps: seq<Step>, oracle: Oracle)
      returns (report: seq<GpuMount>, attached: seq<Path>, ghost mine: seq<Op>)
      requires Valid() && DistinctTargets(steps)
      requires forall i :: 0 <= i < |steps| && steps[i].Attach? && steps[i].already.Some? ==>
                 Lookup(table, steps[i].path) == Some(NineP(steps[i].already.value))
      modifies this
      ensures Valid() && |report| == |steps| && SoFar(steps, report, mine, old(table), table)
      ensures attached == MountedPaths(report)
      ensures log == old(log) + mine
    {
      report, attached, mine := [], [], [];
      for n := 0 to |steps|
        invariant Valid() && |report| == n && SoFar(steps, report, mine, old(table), table)
        invariant attached == MountedPaths(report)
        invariant log == old(log) + mine
      {
        ghost var before := table;
        StillAsItWas(steps, n, old(table), table);
        var mount;
        ghost var more;
        mount, more := CarryOut(steps[n], oracle);
        OneMoreStep(steps, report, mine, old(table), before, mount, more, table);
        MountedPathsAppend(report, mount);
        Appended(old(log), mine, more);
        mine := mine + more;
        if mount.state == Mounted {
          attached := attached + [steps[n].path];
        }
        report := report + [mount];
      }
    }

    /** The plan of a manifest and the work it comes to in this guest. */
    method Decide(shares: seq<GpuShare>, oracle: Oracle) returns (planned: seq<Planned>, work: Work)
      requires Tells(oracle, table)
      ensures |planned| == |shares| && forall i :: 0 <= i < |shares| ==> PlannedRight(shares[i], planned, i)
      ensures |work.shares| == |planned|
      ensures forall i :: 0 <= i < |planned| ==> StepFor(work.shares[i], planned[i], Known(oracle, table))
      ensures DistinctTargets(work.shares)
      ensures forall p :: Targeted(work.shares, |work.shares|, p) <==> Wanted(planned, p)
      ensures forall p :: Wanted(planned, p) ==> IsManaged(p) && p != WSL_LIB
      ensures forall p :: p in work.stale <==> IsStale(p, planned, Known(oracle, table))
    {
      planned := Plan(shares);
      var mounted := ReadMountTable(oracle);
      work := Reconcile(planned, mounted);
      StepsAreSound(shares, planned, mounted, work.shares, table, oracle);
      forall p
        ensures Targeted(work.shares, |work.shares|, p) <==> Wanted(planned, p)
        ensures Wanted(planned, p) ==> IsManaged(p) && p != WSL_LIB
      {
        TargetsOfPlan(shares, planned, mounted, work.shares, p);
      }
      forall p ensures p in Known(oracle, table) <==> exists j :: 0 <= j < |mounted| && mounted[j].path == p {
        ListsWhatIsKnown(mounted, table, oracle, p);
      }
    }

    /** Takes away what the manifest no longer names and mounts what it does; the merged view comes after. */
    method BringUp(shares: seq<GpuShare>, oracle: Oracle)
      returns (report: seq<GpuMount>, attached: seq<Path>, ghost planned: seq<Planned>, ghost mine: seq<Op>)
      requires Valid() && Tells(oracle, table)
      modifies this
      ensures Valid() && |planned| == |shares|
      ensures forall i :: 0 <= i < |shares| ==> PlannedRight(shares[i], planned, i)
      ensures Reported(report, planned, table)
      ensures attached == MountedPaths(report)
      ensures !Wanted(planned, WSL_LIB) && Lookup(table, WSL_LIB) == Lookup(old(table), WSL_LIB)
      ensures SweptOnly(old(table), table, planned, Known(oracle, old(table)), UnmountsSucceeded(mine))
      ensures log == old(log) + mine
      ensures ToldOfAll(mine, planned, Known(oracle, old(table)), report)
      ensures OnlyThere(mine, planned, Known(oracle, old(table)))
    {
      ghost var known := Known(oracle, table);
      var plan, work := Decide(shares, oracle);
      planned := plan;
      assert forall i :: 0 <= i < |work.shares| && work.shares[i].Attach? ==>
                         Targeted(work.shares, |work.shares|, work.shares[i].path);
      ghost var late;
      mine := DetachStale(work.stale, oracle);
      ghost var swept := table;
      report, attached, late := AttachAll(work.shares, oracle);
      BroughtUp(old(table), swept, table, mine, late, work, plan, known, report);
      TheMergedViewIsNotManaged();
      Appended(old(log), mine, late);
      mine := mine + late;
    }

    /** The whole attach: plan, reconcile, detach, mount, merge; and what the linker is to search. */
    method AttachShares(shares: seq<GpuShare>, oracle: Oracle)
      returns (report: seq<GpuMount>, searchable: seq<Path>, ghost planned: seq<Planned>, ghost mine: seq<Op>,
               ghost merged: bool)
      requires Valid() && Tells(oracle, table)
      modifies this
      ensures Valid() && log == old(log) + mine
      // The plan is the manifest's, every share is reported on, in order, and a share reported as mounted
      // is what its path still carries when the attach is over.
      ensures |planned| == |shares| && forall i :: 0 <= i < |shares| ==> PlannedRight(shares[i], planned, i)
      ensures Reported(report, planned, table)
      // What was done about each share is told by the log, in full; and nothing else was done but to take away what is
      // stale and to make the merged view anew.
      ensures ToldOfAll(mine, planned, Known(oracle, old(table)), report)
      ensures OnlyThereAndMerged(mine, planned, Known(oracle, old(table)))
      ensures SweptOnly(old(table), table, planned, Known(oracle, old(table)), UnmountsSucceeded(mine))
      // Where the unmounts succeed, no managed share outside the manifest is left exactly when the mount table could be
      // read, or when none was there to begin with.
      ensures UnmountsSucceeded(mine) ==>
                (Swept(table, planned) <==> oracle.mountinfo.Some? || Swept(old(table), planned))
      // The merged view is of the halves that are mounted, if any are; the linker searches it in their stead.
      ensures IsMerge(OpsAt(mine, WSL_LIB), UserspaceLayers(MountedPaths(report)), merged)
      ensures searchable == WithoutHalves(MountedPaths(report)) + if merged then [WSL_LIB] else []
      ensures merged ==> Lookup(table, WSL_LIB) == Some(Overlay(UserspaceLayers(MountedPaths(report))))
      ensures !merged && UnmountsSucceeded(mine) ==> WSL_LIB !in table
      // Where nothing is refused everything planned is mounted, and the view is there if a half of it is.
      ensures NothingRefused(mine) ==>
                NoneFailed(report) && (UserspaceLayers(MountedPaths(report)) != [] ==> merged)
      // A guest that is already as the manifest asks is left as it is.
      ensures oracle.mountinfo.Some? && InPlace(old(table), planned) && ReadsSucceeded(mine) ==>
                LeavesNinePAlone(mine) && NoneFailed(report)
    {
      ghost var known, early, late := Known(oracle, table), [], [];
      var attached, view;
      report, attached, planned, early := BringUp(shares, oracle);
      ghost var up := table;
      TheMergedViewIsNotManaged();
      view, late := MergeWslLib(attached, oracle);
      searchable := WithoutHalves(attached) + if view.Some? then [WSL_LIB] else [];
      mine, merged := early + late, view.Some?;
      Appended(old(log), early, late);
      AndMerged(old(table), up, table, early, late, planned, oracle, report, UserspaceLayers(attached), merged);
      NothingToDo(old(table), early, late, UserspaceLayers(attached), merged, planned, oracle, report);
    }
  }

  function MountedPath(mount: GpuMount): seq<Path> {
    if mount.state == Mounted && mount.path.Some? then [mount.path.value] else []
  }

  /** The paths a report says are mounted. */
  function MountedPaths(report: seq<GpuMount>): seq<Path> {
    if report == [] then [] else MountedPaths(report[..|report| - 1]) + MountedPath(report[|report| - 1])
  }

  lemma MountedPathsAppend(report: seq<GpuMount>, mount: GpuMount)
    ensures MountedPaths(report + [mount]) == MountedPaths(report) + MountedPath(mount)
  {
    assert (report + [mount])[..|report|] == report;
  }

  lemma {:induction false} MountedPathsHas(report: seq<GpuMount>, path: Path)
    ensures path in MountedPaths(report) <==>
            exists i :: 0 <= i < |report| && report[i].state == Mounted && report[i].path == Some(path)
  {
    if report != [] {
      MountedPathsHas(report[..|report| - 1], path);
      assert forall i :: 0 <= i < |report| - 1 ==> report[..|report| - 1][i] == report[i];
    }
  }

  /** The merged view has the layer of a half exactly when a share of that half's role was mounted; Microsoft's comes
      first. */
  lemma {:induction false} ViewIsOfTheRoles(shares: seq<GpuShare>, planned: seq<Planned>, report: seq<GpuMount>,
                                            table: Table)
    requires |planned| == |shares| && forall i :: 0 <= i < |shares| ==> PlannedRight(shares[i], planned, i)
    requires Reported(report, planned, table)
    ensures var layers := UserspaceLayers(MountedPaths(report));
            var microsoft := exists i :: 0 <= i < |report| && report[i].state == Mounted && shares[i].role == 4;
            var vendor := exists i :: 0 <= i < |report| && report[i].state == Mounted && shares[i].role == 1;
            layers == (if microsoft then [["usr", "lib", "wsl", "d3d12"]] else []) +
                      (if vendor then [["usr", "lib", "wsl", "host-lib"]] else [])
  {
    MountedPathsHas(report, WSL_D3D12);
    MountedPathsHas(report, WSL_HOST_LIB);
    forall i | 0 <= i < |report| && report[i].state == Mounted
      ensures report[i].path == Some(WSL_D3D12) <==> shares[i].role == 4
      ensures report[i].path == Some(WSL_HOST_LIB) <==> shares[i].role == 1
    {
      PlanTargets(shares, planned, i, i);
      TargetsByRole(shares[i]);
      assert Reports(report[i], planned[i]);
    }
  }

  /** After an attach that unmounted what it meant to and mounted everything it planned, the same manifest
      asks for nothing more: attaching it again, on mounts that read back, makes and takes away no 9p
      mount and reports the same. */
  method AttachTwice(guest: Guest, shares: seq<GpuShare>, first: Oracle, second: Table -> Oracle)
    returns (report: seq<GpuMount>, again: seq<GpuMount>, ghost early: seq<Op>, ghost late: seq<Op>,
             ghost middle: Table)
    requires guest.Valid() && Tells(first, guest.table) && forall table :: Tells(second(table), table)
    modifies guest
    ensures guest.log == old(guest.log) + early + late
    ensures && first.mountinfo.Some? && second(middle).mountinfo.Some? && ReadsSucceeded(late)
            && UnmountsSucceeded(early) && NoneFailed(report)
            ==> LeavesNinePAlone(late) && again == report
  {
    ghost var planned, replanned, merged;
    var searchable;
    report, searchable, planned, early, merged := guest.AttachShares(shares, first);
    middle := guest.table;
    NowInPlace(middle, planned, report, UserspaceLayers(MountedPaths(report)), merged);
    again, searchable, replanned, late, merged := guest.AttachShares(shares, second(guest.table));
    PlanIsUnique(shares, planned, replanned, |shares|);
    assert planned == planned[..|shares|] && replanned == replanned[..|shares|];
    ReportedAlike(report, again, planned, middle, guest.table);
  }

  lemma NowInPlace(table: Table, planned: seq<Planned>, report: seq<GpuMount>, layers: seq<Path>, merged: bool)
    requires Reported(report, planned, table)
    requires merged ==> Lookup(table, WSL_LIB) == Some(Overlay(layers))
    ensures NoneFailed(report) && Swept(table, planned) && (merged || WSL_LIB !in table) ==> InPlace(table, planned)
  {
    forall i | NoneFailed(report) && 0 <= i < |planned| && planned[i].Mount?
      ensures Lookup(table, planned[i].path) == Some(NineP(planned[i].share))
    {
      assert Reports(report[i], planned[i]);
    }
  }

  lemma ReportedAlike(a: seq<GpuMount>, b: seq<GpuMount>, planned: seq<Planned>, s: Table, t: Table)
    requires Reported(a, planned, s) && Reported(b, planned, t)
    ensures NoneFailed(a) && NoneFailed(b) ==> a == b
  {
    if NoneFailed(a) && NoneFailed(b) {
      forall i | 0 <= i < |a| ensures a[i] == b[i] {
        assert Reports(a[i], planned[i]) && Reports(b[i], planned[i]);
      }
    }
  }

  /* What the proofs above rest on. */

  ghost predicate Targeted(steps: seq<Step>, n: nat, path: Path)
    requires n <= |steps|
  {
    exists i :: 0 <= i < n && steps[i].Attach? && steps[i].path == path
  }

  ghost predicate DistinctTargets(steps: seq<Step>) {
    forall i, j :: 0 <= i < j < |steps| && steps[i].Attach? && steps[j].Attach? ==> steps[i].path != steps[j].path
  }

  /** What has been reported so far is right: the answers fit their steps, and what is reported mounted is there. */
  ghost predicate Done(report: seq<GpuMount>, steps: seq<Step>, table: Table) {
    && |report| <= |steps|
    && forall i :: 0 <= i < |report| ==>
         && Answers(report[i], steps[i])
         && (report[i].state == Mounted ==>
             steps[i].Attach? && Lookup(table, steps[i].path) == Some(NineP(steps[i].share)))
  }

  /** No path has changed but the targets of the first `n` steps. */
  ghost predicate Untouched(steps: seq<Step>, n: nat, before: Table, after: Table)
    requires n <= |steps|
  {
    forall p :: !Targeted(steps, n, p) ==> Lookup(after, p) == Lookup(before, p)
  }

  ghost predicate NoneFailed(report: seq<GpuMount>) {
    forall i :: 0 <= i < |report| ==> report[i].state != Failed
  }

  /** A step's change to the table is at its own target, if it has one. */
  ghost predicate ChangesOnly(step: Step, before: Table, after: Table) {
    match step
    case Refuse(_, _) => after == before
    case Attach(_, path, _) => OnlyAt(before, after, path)
  }

  lemma StillAsItWas(steps: seq<Step>, n: nat, before: Table, now: Table)
    requires n < |steps| && DistinctTargets(steps) && Untouched(steps, n, before, now)
    ensures steps[n].Attach? ==> Lookup(now, steps[n].path) == Lookup(before, steps[n].path)
  {
    assert steps[n].Attach? ==> !Targeted(steps, n, steps[n].path);
  }

  lemma DoneStep(report: seq<GpuMount>, mount: GpuMount, steps: seq<Step>, before: Table, after: Table)
    requires |report| < |steps| && DistinctTargets(steps) && Done(report, steps, before)
    requires ChangesOnly(steps[|report|], before, after) && Answers(mount, steps[|report|])
    requires mount.state == Mounted ==>
               steps[|report|].Attach? && Lookup(after, steps[|report|].path) == Some(NineP(steps[|report|].share))
    ensures Done(report + [mount], steps, after)
  {
  }

  lemma UntouchedStep(steps: seq<Step>, n: nat, start: Table, before: Table, after: Table)
    requires n < |steps| && Untouched(steps, n, start, before) && ChangesOnly(steps[n], before, after)
    ensures Untouched(steps, n + 1, start, after)
  {
    forall p | !Targeted(steps, n + 1, p)
      ensures Lookup(after, p) == Lookup(start, p)
    {
      assert !Targeted(steps, n, p);
      assert steps[n].Attach? ==> steps[n].path != p;
    }
  }

  function At(known: map<Path, string>, path: Path): Option<string> {
    if path in known then Some(known[path]) else None
  }

  predicate StepFor(step: Step, planned: Planned, known: map<Path, string>) {
    match planned
    case Refused(share, reason) => step == Refuse(share, reason)
    case Mount(share, path) => step == Attach(share, path, At(known, path))
  }

  predicate Answers(mount: GpuMount, step: Step) {
    match step
    case Refuse(share, _) => mount == GpuMount(share, MountState.Refused, None)
    case Attach(share, path, _) => mount == GpuMount(share, Mounted, Some(path)) ||
                                     mount == GpuMount(share, Failed, None)
  }

  predicate Reports(mount: GpuMount, planned: Planned) {
    match planned
    case Refused(share, _) => mount == GpuMount(share, MountState.Refused, None)
    case Mount(share, path) => mount == GpuMount(share, Mounted, Some(path)) || mount == GpuMount(share, Failed, None)
  }

  /** One report for each planned share, in order; what is reported mounted is there. */
  ghost predicate Reported(report: seq<GpuMount>, planned: seq<Planned>, table: Table) {
    && |report| == |planned|
    && forall i :: 0 <= i < |report| ==>
         && Reports(report[i], planned[i])
         && (report[i].state == Mounted ==>
             planned[i].Mount? && Lookup(table, planned[i].path) == Some(NineP(planned[i].share)))
  }

  /** No managed share is left that the plan does not name. */
  ghost predicate Swept(table: Table, planned: seq<Planned>) {
    forall p :: IsManaged(p) && Carries9p(table, p) ==> Wanted(planned, p)
  }

  /** The guest is already as a plan asks: its shares are where they belong, and no other managed share is left. */
  ghost predicate InPlace(table: Table, planned: seq<Planned>) {
    && (forall i :: 0 <= i < |planned| && planned[i].Mount? ==>
                    Lookup(table, planned[i].path) == Some(NineP(planned[i].share)))
    && Swept(table, planned)
    && !Carries9p(table, WSL_LIB)
  }

  lemma DoneIsReported(report: seq<GpuMount>, steps: seq<Step>, planned: seq<Planned>, known: map<Path, string>,
                       table: Table)
    requires |report| == |steps| == |planned| && Done(report, steps, table)
    requires forall i :: 0 <= i < |planned| ==> StepFor(steps[i], planned[i], known)
    ensures Reported(report, planned, table)
  {
    forall i | 0 <= i < |report|
      ensures Reports(report[i], planned[i])
      ensures report[i].state == Mounted ==>
                planned[i].Mount? && Lookup(table, planned[i].path) == Some(NineP(planned[i].share))
    {
      assert StepFor(steps[i], planned[i], known) && Answers(report[i], steps[i]);
    }
  }

  /** A managed mount the guest knows of that the plan does not name. */
  ghost predicate IsStale(path: Path, planned: seq<Planned>, known: map<Path, string>) {
    IsManaged(path) && path in known && !Wanted(planned, path)
  }

  /** Of what the plan does not name only the stale mounts were touched, the merged view aside, and where unmounting
      works they are gone. */
  ghost predicate SweptOnly(before: Table, after: Table, planned: seq<Planned>, known: map<Path, string>,
                            unmounts: bool) {
    && (forall p :: p != WSL_LIB && !Wanted(planned, p) && !IsStale(p, planned, known) ==>
                      Lookup(after, p) == Lookup(before, p))
    && (unmounts ==> forall p :: IsStale(p, planned, known) ==> p !in after)
  }

  lemma StillSwept(before: Table, middle: Table, after: Table, planned: seq<Planned>, known: map<Path, string>,
                   unmounts: bool)
    requires SweptOnly(before, middle, planned, known, unmounts) && OnlyAt(middle, after, WSL_LIB)
    requires !IsManaged(WSL_LIB)
    ensures SweptOnly(before, after, planned, known, unmounts)
  {
    forall p | unmounts && IsStale(p, planned, known) ensures p !in after {
      assert Lookup(after, p) == Lookup(middle, p);
    }
  }

  lemma StillReported(report: seq<GpuMount>, planned: seq<Planned>, before: Table, after: Table)
    requires Reported(report, planned, before) && OnlyAt(before, after, WSL_LIB) && !Wanted(planned, WSL_LIB)
    ensures Reported(report, planned, after)
  {
    forall i | 0 <= i < |report| && report[i].state == Mounted
      ensures Lookup(after, planned[i].path) == Lookup(before, planned[i].path)
    {
      assert Wanted(planned, planned[i].path);
    }
  }

  /** A guest is swept exactly when what is stale was taken away, or there was nothing to take. */
  lemma SweptExactly(before: Table, after: Table, planned: seq<Planned>, known: map<Path, string>, oracle: Oracle,
                     unmounts: bool)
    requires known == Known(oracle, before) && SweptOnly(before, after, planned, known, unmounts)
    requires !IsManaged(WSL_LIB)
    ensures unmounts ==> (Swept(after, planned) <==> oracle.mountinfo.Some? || Swept(before, planned))
  {
    forall p | IsManaged(p) && !Wanted(planned, p) && p !in known
      ensures Carries9p(after, p) <==> Carries9p(before, p)
    {
      assert Lookup(after, p) == Lookup(before, p);
    }
    if unmounts && Swept(after, planned) && oracle.mountinfo.None? {
      forall p | IsManaged(p) && Carries9p(before, p) ensures Wanted(planned, p) {
        assert p !in known;
      }
    }
  }

  /* What the log tells. */

  lemma Appended(log: seq<Op>, early: seq<Op>, late: seq<Op>)
    ensures log + early + late == log + (early + late)
  {
  }

  ghost predicate AreUnmounts(ops: seq<Op>, paths: seq<Path>) {
    |ops| == |paths| && forall n :: 0 <= n < |ops| ==> ops[n].Unmounting? && ops[n].path == paths[n]
  }

  /** These paths were unmounted, one by one and no others, and where that worked nothing is mounted there. */
  ghost predicate Detached(before: Table, after: Table, ops: seq<Op>, paths: seq<Path>) {
    && AreUnmounts(ops, paths)
    && (forall p :: p !in paths ==> Lookup(after, p) == Lookup(before, p))
    && (UnmountsSucceeded(ops) ==> forall p :: p in paths ==> p !in after)
  }

  lemma {:induction false} OneMoreDetached(start: Table, before: Table, after: Table, ops: seq<Op>, paths: seq<Path>,
                                           op: Op)
    requires Detached(start, before, ops, paths)
    requires op.Unmounting? && op.was == Lookup(before, op.path) && after == if op.ok then before - {op.path}
               else before
    ensures Detached(start, after, ops + [op], paths + [op.path])
  {
    UnmountsSucceededConcat(ops, [op]);
    forall p | p !in paths + [op.path] ensures Lookup(after, p) == Lookup(start, p) {
      assert p !in paths;
    }
    if UnmountsSucceeded(ops + [op]) {
      assert [op][0].was.Some? ==> op.ok;
    }
  }

  /** The merged view is taken away, as far as that goes, and where there are layers its directory is made and they
      are mounted on it. */
  predicate IsMerge(ops: seq<Op>, layers: seq<Path>, merged: bool) {
    && ops != [] && ops[0].Unmounting? && ops[0].path == WSL_LIB
    && if layers == [] then !merged && ops == [ops[0]]
       else if merged then ops == [ops[0], MakingDirectory(WSL_LIB, true), MountingOverlay(layers, true)]
       else
         || ops == [ops[0], MakingDirectory(WSL_LIB, false)]
         || ops == [ops[0], MakingDirectory(WSL_LIB, true), MountingOverlay(layers, false)]
  }

  lemma ToldInFull(cleared: seq<Op>, first: seq<Op>, second: seq<Op>, share: string, path: Path,
                   already: Option<string>, mounted: bool)
    requires IsClearing(cleared, path, already) && Attempts(first, second, share, path, mounted)
    ensures forall look: seq<Op> :: look == Look(share, path, already, false) + [MakingDirectory(path, true)] ==>
              Story(look + (cleared + first + second), share, path, already, mounted)
  {
    var look := Look(share, path, already, false) + [MakingDirectory(path, true)];
    assert look + (cleared + first + second) == look + cleared + first + second;
  }

  /** The log tells the whole of every step reported on so far, and nothing else. */
  ghost predicate Told(ops: seq<Op>, steps: seq<Step>, report: seq<GpuMount>) {
    && |report| <= |steps|
    && (forall i :: 0 <= i < |report| && steps[i].Attach? ==> StepTold(ops, steps[i], report[i].state == Mounted))
    && forall p :: !Targeted(steps, |report|, p) ==> OpsAt(ops, p) == []
  }

  ghost predicate StepTold(ops: seq<Op>, step: Step, mounted: bool)
    requires step.Attach?
  {
    Story(OpsAt(ops, step.path), step.share, step.path, step.already, mounted)
  }

  ghost predicate IsStoryOf(ops: seq<Op>, step: Step, mounted: bool)
    requires step.Attach?
  {
    Story(ops, step.share, step.path, step.already, mounted)
  }

  lemma {:induction false} ToldStep(before: seq<Op>, mine: seq<Op>, steps: seq<Step>, report: seq<GpuMount>,
                                    mount: GpuMount)
    requires |report| < |steps| && DistinctTargets(steps) && Told(before, steps, report)
    requires steps[|report|].Refuse? ==> mine == []
    requires steps[|report|].Attach? ==> IsStoryOf(mine, steps[|report|], mount.state == Mounted)
    ensures Told(before + mine, steps, report + [mount])
  {
    var n, step := |report|, steps[|report|];
    if step.Refuse? {
      assert before + [] == before;
      RefusalToldStep(before, steps, report, mount);
    } else {
      StoryAtItsPath(before, mine, step, mount.state == Mounted);
      AlsoTold(before, before + mine, mine, steps, report, mount);
    }
  }

  lemma {:induction false} RefusalToldStep(ops: seq<Op>, steps: seq<Step>, report: seq<GpuMount>, mount: GpuMount)
    requires |report| < |steps| && Told(ops, steps, report) && steps[|report|].Refuse?
    ensures Told(ops, steps, report + [mount])
  {
    var n := |report|;
    forall p | !Targeted(steps, n + 1, p) ensures OpsAt(ops, p) == [] {
      assert !Targeted(steps, n, p);
    }
    forall i | 0 <= i < n && steps[i].Attach? ensures StepTold(ops, steps[i], (report + [mount])[i].state == Mounted) {
      assert StepTold(ops, steps[i], report[i].state == Mounted);
    }
  }

  lemma {:induction false} AlsoTold(before: seq<Op>, after: seq<Op>, mine: seq<Op>, steps: seq<Step>,
                                    report: seq<GpuMount>, mount: GpuMount)
    requires |report| < |steps| && DistinctTargets(steps) && Told(before, steps, report) && steps[|report|].Attach?
    requires IsStoryOf(mine, steps[|report|], mount.state == Mounted)
    requires OpsAt(after, steps[|report|].path) == OpsAt(before, steps[|report|].path) + mine
    requires forall p :: p != steps[|report|].path ==> OpsAt(after, p) == OpsAt(before, p)
    ensures Told(after, steps, report + [mount])
  {
    var n, step := |report|, steps[|report|];
    assert !Targeted(steps, n, step.path);
    assert [] + mine == mine;
    forall p | !Targeted(steps, n + 1, p) ensures OpsAt(after, p) == [] {
      assert !Targeted(steps, n, p) && step.path != p;
    }
    forall i | 0 <= i < n && steps[i].Attach?
      ensures StepTold(after, steps[i], (report + [mount])[i].state == Mounted)
    {
      assert StepTold(before, steps[i], report[i].state == Mounted) && steps[i].path != step.path;
    }
    assert StepTold(after, step, mount.state == Mounted);
  }

  /** A story adds to the log at its own path and nowhere else. */
  lemma {:induction false} StoryAtItsPath(before: seq<Op>, mine: seq<Op>, step: Step, mounted: bool)
    requires step.Attach? && Story(mine, step.share, step.path, step.already, mounted)
    ensures OpsAt(before + mine, step.path) == OpsAt(before, step.path) + mine
    ensures forall p :: p != step.path ==> OpsAt(before + mine, p) == OpsAt(before, p)
  {
    WhyAShareFails(mine, step.share, step.path, step.already, mounted);
    OpsAtOwnPath(mine, step.path);
    OpsAtConcat(before, mine, step.path);
    forall p | p != step.path ensures OpsAt(before + mine, p) == OpsAt(before, p) {
      OpsBefore(before, mine, p);
    }
  }

  /** The log tells the whole of every planned share. */
  ghost predicate ToldOfAll(ops: seq<Op>, planned: seq<Planned>, known: map<Path, string>, report: seq<GpuMount>) {
    && |report| == |planned|
    && forall i :: 0 <= i < |planned| && planned[i].Mount? ==>
         ShareTold(ops, planned[i], known, report[i].state == Mounted)
  }

  ghost predicate ShareTold(ops: seq<Op>, planned: Planned, known: map<Path, string>, mounted: bool)
    requires planned.Mount?
  {
    Story(OpsAt(ops, planned.path), planned.share, planned.path, At(known, planned.path), mounted)
  }

  /** What is done is done at the planned paths, or takes away what is stale. */
  ghost predicate OnlyThere(ops: seq<Op>, planned: seq<Planned>, known: map<Path, string>) {
    forall op :: op in ops ==> IsDue(op, planned, known)
  }

  ghost predicate IsDue(op: Op, planned: seq<Planned>, known: map<Path, string>) {
    Wanted(planned, PathOf(op)) || (op.Unmounting? && IsStale(op.path, planned, known))
  }

  ghost predicate OnlyThereAndMerged(ops: seq<Op>, planned: seq<Planned>, known: map<Path, string>) {
    forall op :: op in ops ==> PathOf(op) == WSL_LIB || IsDue(op, planned, known)
  }

  /** Everything that holds while the steps are carried out. */
  ghost predicate SoFar(steps: seq<Step>, report: seq<GpuMount>, ops: seq<Op>, start: Table, now: Table) {
    Done(report, steps, now) && Untouched(steps, |report|, start, now) && Told(ops, steps, report)
  }

  /** What carrying out one step brings about. */
  ghost predicate IsCarriedOut(step: Step, before: Table, mount: GpuMount, ops: seq<Op>, after: Table) {
    && ChangesOnly(step, before, after) && Answers(mount, step) && (step.Refuse? ==> ops == [])
    && (mount.state == Mounted ==> step.Attach? && Lookup(after, step.path) == Some(NineP(step.share)))
    && (step.Attach? ==> IsStoryOf(ops, step, mount.state == Mounted))
  }

  lemma {:induction false} OneMoreStep(steps: seq<Step>, report: seq<GpuMount>, ops: seq<Op>, start: Table,
                                       before: Table, mount: GpuMount, more: seq<Op>, after: Table)
    requires |report| < |steps| && DistinctTargets(steps) && SoFar(steps, report, ops, start, before)
    requires IsCarriedOut(steps[|report|], before, mount, more, after)
    ensures SoFar(steps, report + [mount], ops + more, start, after)
  {
    DoneStep(report, mount, steps, before, after);
    UntouchedStep(steps, |report|, start, before, after);
    ToldStep(ops, more, steps, report, mount);
  }

  /** What is true once the stale mounts were taken away and the steps carried out. */
  lemma {:induction false} BroughtUp(before: Table, swept: Table, after: Table, early: seq<Op>, late: seq<Op>,
                                     work: Work, planned: seq<Planned>, known: map<Path, string>, report: seq<GpuMount>)
    requires |work.shares| == |planned| == |report| && SoFar(work.shares, report, late, swept, after)
    requires forall i :: 0 <= i < |planned| ==> StepFor(work.shares[i], planned[i], known)
    requires forall p :: p in work.stale <==> IsStale(p, planned, known)
    requires forall p :: Targeted(work.shares, |work.shares|, p) <==> Wanted(planned, p)
    requires Detached(before, swept, early, work.stale)
    ensures Reported(report, planned, after)
    ensures forall p :: !Wanted(planned, p) && !IsManaged(p) ==> Lookup(after, p) == Lookup(before, p)
    ensures SweptOnly(before, after, planned, known, UnmountsSucceeded(early + late))
    ensures ToldOfAll(early + late, planned, known, report) && OnlyThere(early + late, planned, known)
  {
    DoneIsReported(report, work.shares, planned, known, after);
    ToldInAll(early, late, work, planned, known, report);
    UnmountsSucceededConcat(early, late);
    forall p | !Wanted(planned, p) ensures Lookup(after, p) == Lookup(swept, p) {
      assert !Targeted(work.shares, |report|, p);
    }
    forall p | IsStale(p, planned, known) && UnmountsSucceeded(early + late) ensures p !in after {
      assert Lookup(after, p) == Lookup(swept, p);
    }
  }

  /** What is true once the merged view was made anew. */
  lemma {:induction false} AndMerged(before: Table, up: Table, after: Table, early: seq<Op>, late: seq<Op>,
                                     planned: seq<Planned>, oracle: Oracle, report: seq<GpuMount>, layers: seq<Path>,
                                     merged: bool)
    requires Reported(report, planned, up) && ToldOfAll(early, planned, Known(oracle, before), report)
    requires OnlyThere(early, planned, Known(oracle, before))
    requires SweptOnly(before, up, planned, Known(oracle, before), UnmountsSucceeded(early))
    requires OnlyAt(up, after, WSL_LIB) && IsMerge(late, layers, merged) && late[0].was == Lookup(up, WSL_LIB)
    requires !merged ==> Lookup(after, WSL_LIB) == if late[0].ok then None else Lookup(up, WSL_LIB)
    requires !IsManaged(WSL_LIB) && !Wanted(planned, WSL_LIB)
    ensures var known, mine := Known(oracle, before), early + late;
            && Reported(report, planned, after) && ToldOfAll(mine, planned, known, report)
            && OnlyThereAndMerged(mine, planned, known) && OpsAt(mine, WSL_LIB) == late
            && SweptOnly(before, after, planned, known, UnmountsSucceeded(mine))
            && (UnmountsSucceeded(mine) ==>
                  (Swept(after, planned) <==> oracle.mountinfo.Some? || Swept(before, planned)))
            && (!merged && UnmountsSucceeded(mine) ==> WSL_LIB !in after)
            && (NothingRefused(mine) ==> NoneFailed(report) && (layers != [] ==> merged))
  {
    var known, mine := Known(oracle, before), early + late;
    UnmountsSucceededConcat(early, late);
    StillReported(report, planned, up, after);
    StillSwept(before, up, after, planned, known, UnmountsSucceeded(early));
    SweptExactly(before, after, planned, known, oracle, UnmountsSucceeded(mine));
    MergedAfterAll(early, late, layers, merged, planned, known, report);
    WhereNothingIsRefused(early, late, layers, merged, planned, known, report);
    if !merged && UnmountsSucceeded(mine) {
      assert late[0].was.Some? ==> late[0].ok;
    }
  }

  lemma {:induction false} ToldInAll(early: seq<Op>, late: seq<Op>, work: Work, planned: seq<Planned>,
                                     known: map<Path, string>, report: seq<GpuMount>)
    requires |work.shares| == |planned| == |report| && Told(late, work.shares, report)
    requires forall i :: 0 <= i < |planned| ==> StepFor(work.shares[i], planned[i], known)
    requires AreUnmounts(early, work.stale)
    requires forall p :: p in work.stale ==> IsStale(p, planned, known)
    requires forall p :: Targeted(work.shares, |work.shares|, p) <==> Wanted(planned, p)
    ensures ToldOfAll(early + late, planned, known, report)
    ensures OnlyThere(early + late, planned, known)
  {
    forall i | 0 <= i < |planned| && planned[i].Mount?
      ensures ShareTold(early + late, planned[i], known, report[i].state == Mounted)
    {
      var path := planned[i].path;
      assert StepFor(work.shares[i], planned[i], known) && StepTold(late, work.shares[i], report[i].state == Mounted);
      forall op | op in early ensures PathOf(op) != path {
        assert op.path in work.stale && Wanted(planned, path);
      }
      OpsAtConcat(early, late, path);
      OpsAtOtherPath(early, path);
      assert [] + OpsAt(late, path) == OpsAt(late, path);
    }
    forall op | op in early + late ensures IsDue(op, planned, known) {
      if op in early {
        assert op.path in work.stale;
      } else {
        OpsAtHas(late, op, PathOf(op));
        assert Targeted(work.shares, |report|, PathOf(op));
      }
    }
  }

  /** The merged view has operations of its own, and the shares theirs. */
  lemma {:induction false} MergedAfterAll(early: seq<Op>, late: seq<Op>, layers: seq<Path>, merged: bool,
                                          planned: seq<Planned>, known: map<Path, string>, report: seq<GpuMount>)
    requires ToldOfAll(early, planned, known, report) && OnlyThere(early, planned, known) &&
               IsMerge(late, layers, merged)
    requires !IsManaged(WSL_LIB) && !Wanted(planned, WSL_LIB)
    ensures OpsAt(early + late, WSL_LIB) == late && ToldOfAll(early + late, planned, known, report)
    ensures OnlyThereAndMerged(early + late, planned, known)
  {
    MergeIsAtTheView(late, layers, merged);
    forall op | op in early ensures PathOf(op) != WSL_LIB {
      assert IsDue(op, planned, known);
    }
    OpsApart(early, late, WSL_LIB);
    forall i | 0 <= i < |planned| && planned[i].Mount?
      ensures ShareTold(early + late, planned[i], known, report[i].state == Mounted)
    {
      assert ShareTold(early, planned[i], known, report[i].state == Mounted) && Wanted(planned, planned[i].path);
      OpsBefore(early, late, planned[i].path);
    }
  }

  lemma MergeIsAtTheView(ops: seq<Op>, layers: seq<Path>, merged: bool)
    requires IsMerge(ops, layers, merged)
    ensures forall op :: op in ops ==> PathOf(op) == WSL_LIB && !op.Mounting9p? && !op.ReadingBack?
  {
  }

  lemma {:induction false} OpsApart(early: seq<Op>, late: seq<Op>, path: Path)
    requires (forall op :: op in early ==> PathOf(op) != path) && forall op :: op in late ==> PathOf(op) == path
    ensures OpsAt(early + late, path) == late
  {
    OpsAtConcat(early, late, path);
    OpsAtOtherPath(early, path);
    OpsAtOwnPath(late, path);
    assert [] + late == late;
  }

  lemma {:induction false} OpsBefore(early: seq<Op>, late: seq<Op>, path: Path)
    requires forall op :: op in late ==> PathOf(op) != path
    ensures OpsAt(early + late, path) == OpsAt(early, path)
  {
    OpsAtConcat(early, late, path);
    OpsAtOtherPath(late, path);
    assert OpsAt(early, path) + [] == OpsAt(early, path);
  }

  lemma {:induction false} UnreadIsLogged(ops: seq<Op>, path: Path)
    requires ReadingBack(path, false) in OpsAt(ops, path)
    ensures !ReadsSucceeded(ops)
  {
    OpsAtHas(ops, ReadingBack(path, false), path);
    var i :| 0 <= i < |ops| && ops[i] == ReadingBack(path, false);
  }

  /** A share that failed has something refused in its part of the log. */
  lemma {:induction false} FailureIsLogged(ops: seq<Op>, planned: Planned, known: map<Path, string>)
    requires planned.Mount? && ShareTold(ops, planned, known, false)
    ensures !NothingRefused(ops)
    ensures At(known, planned.path) == Some(planned.share) ==> !ReadsSucceeded(ops)
  {
    var own := OpsAt(ops, planned.path);
    WhyAShareFails(own, planned.share, planned.path, At(known, planned.path), false);
    var op :| op in own && !op.Unmounting? && !op.ok;
    OpsAtHas(ops, op, planned.path);
    var i :| 0 <= i < |ops| && ops[i] == op;
    if At(known, planned.path) == Some(planned.share) {
      UnreadIsLogged(ops, planned.path);
    }
  }

  lemma {:induction false} WhereNothingIsRefused(early: seq<Op>, late: seq<Op>, layers: seq<Path>, merged: bool,
                                                 planned: seq<Planned>, known: map<Path, string>,
                                                 report: seq<GpuMount>)
    requires ToldOfAll(early + late, planned, known, report) && IsMerge(late, layers, merged)
    requires forall i :: 0 <= i < |report| ==> Reports(report[i], planned[i])
    ensures NothingRefused(early + late) ==> NoneFailed(report) && (layers != [] ==> merged)
  {
    var ops := early + late;
    if NothingRefused(ops) {
      forall i | 0 <= i < |report| ensures report[i].state != Failed {
        if report[i].state == Failed {
          assert ShareTold(ops, planned[i], known, false);
          FailureIsLogged(ops, planned[i], known);
        }
      }
      assert late[|late| - 1] == ops[|ops| - 1];
    }
  }

  lemma {:induction false} LeftAlone(early: seq<Op>, late: seq<Op>, before: Table, planned: seq<Planned>,
                                     known: map<Path, string>, report: seq<GpuMount>)
    requires ToldOfAll(early + late, planned, known, report) && OnlyThere(early, planned, known)
    requires known == NinePs(before) && InPlace(before, planned) && ReadsSucceeded(early + late)
    requires LeavesNinePAlone(late)
    requires forall i :: 0 <= i < |report| ==> Reports(report[i], planned[i])
    ensures LeavesNinePAlone(early + late) && NoneFailed(report)
  {
    var ops := early + late;
    forall i | 0 <= i < |report| ensures report[i].state != Failed {
      if report[i].state == Failed {
        assert ShareTold(ops, planned[i], known, false);
        FailureIsLogged(ops, planned[i], known);
      }
    }
    forall i | 0 <= i < |ops| ensures IsHarmless(ops[i]) {
      if i < |early| {
        assert ops[i] in early && IsDue(ops[i], planned, known);
        assert Wanted(planned, PathOf(ops[i]));
        OnlyReadBack(ops, planned, known, report, before, ops[i]);
      } else {
        assert ops[i] == late[i - |early|];
      }
    }
  }

  lemma {:induction false} NothingToDo(before: Table, early: seq<Op>, late: seq<Op>, layers: seq<Path>, merged: bool,
                                       planned: seq<Planned>, oracle: Oracle, report: seq<GpuMount>)
    requires ToldOfAll(early + late, planned, Known(oracle, before), report)
    requires OnlyThere(early, planned, Known(oracle, before)) && IsMerge(late, layers, merged)
    requires late[0].was == Lookup(before, WSL_LIB)
    requires forall i :: 0 <= i < |report| ==> Reports(report[i], planned[i])
    ensures oracle.mountinfo.Some? && InPlace(before, planned) && ReadsSucceeded(early + late) ==>
              LeavesNinePAlone(early + late) && NoneFailed(report)
  {
    if oracle.mountinfo.Some? && InPlace(before, planned) && ReadsSucceeded(early + late) {
      LeftAlone(early, late, before, planned, Known(oracle, before), report);
    }
  }

  lemma {:induction false} OnlyReadBack(ops: seq<Op>, planned: seq<Planned>, known: map<Path, string>,
                                        report: seq<GpuMount>, before: Table, op: Op)
    requires ToldOfAll(ops, planned, known, report) && op in ops
    requires known == NinePs(before) && InPlace(before, planned) && ReadsSucceeded(ops)
    requires Wanted(planned, PathOf(op))
    ensures op.ReadingBack?
  {
    var k :| 0 <= k < |planned| && planned[k].Mount? && planned[k].path == PathOf(op);
    assert ShareTold(ops, planned[k], known, report[k].state == Mounted);
    var own := OpsAt(ops, planned[k].path);
    WhyAShareFails(own, planned[k].share, planned[k].path, At(known, planned[k].path), report[k].state == Mounted);
    OpsAtHas(ops, op, planned[k].path);
    if ReadingBack(planned[k].path, false) in own {
      UnreadIsLogged(ops, planned[k].path);
    }
  }

  /* What the attach knows to be mounted. */

  /** The 9p mounts of the table, as far as it could be read. */
  ghost function Known(oracle: Oracle, table: Table): map<Path, string> {
    if oracle.mountinfo.None? then map[] else NinePs(table)
  }

  ghost function NinePs(table: Table): map<Path, string> {
    map path | path in table && table[path].NineP? :: table[path].share
  }

  /** A listing knows what it lists. */
  lemma {:induction false} ListsWhatIsKnown(mounted: seq<MountedShare>, table: Table, oracle: Oracle, path: Path)
    requires if oracle.mountinfo.Some? then Lists(mounted, table) else mounted == []
    ensures ShareAt(mounted, path) == At(Known(oracle, table), path)
    ensures path in Known(oracle, table) <==> exists j :: 0 <= j < |mounted| && mounted[j].path == path
  {
    ShareAtIsTheTables(mounted, path);
    if oracle.mountinfo.Some? && path in Known(oracle, table) {
      assert Carries9p(table, path);
    }
  }

  /** The steps of a plan have distinct targets, and each knows what is already there. */
  lemma {:induction false} StepsAreSound(shares: seq<GpuShare>, planned: seq<Planned>, mounted: seq<MountedShare>,
                                         steps: seq<Step>, table: Table, oracle: Oracle)
    requires |planned| == |shares| && forall i :: 0 <= i < |shares| ==> PlannedRight(shares[i], planned, i)
    requires |steps| == |planned| && forall i :: 0 <= i < |planned| ==> steps[i] == StepOf(planned[i], mounted)
    requires if oracle.mountinfo.Some? then Lists(mounted, table) else mounted == []
    ensures DistinctTargets(steps)
    ensures forall i :: 0 <= i < |steps| ==> StepFor(steps[i], planned[i], Known(oracle, table))
  {
    forall i, j | 0 <= i < j < |steps| && steps[i].Attach? && steps[j].Attach?
      ensures steps[i].path != steps[j].path
    {
      PlanTargets(shares, planned, i, j);
    }
    forall i | 0 <= i < |steps| ensures StepFor(steps[i], planned[i], Known(oracle, table)) {
      if planned[i].Mount? {
        ListsWhatIsKnown(mounted, table, oracle, planned[i].path);
      }
    }
  }

  lemma {:induction false} TargetsOfPlan(shares: seq<GpuShare>, planned: seq<Planned>, mounted: seq<MountedShare>,
                                         steps: seq<Step>, path: Path)
    requires |planned| == |shares| && forall i :: 0 <= i < |shares| ==> PlannedRight(shares[i], planned, i)
    requires |steps| == |planned| && forall i :: 0 <= i < |planned| ==> steps[i] == StepOf(planned[i], mounted)
    ensures Targeted(steps, |steps|, path) <==> Wanted(planned, path)
    ensures Wanted(planned, path) ==> IsManaged(path) && path != WSL_LIB
  {
    if Wanted(planned, path) {
      var i :| 0 <= i < |planned| && planned[i].Mount? && planned[i].path == path;
      assert steps[i].Attach? && steps[i].path == path;
      PlanTargets(shares, planned, i, i);
      TargetsAreManaged(shares[i]);
    }
    if Targeted(steps, |steps|, path) {
      var i :| 0 <= i < |steps| && steps[i].Attach? && steps[i].path == path;
      assert planned[i].Mount? && planned[i].path == path;
    }
  }

  lemma TheMergedViewIsNotManaged()
    ensures !IsManaged(WSL_LIB)
  {
    assert WSL_HOST_LIB[3] != WSL_LIB[3] && WSL_D3D12[3] != WSL_LIB[3] && WSL_LIB[..3] != DRIVER_ROOT;
  }
}
