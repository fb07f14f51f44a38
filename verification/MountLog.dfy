/** What the kernel was asked while mounts were attached, and what it answered.

    A log keeps every directory made, every mount, read-back and unmount, in order and with its answer. The
    mount table is what a log made of it, and what became of one share is the log's operations at its path.
 */
module MountLog {
  import opened Outcomes
  import opened GpuTargets

  datatype Fs = NineP(share: string) | Overlay(layers: seq<Path>) | OtherFs

  type Table = map<Path, Fs>

  datatype Op = MakingDirectory(path: Path, ok: bool)
              | Mounting9p(path: Path, share: string, ok: bool)
              | ReadingBack(path: Path, ok: bool)
              | MountingOverlay(layers: seq<Path>, ok: bool)
              | Unmounting(path: Path, was: Option<Fs>, ok: bool)

  function Lookup(table: Table, path: Path): Option<Fs> {
    if path in table then Some(table[path]) else None
  }

  predicate Carries9p(table: Table, path: Path) {
    path in table && table[path].NineP?
  }

  /** The table is what it was everywhere but at `path`. */
  ghost predicate OnlyAt(before: Table, after: Table, path: Path) {
    forall p :: p != path ==> Lookup(after, p) == Lookup(before, p)
  }

  function PathOf(op: Op): Path {
    if op.MountingOverlay? then WSL_LIB else op.path
  }

  /* What a log has made of a table. */

  function Made(table: Table, op: Op): Table {
    match op
    case Mounting9p(path, share, true) => table[path := NineP(share)]
    case MountingOverlay(layers, true) => table[WSL_LIB := Overlay(layers)]
    case Unmounting(path, _, true) => table - {path}
    case _ => table
  }

  function Replayed(start: Table, log: seq<Op>): Table {
    if log == [] then start else Made(Replayed(start, log[..|log| - 1]), log[|log| - 1])
  }

  lemma ReplayedAppend(start: Table, log: seq<Op>, op: Op)
    ensures Replayed(start, log + [op]) == Made(Replayed(start, log), op)
  {
    assert (log + [op])[..|log|] == log;
  }

  /* What a log says of what was asked. */

  /** Every attempt to unmount something that was there succeeded. */
  ghost predicate UnmountsSucceeded(ops: seq<Op>) {
    forall i :: 0 <= i < |ops| && ops[i].Unmounting? && ops[i].was.Some? ==> ops[i].ok
  }

  /** Whatever was mounted could be read back. */
  ghost predicate ReadsSucceeded(ops: seq<Op>) {
    forall i :: 0 <= i < |ops| && ops[i].ReadingBack? ==> ops[i].ok
  }

  /** Every directory could be made, everything mounted, and everything read back. */
  ghost predicate NothingRefused(ops: seq<Op>) {
    forall i :: 0 <= i < |ops| && !ops[i].Unmounting? ==> ops[i].ok
  }

  /** No 9p mount was made or taken away. */
  ghost predicate LeavesNinePAlone(ops: seq<Op>) {
    forall i :: 0 <= i < |ops| ==> IsHarmless(ops[i])
  }

  predicate IsHarmless(op: Op) {
    !op.Mounting9p? && (op.Unmounting? ==> op.was.None? || !op.was.value.NineP?)
  }

  lemma UnmountsSucceededConcat(early: seq<Op>, late: seq<Op>)
    ensures UnmountsSucceeded(early + late) <==> UnmountsSucceeded(early) && UnmountsSucceeded(late)
  {
    var ops := early + late;
    assert forall i :: 0 <= i < |early| ==> ops[i] == early[i];
    assert forall i :: 0 <= i < |late| ==> ops[|early| + i] == late[i];
  }

  /* One path. */

  /** The operations at one path, in order. */
  function OpsAt(ops: seq<Op>, path: Path): seq<Op> {
    if ops == [] then []
    else OpsAt(ops[..|ops| - 1], path) + if PathOf(ops[|ops| - 1]) == path then [ops[|ops| - 1]] else []
  }

  lemma {:induction false} OpsAtConcat(early: seq<Op>, late: seq<Op>, path: Path)
    ensures OpsAt(early + late, path) == OpsAt(early, path) + OpsAt(late, path)
  {
    if late == [] {
      assert early + late == early;
    } else {
      OpsAtConcat(early, late[..|late| - 1], path);
      assert (early + late)[..|early + late| - 1] == early + late[..|late| - 1];
    }
  }

  lemma {:induction false} OpsAtOwnPath(ops: seq<Op>, path: Path)
    requires forall op :: op in ops ==> PathOf(op) == path
    ensures OpsAt(ops, path) == ops
  {
    if ops != [] {
      OpsAtOwnPath(ops[..|ops| - 1], path);
    }
  }

  lemma {:induction false} OpsAtOtherPath(ops: seq<Op>, path: Path)
    requires forall op :: op in ops ==> PathOf(op) != path
    ensures OpsAt(ops, path) == []
  {
    if ops != [] {
      OpsAtOtherPath(ops[..|ops| - 1], path);
    }
  }

  lemma {:induction false} OpsAtHas(ops: seq<Op>, op: Op, path: Path)
    ensures op in OpsAt(ops, path) <==> op in ops && PathOf(op) == path
  {
    if ops != [] {
      OpsAtHas(ops[..|ops| - 1], op, path);
      assert ops == ops[..|ops| - 1] + [ops[|ops| - 1]];
    }
  }

  /* What becomes of one share. */

  /** One attempt to mount a share: it works when it mounts and reads back, and a mount that does not read back is
      taken away again, as far as that goes. */
  predicate IsAttempt(ops: seq<Op>, share: string, path: Path, works: bool) {
    var gone := Unmounting(path, Some(NineP(share)), true);
    if works then ops == [Mounting9p(path, share, true), ReadingBack(path, true)]
    else
      || ops == [Mounting9p(path, share, false)]
      || ops == [Mounting9p(path, share, true), ReadingBack(path, false), gone]
      || ops == [Mounting9p(path, share, true), ReadingBack(path, false), gone.(ok := false)]
  }

  /** What is mounted at the path already is taken away first, as far as that goes. */
  predicate IsClearing(ops: seq<Op>, path: Path, already: Option<string>) {
    if already.None? then ops == []
    else
      var gone := Unmounting(path, Some(NineP(already.value)), true);
      ops == [gone] || ops == [gone.(ok := false)]
  }

  /** What is mounted at the path already is looked at when it is the very share that is wanted. */
  function Look(share: string, path: Path, already: Option<string>, readable: bool): seq<Op> {
    if already == Some(share) then [ReadingBack(path, readable)] else []
  }

  /** The whole of it: left alone when it is there and reads back; else its directory is made, what is there is cleared
      away, and it is mounted, with one more attempt for one that fails. */
  ghost predicate Story(ops: seq<Op>, share: string, path: Path, already: Option<string>, mounted: bool) {
    || (mounted && already == Some(share) && ops == Look(share, path, already, true))
    || (!mounted && ops == Look(share, path, already, false) + [MakingDirectory(path, false)])
    || exists cleared, first, second ::
         && IsClearing(cleared, path, already)
         && Attempts(first, second, share, path, mounted)
         && ops == Look(share, path, already, false) + [MakingDirectory(path, true)] + cleared + first + second
  }

  predicate Attempts(first: seq<Op>, second: seq<Op>, share: string, path: Path, mounted: bool) {
    || (mounted && IsAttempt(first, share, path, true) && second == [])
    || (IsAttempt(first, share, path, false) && IsAttempt(second, share, path, mounted))
  }

  function MountsTried(ops: seq<Op>): nat {
    if ops == [] then 0
    else MountsTried(ops[..|ops| - 1]) + if ops[|ops| - 1].Mounting9p? then 1 else 0
  }

  lemma {:induction false} MountsTriedConcat(early: seq<Op>, late: seq<Op>)
    ensures MountsTried(early + late) == MountsTried(early) + MountsTried(late)
  {
    if late == [] {
      assert early + late == early;
    } else {
      MountsTriedConcat(early, late[..|late| - 1]);
      assert (early + late)[..|early + late| - 1] == early + late[..|late| - 1];
    }
  }

  lemma MountsTriedOne(op: Op)
    ensures MountsTried([op]) == if op.Mounting9p? then 1 else 0
  {
    assert [op][..0] == [];
  }

  lemma {:induction false} AttemptIsOneMount(ops: seq<Op>, share: string, path: Path, works: bool)
    requires IsAttempt(ops, share, path, works)
    ensures MountsTried(ops) == 1
  {
    MountsTriedOne(ops[0]);
    assert ops == [ops[0]] + ops[1..];
    MountsTriedConcat([ops[0]], ops[1..]);
    NoneTried(ops[1..]);
  }

  lemma {:induction false} AttemptEnds(ops: seq<Op>, share: string, path: Path, works: bool)
    requires IsAttempt(ops, share, path, works)
    ensures works <==> ops[|ops| - 1] == ReadingBack(path, true)
    ensures !ops[|ops| - 1].MakingDirectory?
    ensures forall op :: op in ops ==> PathOf(op) == path && (op == ReadingBack(path, true) ==> works)
    ensures !works ==> exists op :: op in ops && !op.Unmounting? && !op.ok
  {
    assert !works ==> if |ops| == 1 then ops[0] in ops && !ops[0].ok else ops[1] in ops && !ops[1].ok;
  }

  /** What is done before a share is mounted neither mounts it nor finds it readable. */
  ghost predicate OnlyPrepares(ops: seq<Op>, path: Path) {
    forall op :: op in ops ==> PathOf(op) == path && op != ReadingBack(path, true) && !op.Mounting9p?
  }

  /** A share fails exactly when its directory could not be made, or twice in a row it could not be mounted or did not
      read back; it is never mounted more than twice, and when it fails the log says what failed. */
  lemma {:induction false} WhyAShareFails(ops: seq<Op>, share: string, path: Path, already: Option<string>,
                                          mounted: bool)
    requires Story(ops, share, path, already, mounted)
    ensures ops != [] && forall op :: op in ops ==> PathOf(op) == path
    ensures mounted <==> ops[|ops| - 1] == ReadingBack(path, true)
    ensures !mounted <==>
              ops[|ops| - 1] == MakingDirectory(path, false) ||
              (MountsTried(ops) == 2 && ReadingBack(path, true) !in ops)
    ensures MountsTried(ops) <= 2
    ensures !mounted ==> exists op :: op in ops && !op.Unmounting? && !op.ok
    ensures already == Some(share) && ReadingBack(path, false) !in ops ==> ops == [ReadingBack(path, true)] && mounted
  {
    var look := Look(share, path, already, false);
    if ops == [ReadingBack(path, true)] {
      MountsTriedOne(ops[0]);
    } else if ops == look + [MakingDirectory(path, false)] {
      assert ops[|ops| - 1] in ops;
      NoneTried(ops);
      assert already == Some(share) ==> ops[0] == ReadingBack(path, false);
    } else {
      var cleared, first, second :|
        && IsClearing(cleared, path, already) && Attempts(first, second, share, path, mounted)
        && ops == look + [MakingDirectory(path, true)] + cleared + first + second;
      FailsAfterAttempts(look + [MakingDirectory(path, true)] + cleared, first, second, share, path, mounted);
      assert already == Some(share) ==> ops[0] == ReadingBack(path, false);
    }
  }

  lemma {:induction false} FailsAfterAttempts(before: seq<Op>, first: seq<Op>, second: seq<Op>, share: string,
                                              path: Path, mounted: bool)
    requires Attempts(first, second, share, path, mounted) && OnlyPrepares(before, path)
    ensures var ops := before + first + second;
            && ops != [] && (forall op :: op in ops ==> PathOf(op) == path)
            && (mounted <==> ops[|ops| - 1] == ReadingBack(path, true)) && !ops[|ops| - 1].MakingDirectory?
            && (ReadingBack(path, true) in ops ==> mounted) && MountsTried(ops) <= 2
            && (!mounted ==> MountsTried(ops) == 2 && exists op :: op in ops && !op.Unmounting? && !op.ok)
  {
    var ops := before + first + second;
    MountsTriedConcat(before + first, second);
    MountsTriedConcat(before, first);
    NoneTried(before);
    AttemptIsOneMount(first, share, path, second == []);
    AttemptEnds(first, share, path, second == []);
    if second == [] {
      assert ops == before + first;
    } else {
      AttemptIsOneMount(second, share, path, mounted);
      AttemptEnds(second, share, path, mounted);
    }
    assert ops[|ops| - 1] in ops;
  }

  lemma {:induction false} NoneTried(ops: seq<Op>)
    requires forall op :: op in ops ==> !op.Mounting9p?
    ensures MountsTried(ops) == 0
  {
    if ops != [] {
      NoneTried(ops[..|ops| - 1]);
    }
  }
}
