/** Copying a payload tree into the guest, file by file, leaving identical files alone.

    The guest's files are a map from paths to nodes. Directories are listed in any order, and every call on
    the file system may fail of its own accord; a failed write may leave a torn file.
 */
module GuestFiles {
  import opened Outcomes

  type Path = seq<string>

  datatype Node = File(content: seq<Byte>) | Directory

  type Nodes = map<Path, Node>

  function At(nodes: Nodes, path: Path): Option<Node> {
    if path in nodes then Some(nodes[path]) else None
  }

  /** Everything lies in a directory. */
  ghost predicate IsTree(nodes: Nodes) {
    && At(nodes, []) == Some(Directory)
    && forall directory: Path, name: string :: directory + [name] in nodes ==> At(nodes, directory) == Some(Directory)
  }

  ghost predicate Disjoint(source: Path, destination: Path) {
    !(source <= destination) && !(destination <= source)
  }

  /** The path in the source tree that a path in the destination tree stands for. */
  ghost function Counterpart(source: Path, destination: Path, path: Path): Path
    requires destination <= path
  {
    source + path[|destination|..]
  }

  /** What a path holds once the tree is copied. */
  ghost function CopiedAt(nodes: Nodes, source: Path, destination: Path, path: Path): Option<Node> {
    if destination <= path && Counterpart(source, destination, path) in nodes
    then Some(nodes[Counterpart(source, destination, path)])
    else if path <= destination then Some(Directory)
    else At(nodes, path)
  }

  /** The tree was copied, and nothing else happened but making the directories above it. */
  ghost predicate Copied(nodes: Nodes, source: Path, destination: Path, after: Nodes) {
    forall path :: At(after, path) == CopiedAt(nodes, source, destination, path)
  }

  /** Some source file is missing from the destination or different there. */
  ghost predicate Differs(nodes: Nodes, source: Path, destination: Path) {
    exists path :: DiffersAt(nodes, source, destination, path)
  }

  ghost predicate DiffersAt(nodes: Nodes, source: Path, destination: Path, path: Path) {
    && destination <= path
    && var wanted := At(nodes, Counterpart(source, destination, path));
    && wanted.Some?
    && wanted.value.File?
    && At(nodes, path) != wanted
  }

  /** The source is a directory, the destination can be one, and nowhere does a file meet a directory. */
  ghost predicate Fits(nodes: Nodes, source: Path, destination: Path) {
    && At(nodes, source) == Some(Directory)
    && (forall path :: path <= destination ==> At(nodes, path) in {None, Some(Directory)})
    && forall path :: FitsAt(nodes, source, destination, path)
  }

  ghost predicate FitsAt(nodes: Nodes, source: Path, destination: Path, path: Path) {
    destination <= path && Counterpart(source, destination, path) in nodes && path in nodes ==>
      (nodes[path].File? <==> nodes[Counterpart(source, destination, path)].File?)
  }

  /** What a copy that stopped anywhere may have done to a path. */
  ghost predicate ReachedAt(nodes: Nodes, source: Path, destination: Path, after: Nodes, path: Path) {
    || At(after, path) == At(nodes, path)
    || (path <= destination && path !in nodes && At(after, path) == Some(Directory))
    || (destination <= path &&
        TornFrom(At(nodes, Counterpart(source, destination, path)), At(nodes, path), At(after, path)))
  }

  ghost predicate TornFrom(wanted: Option<Node>, was: Option<Node>, now: Option<Node>) {
    || (wanted == Some(Directory) && was == None && now == Some(Directory))
    || (wanted.Some? && wanted.value.File? && now.Some? && now.value.File? && now.value.content <= wanted.value.content)
  }

  ghost predicate Reached(nodes: Nodes, source: Path, destination: Path, after: Nodes) {
    forall path :: ReachedAt(nodes, source, destination, after, path)
  }

  /* Copying entry by entry. */

  /** A path that lies in one of the entries `done` of the destination. */
  ghost predicate Within(destination: Path, done: set<string>, path: Path) {
    destination < path && path[|destination|] in done
  }

  ghost function PartlyCopiedAt(nodes: Nodes, source: Path, destination: Path, done: set<string>,
                                path: Path): Option<Node> {
    if Within(destination, done, path) then CopiedAt(nodes, source, destination, path)
    else if path <= destination then Some(Directory)
    else At(nodes, path)
  }

  ghost predicate PartlyCopied(nodes: Nodes, source: Path, destination: Path, done: set<string>, after: Nodes) {
    forall path :: At(after, path) == PartlyCopiedAt(nodes, source, destination, done, path)
  }

  ghost predicate PartlyDiffers(nodes: Nodes, source: Path, destination: Path, done: set<string>) {
    exists path :: Within(destination, done, path) && DiffersAt(nodes, source, destination, path)
  }

  ghost predicate PartlyFits(nodes: Nodes, source: Path, destination: Path, done: set<string>) {
    forall path :: Within(destination, done, path) ==> FitsAt(nodes, source, destination, path)
  }

  ghost predicate Lists(nodes: Nodes, directory: Path, names: set<string>) {
    forall name :: name in names <==> directory + [name] in nodes
  }

  lemma CounterpartOfEntry(source: Path, destination: Path, name: string, path: Path)
    requires destination + [name] <= path
    ensures destination < path && path[|destination|] == name
    ensures Counterpart(source + [name], destination + [name], path) == Counterpart(source, destination, path)
  {
    assert path == destination + [name] + path[|destination| + 1..];
  }

  lemma EntryOf(destination: Path, path: Path)
    requires destination < path
    ensures destination + [path[|destination|]] <= path
  {
  }

  lemma {:induction false} AncestorsExist(nodes: Nodes, path: Path, n: nat)
    requires IsTree(nodes) && path in nodes && n <= |path|
    ensures path[..n] in nodes
    ensures n < |path| ==> nodes[path[..n]] == Directory
    decreases |path| - n
  {
    if n == |path| {
      assert path[..n] == path;
    } else {
      AncestorsExist(nodes, path, n + 1);
      assert path[..n + 1] == path[..n] + [path[n]];
      var directory, name := path[..n], path[n];
      assert directory + [name] in nodes;
      assert At(nodes, directory) == Some(Directory);
    }
  }

  lemma PrefixesCompare(a: Path, b: Path, path: Path)
    ensures a <= path && b <= path ==> a <= b || b <= a
    ensures a <= path && path <= b ==> a <= b
  {
    assert a <= path ==> a == path[..|a|];
    assert b <= path ==> b == path[..|b|];
    assert a <= path && path <= b ==> a == path[..|a|] == b[..|a|];
  }

  /** A copy in progress has not touched the source or the entries it has not come to. */
  lemma Untouched(nodes: Nodes, source: Path, destination: Path, done: set<string>, now: Nodes, path: Path)
    requires Disjoint(source, destination) && PartlyCopied(nodes, source, destination, done, now)
    requires source <= path || (destination < path && path[|destination|] !in done)
    ensures At(now, path) == At(nodes, path)
  {
    assert At(now, path) == PartlyCopiedAt(nodes, source, destination, done, path);
    PrefixesCompare(source, destination, path);
  }

  /** So an entry not yet come to looks to its own copy as it did at the start. */
  lemma EntryLooksTheSame(nodes: Nodes, source: Path, destination: Path, done: set<string>, now: Nodes, name: string,
                          path: Path)
    requires Disjoint(source, destination) && PartlyCopied(nodes, source, destination, done, now)
    requires name !in done && destination + [name] <= path
    ensures destination < path && path[|destination|] == name
    ensures Counterpart(source + [name], destination + [name], path) == Counterpart(source, destination, path)
    ensures At(now, path) == At(nodes, path)
    ensures At(now, Counterpart(source, destination, path)) == At(nodes, Counterpart(source, destination, path))
    ensures DiffersAt(now, source + [name], destination + [name], path) <==> DiffersAt(nodes, source, destination, path)
    ensures FitsAt(now, source + [name], destination + [name], path) <==> FitsAt(nodes, source, destination, path)
  {
    CounterpartOfEntry(source, destination, name, path);
    Untouched(nodes, source, destination, done, now, path);
    Untouched(nodes, source, destination, done, now, Counterpart(source, destination, path));
  }

  lemma EntryIsDisjoint(source: Path, destination: Path, name: string)
    requires Disjoint(source, destination)
    ensures Disjoint(source + [name], destination + [name])
  {
    PrefixOfEntry(source, destination, name);
    PrefixOfEntry(destination, source, name);
  }

  lemma PrefixOfEntry(a: Path, b: Path, name: string)
    ensures a + [name] <= b + [name] ==> a <= b
  {
    assert a + [name] <= b + [name] ==> a == (a + [name])[..|a|] == (b + [name])[..|a|] == b[..|a|];
  }

  /** Copying a directory's tree copies that entry. */
  lemma DirectoryCopied(nodes: Nodes, source: Path, destination: Path, done: set<string>, now: Nodes, name: string,
                        after: Nodes)
    requires Disjoint(source, destination) && PartlyCopied(nodes, source, destination, done, now)
    requires name !in done && At(nodes, source + [name]) == Some(Directory)
    requires Copied(now, source + [name], destination + [name], after)
    ensures PartlyCopied(nodes, source, destination, done + {name}, after)
  {
    forall path ensures At(after, path) == PartlyCopiedAt(nodes, source, destination, done + {name}, path) {
      assert At(after, path) == CopiedAt(now, source + [name], destination + [name], path);
      if destination + [name] <= path {
        EntryLooksTheSame(nodes, source, destination, done, now, name, path);
        if path == destination + [name] {
          assert Counterpart(source, destination, path) == source + [name];
        }
      } else {
        assert At(now, path) == PartlyCopiedAt(nodes, source, destination, done, path);
        if destination < path {
          EntryOf(destination, path);
        }
        if path <= destination + [name] {
          assert path == (destination + [name])[..|path|] == destination[..|path|];
        }
      }
    }
  }

  /** Leaving or writing one file copies that entry. */
  lemma FileCopied(nodes: Nodes, source: Path, destination: Path, done: set<string>, now: Nodes, name: string,
                   after: Nodes)
    requires IsTree(nodes) && Disjoint(source, destination) && PartlyCopied(nodes, source, destination, done, now)
    requires name !in done && source + [name] in nodes && nodes[source + [name]].File?
    requires At(after, destination + [name]) == At(nodes, source + [name])
    requires forall path :: path != destination + [name] ==> At(after, path) == At(now, path)
    ensures PartlyCopied(nodes, source, destination, done + {name}, after)
  {
    forall path ensures At(after, path) == PartlyCopiedAt(nodes, source, destination, done + {name}, path) {
      if destination + [name] <= path {
        EntryLooksTheSame(nodes, source, destination, done, now, name, path);
        NothingBeneathAFile(nodes, source, destination, name, path);
      } else {
        assert At(now, path) == PartlyCopiedAt(nodes, source, destination, done, path);
        if Within(destination, {name}, path) {
          EntryOf(destination, path);
        }
      }
    }
  }

  lemma NothingBeneathAFile(nodes: Nodes, source: Path, destination: Path, name: string, path: Path)
    requires IsTree(nodes) && source + [name] in nodes && nodes[source + [name]].File?
    requires destination + [name] <= path
    ensures Counterpart(source, destination, destination + [name]) == source + [name]
    ensures path != destination + [name] ==> Counterpart(source, destination, path) !in nodes
  {
    var there := Counterpart(source, destination, path);
    CounterpartOfEntry(source, destination, name, path);
    assert there[..|source| + 1] == source + [name];
    if there in nodes {
      AncestorsExist(nodes, there, |source| + 1);
    }
  }

  lemma DirectoryDiffers(nodes: Nodes, source: Path, destination: Path, done: set<string>, now: Nodes, name: string)
    requires Disjoint(source, destination) && PartlyCopied(nodes, source, destination, done, now) && name !in done
    ensures PartlyDiffers(nodes, source, destination, {name}) <==> Differs(now, source + [name], destination + [name])
  {
    forall path | Within(destination, {name}, path) || destination + [name] <= path
      ensures Within(destination, {name}, path) && destination + [name] <= path
      ensures DiffersAt(now, source + [name], destination + [name], path) <==>
                DiffersAt(nodes, source, destination, path)
    {
      if Within(destination, {name}, path) {
        EntryOf(destination, path);
      }
      EntryLooksTheSame(nodes, source, destination, done, now, name, path);
    }
    if PartlyDiffers(nodes, source, destination, {name}) {
      var path :| Within(destination, {name}, path) && DiffersAt(nodes, source, destination, path);
      assert DiffersAt(now, source + [name], destination + [name], path);
    }
    if Differs(now, source + [name], destination + [name]) {
      var path :| DiffersAt(now, source + [name], destination + [name], path);
      assert Within(destination, {name}, path) && DiffersAt(nodes, source, destination, path);
    }
  }

  lemma FileDiffers(nodes: Nodes, source: Path, destination: Path, name: string)
    requires IsTree(nodes) && source + [name] in nodes && nodes[source + [name]].File?
    ensures PartlyDiffers(nodes, source, destination, {name}) <==>
              At(nodes, destination + [name]) != At(nodes, source + [name])
  {
    var own := destination + [name];
    NothingBeneathAFile(nodes, source, destination, name, own);
    assert DiffersAt(nodes, source, destination, own) <==> At(nodes, own) != At(nodes, source + [name]);
    assert Within(destination, {name}, own);
    if PartlyDiffers(nodes, source, destination, {name}) {
      var path :| Within(destination, {name}, path) && DiffersAt(nodes, source, destination, path);
      EntryOf(destination, path);
      NothingBeneathAFile(nodes, source, destination, name, path);
    }
  }

  lemma OneMoreEntry(nodes: Nodes, source: Path, destination: Path, done: set<string>, name: string)
    ensures PartlyDiffers(nodes, source, destination, done + {name}) <==>
            PartlyDiffers(nodes, source, destination, done) || PartlyDiffers(nodes, source, destination, {name})
    ensures PartlyFits(nodes, source, destination, done + {name}) <==>
            PartlyFits(nodes, source, destination, done) && PartlyFits(nodes, source, destination, {name})
  {
    assert forall path :: Within(destination, done + {name}, path) <==>
                          Within(destination, done, path) || Within(destination, {name}, path);
  }

  lemma {:induction false} DirectoryFits(nodes: Nodes, source: Path, destination: Path, done: set<string>, now: Nodes,
                                         name: string)
    requires Disjoint(source, destination) && PartlyCopied(nodes, source, destination, done, now) && name !in done
    requires At(nodes, source + [name]) == Some(Directory)
    ensures PartlyFits(nodes, source, destination, {name}) <==> Fits(now, source + [name], destination + [name])
  {
    var own := destination + [name];
    EntryLooksTheSame(nodes, source, destination, done, now, name, own);
    Untouched(nodes, source, destination, done, now, source + [name]);
    assert Counterpart(source, destination, own) == source + [name];
    forall path | destination + [name] <= path
      ensures Within(destination, {name}, path)
      ensures FitsAt(now, source + [name], own, path) <==> FitsAt(nodes, source, destination, path)
    {
      EntryLooksTheSame(nodes, source, destination, done, now, name, path);
    }
    if PartlyFits(nodes, source, destination, {name}) {
      assert Within(destination, {name}, own) && FitsAt(nodes, source, destination, own);
      forall path | path <= own ensures At(now, path) in {None, Some(Directory)} {
        assert At(now, path) == PartlyCopiedAt(nodes, source, destination, done, path);
        if path != own {
          assert path <= destination;
        }
      }
      forall path ensures FitsAt(now, source + [name], own, path) {
      }
    } else {
      var path :| Within(destination, {name}, path) && !FitsAt(nodes, source, destination, path);
      EntryOf(destination, path);
    }
  }

  lemma FileFits(nodes: Nodes, source: Path, destination: Path, name: string)
    requires IsTree(nodes) && source + [name] in nodes && nodes[source + [name]].File?
    ensures PartlyFits(nodes, source, destination, {name}) <==> At(nodes, destination + [name]) != Some(Directory)
  {
    var own := destination + [name];
    NothingBeneathAFile(nodes, source, destination, name, own);
    assert Within(destination, {name}, own);
    forall path | Within(destination, {name}, path) && path != own ensures FitsAt(nodes, source, destination, path) {
      EntryOf(destination, path);
      NothingBeneathAFile(nodes, source, destination, name, path);
    }
  }

  /** With every entry done the tree is copied. */
  lemma {:induction false} AllEntriesCopied(nodes: Nodes, source: Path, destination: Path, done: set<string>,
                                            after: Nodes)
    requires IsTree(nodes) && At(nodes, source) == Some(Directory) && Lists(nodes, source, done)
    ensures PartlyCopied(nodes, source, destination, done, after) ==> Copied(nodes, source, destination, after)
    ensures PartlyDiffers(nodes, source, destination, done) <==> Differs(nodes, source, destination)
    ensures (forall path :: path <= destination ==> At(nodes, path) in {None, Some(Directory)}) ==>
              (PartlyFits(nodes, source, destination, done) <==> Fits(nodes, source, destination))
  {
    forall path | destination <= path && Counterpart(source, destination, path) in nodes
      ensures if path == destination then Counterpart(source, destination, path) == source
                else Within(destination, done, path)
    {
      if path != destination {
        var there := Counterpart(source, destination, path);
        AncestorsExist(nodes, there, |source| + 1);
        assert there[..|source| + 1] == source + [path[|destination|]];
      }
    }
    if PartlyCopied(nodes, source, destination, done, after) {
      forall path ensures At(after, path) == CopiedAt(nodes, source, destination, path) {
        assert At(after, path) == PartlyCopiedAt(nodes, source, destination, done, path);
      }
    }
    if Differs(nodes, source, destination) {
      var path :| DiffersAt(nodes, source, destination, path);
      assert Within(destination, done, path);
    }
    if PartlyFits(nodes, source, destination, done) &&
      (forall path :: path <= destination ==> At(nodes, path) in {None, Some(Directory)}) {
      assert destination <= destination && At(nodes, destination) in {None, Some(Directory)};
      forall path ensures FitsAt(nodes, source, destination, path) {
        if destination <= path && path != destination && Counterpart(source, destination, path) in nodes {
          assert Within(destination, done, path);
        }
      }
    }
  }

  /** Stopping between entries, or inside one, leaves every path as a stopped copy may leave it. */
  lemma StoppedBetweenEntries(nodes: Nodes, source: Path, destination: Path, done: set<string>, now: Nodes)
    requires PartlyCopied(nodes, source, destination, done, now) && PartlyFits(nodes, source, destination, done)
    requires forall path :: path <= destination ==> At(nodes, path) in {None, Some(Directory)}
    ensures Reached(nodes, source, destination, now)
  {
    forall path ensures ReachedAt(nodes, source, destination, now, path) {
      assert At(now, path) == PartlyCopiedAt(nodes, source, destination, done, path);
      if Within(destination, done, path) {
        assert FitsAt(nodes, source, destination, path);
      }
    }
  }

  lemma StoppedInsideEntry(nodes: Nodes, source: Path, destination: Path, done: set<string>, now: Nodes, name: string,
                           after: Nodes)
    requires Disjoint(source, destination) && PartlyCopied(nodes, source, destination, done, now)
    requires Reached(nodes, source, destination, now)
    requires name !in done && At(nodes, source + [name]) == Some(Directory)
    requires Reached(now, source + [name], destination + [name], after)
    ensures Reached(nodes, source, destination, after)
  {
    forall path ensures ReachedAt(nodes, source, destination, after, path) {
      assert ReachedAt(nodes, source, destination, now, path);
      assert ReachedAt(now, source + [name], destination + [name], after, path);
      if destination + [name] <= path {
        EntryLooksTheSame(nodes, source, destination, done, now, name, path);
        if path == destination + [name] {
          assert Counterpart(source, destination, path) == source + [name];
        }
      } else if path <= destination + [name] {
        assert path == (destination + [name])[..|path|] == destination[..|path|];
        assert At(now, path) == PartlyCopiedAt(nodes, source, destination, done, path);
      }
    }
  }

  lemma StoppedWriting(nodes: Nodes, source: Path, destination: Path, now: Nodes, name: string, after: Nodes)
    requires Reached(nodes, source, destination, now)
    requires source + [name] in nodes && nodes[source + [name]].File?
    requires forall path :: path != destination + [name] ==> At(after, path) == At(now, path)
    requires At(after, destination + [name]) == At(now, destination + [name]) ||
             exists n :: 0 <= n <= |nodes[source + [name]].content| &&
                         At(after, destination + [name]) == Some(File(nodes[source + [name]].content[..n]))
    ensures Reached(nodes, source, destination, after)
  {
    forall path ensures ReachedAt(nodes, source, destination, after, path) {
      assert ReachedAt(nodes, source, destination, now, path);
      if path == destination + [name] {
        assert Counterpart(source, destination, path) == source + [name];
      }
    }
  }

  lemma StaysATree(nodes: Nodes, directory: Path, name: string, node: Node)
    requires IsTree(nodes) && At(nodes, directory) == Some(Directory)
    requires node == Directory || At(nodes, directory + [name]) != Some(Directory)
    ensures IsTree(nodes[directory + [name] := node])
  {
    var after := nodes[directory + [name] := node];
    assert [] != directory + [name];
    forall within: Path, entry: string | within + [entry] in after ensures At(after, within) == Some(Directory) {
      if within + [entry] == directory + [name] {
        assert |within| == |directory|;
        assert within == (within + [entry])[..|within|] == (directory + [name])[..|directory|] == directory;
        assert directory != directory + [name];
      } else {
        assert within + [entry] in nodes;
        assert At(nodes, within) == Some(Directory);
      }
    }
  }

  function EntryNames(nodes: Nodes, directory: Path): (names: set<string>)
    ensures Lists(nodes, directory, names)
  {
    var names := set path | path in nodes && |path| == |directory| + 1 && directory <= path :: path[|directory|];
    assert Lists(nodes, directory, names) by {
      forall name ensures name in names <==> directory + [name] in nodes {
        if name in names {
          var path :| path in nodes && |path| == |directory| + 1 && directory <= path && path[|directory|] == name;
          assert path == directory + [name];
        }
        if directory + [name] in nodes {
          assert (directory + [name])[|directory|] == name;
        }
      }
    }
    names
  }

  ghost function Names(names: seq<string>): set<string> {
    set name | name in names
  }

  ghost predicate NoneTwice(names: seq<string>) {
    forall i, j :: 0 <= i < j < |names| ==> names[i] != names[j]
  }

  method InSomeOrder(all: set<string>) returns (names: seq<string>)
    ensures Names(names) == all && NoneTwice(names)
  {
    var left := all;
    names := [];
    while left != {}
      invariant Names(names) + left == all
      invariant Names(names) !! left
      invariant NoneTwice(names)
      decreases |left|
    {
      var name :| name in left;
      assert name !in Names(names);
      names := names + [name];
      left := left - {name};
    }
  }

  /* Reads that tell nothing. */

  /** A file that is at the destination just as it is at the source. */
  ghost predicate EqualAt(nodes: Nodes, source: Path, destination: Path, path: Path) {
    && destination <= path
    && var wanted := At(nodes, Counterpart(source, destination, path));
    && wanted.Some?
    && wanted.value.File?
    && At(nodes, path) == wanted
  }

  /** Some file could not be compared although it was equal. */
  ghost predicate Blind(nodes: Nodes, source: Path, destination: Path, unread: set<Path>) {
    exists path :: path in unread && EqualAt(nodes, source, destination, path)
  }

  lemma BlindEntry(nodes: Nodes, source: Path, destination: Path, done: set<string>, now: Nodes, name: string,
                   unread: set<Path>)
    requires Disjoint(source, destination) && PartlyCopied(nodes, source, destination, done, now) && name !in done
    requires forall path :: path in unread ==> destination + [name] <= path
    ensures Blind(now, source + [name], destination + [name], unread) <==> Blind(nodes, source, destination, unread)
  {
    forall path | path in unread
      ensures EqualAt(now, source + [name], destination + [name], path) <==> EqualAt(nodes, source, destination, path)
    {
      EntryLooksTheSame(nodes, source, destination, done, now, name, path);
    }
  }

  /** Equal files lie in the entries of the source. */
  lemma EqualIsWithin(nodes: Nodes, source: Path, destination: Path, all: set<string>, path: Path)
    requires IsTree(nodes) && At(nodes, source) == Some(Directory) && Lists(nodes, source, all)
    requires EqualAt(nodes, source, destination, path)
    ensures Within(destination, all, path)
  {
    var there := Counterpart(source, destination, path);
    assert path == destination ==> there == source;
    AncestorsExist(nodes, there, |source| + 1);
    assert there[..|source| + 1] == source + [path[|destination|]];
  }

  /* The copy itself. */

  /** One failure of a call on the file system. */
  datatype IoError = IoError

  /** What a call is for; a file of the destination is read only to be compared. */
  datatype Operation = Making | Listing | Reading | Comparing | Writing

  datatype Call = Call(operation: Operation, path: Path, failed: bool)

  /** The files that could not be read to be compared, from a place among the calls on. */
  ghost function UnreadSince(calls: seq<Call>, from: nat): set<Path> {
    set i | from <= i < |calls| && calls[i].failed && calls[i].operation.Comparing? :: calls[i].path
  }

  /** Some call failed that a copy cannot do without. */
  ghost predicate BrokeSince(calls: seq<Call>, from: nat) {
    exists i :: from <= i < |calls| && Breaks(calls[i])
  }

  predicate Breaks(call: Call) {
    call.failed && !call.operation.Comparing?
  }

  /** These files went unread, and this is whether anything broke, in exactly the calls made in between. */
  ghost predicate Accounts(before: seq<Call>, after: seq<Call>, unread: set<Path>, broke: bool) {
    before <= after && unread == UnreadSince(after, |before|) && (broke <==> BrokeSince(after, |before|))
  }

  lemma AccountsForOne(before: seq<Call>, call: Call)
    ensures Accounts(before, before + [call],
                     if call.failed && call.operation.Comparing? then {call.path} else {}, Breaks(call))
  {
    var after := before + [call];
    assert after[|before|] == call;
    assert Breaks(call) ==> Breaks(after[|before|]);
  }

  lemma AccountsForNone(calls: seq<Call>)
    ensures Accounts(calls, calls, {}, false)
  {
  }

  lemma AccountsForBoth(before: seq<Call>, middle: seq<Call>, after: seq<Call>, unread: set<Path>, broke: bool,
                        more: set<Path>, brokeLater: bool)
    requires Accounts(before, middle, unread, broke) && Accounts(middle, after, more, brokeLater)
    ensures Accounts(before, after, unread + more, broke || brokeLater)
  {
    assert forall i :: 0 <= i < |middle| ==> after[i] == middle[i];
    assert unread + more == UnreadSince(after, |before|);
    if BrokeSince(middle, |before|) {
      var i :| |before| <= i < |middle| && Breaks(middle[i]);
      assert Breaks(after[i]);
    }
    if BrokeSince(after, |before|) {
      var i :| |before| <= i < |after| && Breaks(after[i]);
      if i < |middle| {
        assert Breaks(middle[i]);
      }
    }
  }

  /** The guest's files, changed call by call. Any call may fail of its own accord: `fails` says which do. */
  class FileSystem {
    var nodes: Nodes
    const fails: (Operation, Path, nat) -> bool
    /** How many calls were made, and which. */
    var calls: nat
    ghost var made: seq<Call>

    /** Everything lies in a directory, and the calls failed as they had to. */
    ghost predicate Valid()
      reads this
    {
      && IsTree(nodes) && calls == |made|
      && forall i :: 0 <= i < |made| ==> made[i].failed == fails(made[i].operation, made[i].path, i)
    }

    constructor (nodes: Nodes, fails: (Operation, Path, nat) -> bool)
      requires IsTree(nodes)
      ensures Valid() && this.nodes == nodes && this.fails == fails && made == []
    {
      this.nodes, this.fails, calls, made := nodes, fails, 0, [];
    }

    /** A file that can never be read to be compared. */
    ghost predicate IsUnreadable(path: Path) {
      forall k :: fails(Comparing, path, k)
    }

    method Fails(operation: Operation, path: Path) returns (fault: bool)
      requires Valid()
      modifies this`calls, this`made
      ensures Valid() && made == old(made) + [Call(operation, path, fault)]
      ensures (forall k :: fails(operation, path, k)) ==> fault
    {
      fault := fails(operation, path, calls);
      calls, made := calls + 1, made + [Call(operation, path, fault)];
      AccountsForOne(old(made), Call(operation, path, fault));
    }

    /** Makes a directory and those above it. */
    method CreateDirAll(destination: Path) returns (result: Result<(), IoError>, ghost fault: bool)
      requires Valid()
      modifies this
      ensures Valid()
      ensures Accounts(old(made), made, {}, fault) && (fault ==> result.Err?)
      ensures result.Ok? ==>
                forall path :: At(nodes, path) == if path <= destination then Some(Directory) else At(old(nodes), path)
      ensures result.Ok? ==> forall path :: path <= destination ==> At(old(nodes), path) in {None, Some(Directory)}
      ensures result.Err? && !fault ==>
                exists path :: path <= destination && At(old(nodes), path) !in {None, Some(Directory)}
      ensures result.Err? ==>
                forall path :: At(nodes, path) == At(old(nodes), path)
                               || (path <= destination && path !in old(nodes) && At(nodes, path) == Some(Directory))
    {
      fault := false;
      AccountsForNone(made);
      for i := 0 to |destination| + 1
        invariant Valid() && !fault && Accounts(old(made), made, {}, false)
        invariant forall path :: At(nodes, path) ==
                    if path <= destination && |path| < i then Some(Directory) else At(old(nodes), path)
        invariant forall path :: path <= destination && |path| < i ==> At(old(nodes), path) in {None, Some(Directory)}
      {
        var directory := destination[..i];
        ghost var before := made;
        var failed := Fails(Making, directory);
        AccountsForOne(before, Call(Making, directory, failed));
        AccountsForBoth(old(made), before, made, {}, false, {}, failed);
        if failed {
          return Err(IoError), true;
        }
        if directory in nodes {
          if nodes[directory].File? {
            assert directory <= destination;
            return Err(IoError), false;
          }
        } else {
          assert directory == destination[..i - 1] + [destination[i - 1]];
          StaysATree(nodes, destination[..i - 1], destination[i - 1], Directory);
          nodes := nodes[directory := Directory];
        }
        assert forall path :: path <= destination && |path| == i ==> path == directory;
      }
      return Ok(()), false;
    }

    /** Lists a directory, in any order. */
    method ReadDir(directory: Path) returns (result: Result<seq<string>, IoError>, ghost fault: bool)
      requires Valid()
      modifies this`calls, this`made
      ensures Valid() && Accounts(old(made), made, {}, fault) && (fault ==> result.Err?)
      ensures result.Ok? ==> At(nodes, directory) == Some(Directory) && NoneTwice(result.value)
      ensures result.Ok? ==> Lists(nodes, directory, Names(result.value))
      ensures result.Err? && !fault ==> At(nodes, directory) != Some(Directory)
    {
      var failed := Fails(Listing, directory);
      AccountsForOne(old(made), Call(Listing, directory, failed));
      if failed {
        return Err(IoError), true;
      }
      if directory !in nodes || nodes[directory].File? {
        return Err(IoError), false;
      }
      var names := InSomeOrder(EntryNames(nodes, directory));
      return Ok(names), false;
    }

    method Read(path: Path, operation: Operation) returns (result: Result<seq<Byte>, IoError>, ghost fault: bool)
      requires Valid() && (operation == Reading || operation == Comparing)
      modifies this`calls, this`made
      ensures Valid() && (fault ==> result.Err?)
      ensures Accounts(old(made), made,
                       if fault && operation == Comparing then {path} else {}, fault && operation == Reading)
      ensures operation == Comparing && IsUnreadable(path) ==> fault
      ensures result.Ok? ==> At(nodes, path) == Some(File(result.value))
      ensures result.Err? && !fault ==> path !in nodes || nodes[path] == Directory
    {
      var failed := Fails(operation, path);
      AccountsForOne(old(made), Call(operation, path, failed));
      if failed {
        return Err(IoError), true;
      }
      if path in nodes && nodes[path].File? {
        return Ok(nodes[path].content), false;
      }
      return Err(IoError), false;
    }

    /** Writes a file in a directory that is there. A write that fails may leave the front of the content. */
    method Write(directory: Path, name: string, content: seq<Byte>)
      returns (result: Result<(), IoError>, ghost fault: bool)
      requires Valid() && At(nodes, directory) == Some(Directory)
      modifies this
      ensures Valid()
      ensures Accounts(old(made), made, {}, fault) && (fault ==> result.Err?)
      ensures forall path :: path != directory + [name] ==> At(nodes, path) == At(old(nodes), path)
      ensures result.Ok? ==> At(nodes, directory + [name]) == Some(File(content))
      ensures result.Ok? || fault <==> At(old(nodes), directory + [name]) != Some(Directory)
      ensures result.Err? ==>
                || nodes == old(nodes)
                || exists n :: 0 <= n <= |content| && At(nodes, directory + [name]) == Some(File(content[..n]))
    {
      var path := directory + [name];
      AccountsForNone(made);
      if At(nodes, path) == Some(Directory) {
        return Err(IoError), false;
      }
      var failed := Fails(Writing, path);
      AccountsForOne(old(made), Call(Writing, path, failed));
      if failed {
        if * {
          var n: nat :| n <= |content|;
          StaysATree(nodes, directory, name, File(content[..n]));
          nodes := nodes[path := File(content[..n])];
        }
        return Err(IoError), true;
      }
      StaysATree(nodes, directory, name, File(content));
      nodes := nodes[path := File(content)];
      return Ok(()), false;
    }

    /** How far a copy has come: what is copied, what has been said to have changed, and what went unread. */
    ghost predicate Progress(start: Nodes, source: Path, destination: Path, done: set<string>, changed: bool,
                             unread: set<Path>)
      reads this
    {
      && Valid()
      && PartlyCopied(start, source, destination, done, nodes)
      && PartlyFits(start, source, destination, done)
      && (changed <==> PartlyDiffers(start, source, destination, done) || Blind(start, source, destination, unread))
      && Inside(destination, unread)
      && AllUnreadable(start, source, destination, done, unread)
    }

    ghost predicate Inside(destination: Path, unread: set<Path>) {
      forall path :: path in unread ==> destination <= path
    }

    ghost predicate AllUnreadable(start: Nodes, source: Path, destination: Path, done: set<string>, unread: set<Path>) {
      forall path :: Within(destination, done, path) && EqualAt(start, source, destination, path) &&
                     IsUnreadable(path) ==>
        path in unread
    }

    /** The recursive copy.

        Success means exactly that the tree was copied, whatever order directories were listed in. It comes
        exactly when no file meets a directory and no call broke that the copy cannot do without. It says
        that something changed exactly when some file was missing or different, or was equal and could not be
        read to be compared (`unread`). Stopped anywhere, the copy has touched nothing but what it was copying. */
    method CopyTree(source: Path, destination: Path)
      returns (result: Result<bool, IoError>, ghost unread: set<Path>, ghost broke: bool)
      requires Valid() && Disjoint(source, destination)
      modifies this
      ensures Valid()
      ensures result.Ok? <==> Fits(old(nodes), source, destination) && !broke
      ensures result.Ok? ==> Copied(old(nodes), source, destination, nodes)
      ensures result.Ok? ==> (result.value <==> Differs(old(nodes), source, destination) ||
                                                Blind(old(nodes), source, destination, unread))
      ensures result.Err? ==> Reached(old(nodes), source, destination, nodes)
      ensures Accounts(old(made), made, unread, broke)
      ensures Inside(destination, unread)
      ensures result.Ok? ==> forall path :: EqualAt(old(nodes), source, destination, path) && IsUnreadable(path) ==>
                path in unread
      decreases |Beneath(nodes, source)|, 2
    {
      ghost var start := nodes;
      unread := {};
      var created;
      created, broke := CreateDirAll(destination);
      if created.Err? {
        return Err(IoError), {}, broke;
      }
      ghost var first := made;
      assert PartlyCopied(start, source, destination, {}, nodes);
      StoppedBetweenEntries(start, source, destination, {}, nodes);
      Untouched(start, source, destination, {}, nodes, source);
      var listed;
      listed, broke := ReadDir(source);
      AccountsForBoth(old(made), first, made, {}, false, {}, broke);
      ghost var listing := made;
      if listed.Err? {
        return Err(IoError), {}, broke;
      }
      ghost var all := Names(listed.value);
      SameListing(start, source, destination, nodes, all);
      SameBeneath(start, source, destination, {}, nodes);
      AllEntriesCopied(start, source, destination, all, start);
      result, unread, broke := CopyEntries(source, destination, listed.value, start);
      AccountsForBoth(old(made), listing, made, {}, false, unread, broke);
      assert {} + unread == unread;
      if result.Ok? {
        AllEntriesCopied(start, source, destination, all, nodes);
        forall path | EqualAt(start, source, destination, path) ensures Within(destination, all, path) {
          EqualIsWithin(start, source, destination, all, path);
        }
      }
    }

    /** Copies the entries of a directory, in the order they were listed. */
    method CopyEntries(source: Path, destination: Path, names: seq<string>, ghost start: Nodes)
      returns (result: Result<bool, IoError>, ghost unread: set<Path>, ghost broke: bool)
      requires IsTree(start) && Valid() && Disjoint(source, destination)
      requires PartlyCopied(start, source, destination, {}, nodes)
      requires forall path :: path <= destination ==> At(start, path) in {None, Some(Directory)}
      requires NoneTwice(names) && Lists(start, source, Names(names))
      modifies this
      ensures Valid()
      ensures result.Ok? <==> PartlyFits(start, source, destination, Names(names)) && !broke
      ensures result.Ok? ==> Progress(start, source, destination, Names(names), result.value, unread)
      ensures result.Err? ==> Reached(start, source, destination, nodes)
      ensures Accounts(old(made), made, unread, broke)
      ensures Inside(destination, unread)
      decreases |Beneath(nodes, source)|, 1
    {
      ghost var all, done: set<string> := Names(names), {};
      var changed := false;
      unread, broke := {}, false;
      AccountsForNone(made);
      SameBeneath(start, source, destination, {}, nodes);
      for i := 0 to |names|
        invariant done == Names(names[..i])
        invariant Progress(start, source, destination, done, changed, unread) && !broke
        invariant Accounts(old(made), made, unread, false)
      {
        StoppedBetweenEntries(start, source, destination, done, nodes);
        assert names[i] in all && names[i] !in done;
        OneMoreEntry(start, source, destination, all, names[i]);
        assert all + {names[i]} == all;
        OneMoreEntry(start, source, destination, done, names[i]);
        assert names[..i + 1] == names[..i] + [names[i]];
        SameBeneath(start, source, destination, done, nodes);
        var copied;
        ghost var more, before := {}, made;
        copied, more, broke := CopyEntry(source, destination, names[i], start, done);
        AccountsForBoth(old(made), before, made, unread, false, more, broke);
        unread := unread + more;
        if copied.Err? {
          return Err(IoError), unread, broke;
        }
        changed := changed || copied.value;
        done := done + {names[i]};
        assert Progress(start, source, destination, done, changed, unread);
      }
      assert names[..|names|] == names;
      return Ok(changed), unread, false;
    }

    /** Copies one entry of the directory being copied. */
    method CopyEntry(source: Path, destination: Path, name: string, ghost start: Nodes, ghost done: set<string>)
      returns (result: Result<bool, IoError>, ghost unread: set<Path>, ghost broke: bool)
      requires IsTree(start) && Valid() && Disjoint(source, destination)
      requires PartlyCopied(start, source, destination, done, nodes) && Reached(start, source, destination, nodes)
      requires name !in done && source + [name] in start
      modifies this
      ensures Valid()
      ensures result.Ok? <==> PartlyFits(start, source, destination, {name}) && !broke
      ensures result.Ok? ==> PartlyCopied(start, source, destination, done + {name}, nodes)
      ensures result.Ok? ==> (result.value <==> PartlyDiffers(start, source, destination, {name}) ||
                                                Blind(start, source, destination, unread))
      ensures result.Err? ==> Reached(start, source, destination, nodes)
      ensures Accounts(old(made), made, unread, broke)
      ensures Inside(destination, unread)
      ensures result.Ok? ==> AllUnreadable(start, source, destination, {name}, unread)
      decreases |Beneath(nodes, source)|, 0
    {
      Untouched(start, source, destination, done, nodes, source + [name]);
      var failed := Fails(Listing, source + [name]);
      AccountsForOne(old(made), Call(Listing, source + [name], failed));
      if failed {
        return Err(IoError), {}, true;
      }
      ghost var known := made;
      if nodes[source + [name]] == Directory {
        FewerBeneath(nodes, source, name);
        result, unread, broke := CopyDirectory(source, destination, name, start, done);
      } else {
        result, unread, broke := CopyFile(source, destination, name, start, done);
      }
      AccountsForBoth(old(made), known, made, {}, false, unread, broke);
      assert {} + unread == unread;
    }

    method CopyDirectory(source: Path, destination: Path, name: string, ghost start: Nodes, ghost done: set<string>)
      returns (result: Result<bool, IoError>, ghost unread: set<Path>, ghost broke: bool)
      requires IsTree(start) && Valid() && Disjoint(source, destination)
      requires PartlyCopied(start, source, destination, done, nodes) && Reached(start, source, destination, nodes)
      requires name !in done && At(start, source + [name]) == Some(Directory)
      modifies this
      ensures Valid()
      ensures result.Ok? <==> PartlyFits(start, source, destination, {name}) && !broke
      ensures result.Ok? ==> PartlyCopied(start, source, destination, done + {name}, nodes)
      ensures result.Ok? ==> (result.value <==> PartlyDiffers(start, source, destination, {name}) ||
                                                Blind(start, source, destination, unread))
      ensures result.Err? ==> Reached(start, source, destination, nodes)
      ensures Accounts(old(made), made, unread, broke)
      ensures Inside(destination, unread)
      ensures result.Ok? ==> AllUnreadable(start, source, destination, {name}, unread)
      decreases |Beneath(nodes, source + [name])|, 3
    {
      ghost var before := nodes;
      EntryIsDisjoint(source, destination, name);
      DirectoryFits(start, source, destination, done, before, name);
      DirectoryDiffers(start, source, destination, done, before, name);
      result, unread, broke := CopyTree(source + [name], destination + [name]);
      UnreadHigherUp(destination, name, unread);
      BlindEntry(start, source, destination, done, before, name, unread);
      if result.Ok? {
        DirectoryCopied(start, source, destination, done, before, name, nodes);
        UnreadableEntry(start, source, destination, done, before, name, unread);
      } else {
        StoppedInsideEntry(start, source, destination, done, before, name, nodes);
      }
    }

    lemma UnreadHigherUp(destination: Path, name: string, unread: set<Path>)
      requires Inside(destination + [name], unread)
      ensures Inside(destination, unread)
    {
      forall path | path in unread ensures destination <= path {
        PrefixesCompare(destination, path, destination + [name]);
      }
    }

    lemma UnreadableEntry(start: Nodes, source: Path, destination: Path, done: set<string>, before: Nodes, name: string,
                          unread: set<Path>)
      requires Disjoint(source, destination) && PartlyCopied(start, source, destination, done, before) && name !in done
      requires forall path :: EqualAt(before, source + [name], destination + [name], path) && IsUnreadable(path) ==>
                 path in unread
      ensures AllUnreadable(start, source, destination, {name}, unread)
    {
      forall path | Within(destination, {name}, path) && EqualAt(start, source, destination, path)
        ensures EqualAt(before, source + [name], destination + [name], path)
      {
        EntryOf(destination, path);
        EntryLooksTheSame(start, source, destination, done, before, name, path);
      }
    }

    /** Compares one file and writes it when it is not known to be equal. */
    method CopyFile(source: Path, destination: Path, name: string, ghost start: Nodes, ghost done: set<string>)
      returns (result: Result<bool, IoError>, ghost unread: set<Path>, ghost broke: bool)
      requires IsTree(start) && Valid() && Disjoint(source, destination)
      requires PartlyCopied(start, source, destination, done, nodes) && Reached(start, source, destination, nodes)
      requires name !in done && source + [name] in start && start[source + [name]].File?
      modifies this
      ensures Valid()
      ensures result.Ok? <==> PartlyFits(start, source, destination, {name}) && !broke
      ensures result.Ok? ==> PartlyCopied(start, source, destination, done + {name}, nodes)
      ensures result.Ok? ==> (result.value <==> PartlyDiffers(start, source, destination, {name}) ||
                                                Blind(start, source, destination, unread))
      ensures result.Err? ==> Reached(start, source, destination, nodes)
      ensures Accounts(old(made), made, unread, broke)
      ensures Inside(destination, unread)
      ensures result.Ok? ==> AllUnreadable(start, source, destination, {name}, unread)
    {
      ghost var before := nodes;
      var from, to := source + [name], destination + [name];
      Untouched(start, source, destination, done, nodes, from);
      EntryLooksTheSame(start, source, destination, done, nodes, name, to);
      FileFits(start, source, destination, name);
      FileDiffers(start, source, destination, name);
      unread := {};
      var wanted, present, written;
      ghost var blinded;
      wanted, broke := Read(from, Reading);
      if wanted.Err? {
        return Err(IoError), {}, broke;
      }
      ghost var read := made;
      present, blinded := Read(to, Comparing);
      unread := if blinded then {to} else {};
      AccountsForBoth(old(made), read, made, {}, false, unread, false);
      assert {} + unread == unread;
      ghost var compared := made;
      OneFileUnread(start, source, destination, name, unread);
      if present.Ok? && present.value == wanted.value {
        FileCopied(start, source, destination, done, before, name, nodes);
        return Ok(false), unread, false;
      }
      assert At(nodes, destination) == PartlyCopiedAt(start, source, destination, done, destination);
      written, broke := Write(destination, name, wanted.value);
      AccountsForBoth(old(made), compared, made, unread, false, {}, broke);
      assert unread + {} == unread;
      if written.Err? {
        StoppedWriting(start, source, destination, before, name, nodes);
        return Err(IoError), unread, broke;
      }
      FileCopied(start, source, destination, done, before, name, nodes);
      return Ok(true), unread, false;
    }

    /** Of a file's entry, only the file itself can be equal and go unread. */
    lemma OneFileUnread(start: Nodes, source: Path, destination: Path, name: string, unread: set<Path>)
      requires IsTree(start) && source + [name] in start && start[source + [name]].File?
      requires unread <= {destination + [name]}
      ensures Blind(start, source, destination, unread) <==>
              destination + [name] in unread && At(start, destination + [name]) == At(start, source + [name])
      ensures (IsUnreadable(destination + [name]) ==> destination + [name] in unread) ==>
                AllUnreadable(start, source, destination, {name}, unread)
    {
      var to := destination + [name];
      NothingBeneathAFile(start, source, destination, name, to);
      assert EqualAt(start, source, destination, to) <==> At(start, to) == At(start, source + [name]);
      forall path | Within(destination, {name}, path) && EqualAt(start, source, destination, path) ensures path == to {
        EntryOf(destination, path);
        NothingBeneathAFile(start, source, destination, name, path);
      }
    }

    /** A second copy right after a successful one, whatever faults that one met, finds nothing to do and does nothing;
        only a file it cannot read to compare makes it write that file again and say so. `between` is the calls the
        first had made. */
    method CopyTwice(source: Path, destination: Path)
      returns (first: Result<bool, IoError>, second: Result<bool, IoError>, ghost between: seq<Call>)
      requires Valid() && Disjoint(source, destination)
      modifies this
      ensures old(made) <= between <= made
      ensures first.Ok? ==> (second.Ok? <==> !BrokeSince(made, |between|))
      ensures first.Ok? && second.Ok? ==> Copied(old(nodes), source, destination, nodes)
      ensures first.Ok? && second.Ok? ==>
                (second.value <==> Blind(nodes, source, destination, UnreadSince(made, |between|)))
    {
      ghost var start := nodes;
      ghost var unread, broke;
      first, unread, broke := CopyTree(source, destination);
      between := made;
      ghost var once := nodes;
      second, unread, broke := CopyTree(source, destination);
      if first.Ok? {
        CopyingIsIdempotent(start, source, destination, once);
        if second.Ok? {
          CopyIsUnique(once, source, destination, once, nodes);
        }
      }
    }
  }

  /** The one answer that can mislead: here both trees are equal, the copied file cannot be read, and the copy says that
      something changed. */
  method ChangedThoughEqual() returns (result: Result<bool, IoError>)
    ensures result == Ok(true) && !Differs(SMALL, ["s"], ["d"])
  {
    SmallIsATree();
    var files := new FileSystem(SMALL, (operation: Operation, path, k) => operation.Comparing? && path == ["d", "f"]);
    SmallFits();
    assert !Differs(SMALL, ["s"], ["d"]) by {
      forall path ensures !DiffersAt(SMALL, ["s"], ["d"], path) {
        if ["d"] <= path && Counterpart(["s"], ["d"], path) in SMALL {
          SmallPairs(path);
        }
      }
    }
    ghost var unread, broke;
    result, unread, broke := files.CopyTree(["s"], ["d"]);
    assert ["d", "f"] in unread;
    assert !broke by {
      assert forall i :: 0 <= i < |files.made| ==> !Breaks(files.made[i]);
    }
  }

  const SMALL: Nodes := map[[] := Directory, ["s"] := Directory, ["d"] := Directory,
                            ["s", "f"] := File([7]), ["d", "f"] := File([7])]

  lemma SmallIsATree()
    ensures IsTree(SMALL)
  {
    forall directory: Path, name: string | directory + [name] in SMALL ensures At(SMALL, directory) == Some(Directory) {
      var path := directory + [name];
      assert directory == path[..|path| - 1];
      if path == ["s"] || path == ["d"] {
        assert directory == [];
      } else if path == ["s", "f"] {
        assert directory == ["s"];
      } else {
        assert path == ["d", "f"] && directory == ["d"];
      }
    }
  }

  lemma SmallPairs(path: Path)
    requires ["d"] <= path && Counterpart(["s"], ["d"], path) in SMALL
    ensures path == ["d"] || path == ["d", "f"]
    ensures At(SMALL, path) == At(SMALL, Counterpart(["s"], ["d"], path))
  {
    var there, rest := Counterpart(["s"], ["d"], path), path[1..];
    assert path == ["d"] + rest && there == ["s"] + rest && there[1..] == rest;
    assert there[0] == "s" && there != ["d"] && there != ["d", "f"];
    if |rest| == 0 {
      assert there == ["s"] && path == ["d"];
    } else {
      assert there == ["s", "f"] && rest == ["f"];
      assert path == ["d", "f"];
    }
  }

  lemma SmallFits()
    ensures Disjoint(["s"], ["d"]) && Fits(SMALL, ["s"], ["d"])
    ensures EqualAt(SMALL, ["s"], ["d"], ["d", "f"])
  {
    assert ["s"][0] != ["d"][0];
    assert Counterpart(["s"], ["d"], ["d", "f"]) == ["s", "f"];
    forall path ensures FitsAt(SMALL, ["s"], ["d"], path) {
      if ["d"] <= path && Counterpart(["s"], ["d"], path) in SMALL {
        SmallPairs(path);
      }
    }
    forall path | path <= ["d"] ensures At(SMALL, path) in {None, Some(Directory)} {
      if path != [] {
        assert path == ["d"];
      }
    }
  }

  ghost function Beneath(nodes: Nodes, directory: Path): set<Path> {
    set path | path in nodes && directory < path
  }

  lemma FewerBeneath(nodes: Nodes, source: Path, name: string)
    requires source + [name] in nodes
    ensures |Beneath(nodes, source + [name])| < |Beneath(nodes, source)|
  {
    var inner, outer := Beneath(nodes, source + [name]), Beneath(nodes, source);
    assert source + [name] in outer && source + [name] !in inner;
    forall path | path in inner ensures path in outer {
      assert source < source + [name] <= path;
      PrefixesCompare(source, path, source + [name]);
    }
    Smaller(inner, outer);
  }

  lemma Smaller(inner: set<Path>, outer: set<Path>)
    requires inner < outer
    ensures |inner| < |outer|
  {
    assert |outer| == |inner| + |outer - inner| by {
      assert outer == inner + (outer - inner);
    }
  }

  lemma SameBeneath(nodes: Nodes, source: Path, destination: Path, done: set<string>, now: Nodes)
    requires Disjoint(source, destination) && PartlyCopied(nodes, source, destination, done, now)
    ensures Beneath(now, source) == Beneath(nodes, source)
  {
    forall path | source < path ensures path in now <==> path in nodes {
      Untouched(nodes, source, destination, done, now, path);
    }
  }

  lemma SameListing(nodes: Nodes, source: Path, destination: Path, now: Nodes, names: set<string>)
    requires Disjoint(source, destination) && PartlyCopied(nodes, source, destination, {}, now)
    requires Lists(now, source, names)
    ensures Lists(nodes, source, names)
  {
    forall name ensures name in names <==> source + [name] in nodes {
      Untouched(nodes, source, destination, {}, now, source + [name]);
    }
  }

  /** There is one result a successful copy can have, so the order of listings makes no difference. */
  lemma CopyIsUnique(nodes: Nodes, source: Path, destination: Path, one: Nodes, other: Nodes)
    requires Copied(nodes, source, destination, one) && Copied(nodes, source, destination, other)
    ensures one == other
  {
    forall path ensures path in one <==> path in other ensures path in one ==> one[path] == other[path] {
      assert At(one, path) == CopiedAt(nodes, source, destination, path) == At(other, path);
    }
  }

  /** A copied tree is its own copy, with nothing different and nothing in the way. */
  lemma CopyingIsIdempotent(nodes: Nodes, source: Path, destination: Path, after: Nodes)
    requires Disjoint(source, destination) && Fits(nodes, source, destination)
    requires Copied(nodes, source, destination, after)
    ensures Copied(after, source, destination, after)
    ensures !Differs(after, source, destination) && Fits(after, source, destination)
  {
    forall path | source <= path ensures At(after, path) == At(nodes, path) {
      PrefixesCompare(source, destination, path);
      assert At(after, path) == CopiedAt(nodes, source, destination, path);
    }
    forall path
      ensures At(after, path) == CopiedAt(after, source, destination, path)
      ensures !DiffersAt(after, source, destination, path) && FitsAt(after, source, destination, path)
    {
      assert At(after, path) == CopiedAt(nodes, source, destination, path);
      if destination <= path {
        var there := Counterpart(source, destination, path);
        assert source <= there && At(after, there) == At(nodes, there);
      }
    }
    assert At(after, source) == Some(Directory);
    forall path | path <= destination ensures At(after, path) in {None, Some(Directory)} {
      assert At(after, path) == CopiedAt(nodes, source, destination, path);
      if path == destination {
        assert Counterpart(source, destination, path) == source;
      }
    }
  }
}
