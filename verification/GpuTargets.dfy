/** Where a GPU share may be mounted in the guest, and the host's half of the share-name rule.

    A path is its sequence of components, which is how paths compare. What a manifest says is
    checked before any of it becomes part of a path.
 */
module GpuTargets {
  import opened Outcomes

  type Path = seq<string>

  const WSL_LIB: Path := ["usr", "lib", "wsl", "lib"]
  const WSL_HOST_LIB: Path := ["usr", "lib", "wsl", "host-lib"]
  const WSL_D3D12: Path := ["usr", "lib", "wsl", "d3d12"]
  const DRIVER_ROOT: Path := ["usr", "lib", "wsl", "drivers"]
  const PAYLOAD: Path := ["opt", "vmlord", "gpu-payload"]

  const MAX_PACKAGE_NAME := 96
  const MAX_SHARE_NAME := 128

  datatype GpuShare = GpuShare(name: string, role: int, package: string)

  datatype Role = UnspecifiedRole | WslLib | DriverPackage | GpuPayload | WslD3d12

  /** The role a wire value stands for; any other number is no role. */
  function RoleOf(value: int): Role {
    if value == 1 then WslLib
    else if value == 2 then DriverPackage
    else if value == 3 then GpuPayload
    else if value == 4 then WslD3d12
    else UnspecifiedRole
  }

  function RoleToWire(role: Role): int {
    match role
    case UnspecifiedRole => 0
    case WslLib => 1
    case DriverPackage => 2
    case GpuPayload => 3
    case WslD3d12 => 4
  }

  datatype Refusal = UnknownRole | InvalidName | InvalidPackage | DuplicateTarget

  datatype Planned = Mount(share: string, path: Path) | Refused(share: string, reason: Refusal)

  predicate IsNameCharacter(c: char) {
    'a' <= c <= 'z' || 'A' <= c <= 'Z' || '0' <= c <= '9' || c == '.' || c == '_' || c == '-'
  }

  predicate AllNameCharacters(text: string) {
    forall i :: 0 <= i < |text| ==> IsNameCharacter(text[i])
  }

  predicate IsMountableName(name: string) {
    name != "" && |name| <= MAX_SHARE_NAME && AllNameCharacters(name)
  }

  predicate IsPathComponent(package: string) {
    IsMountableName(package) && |package| <= MAX_PACKAGE_NAME && package != "." && package != ".."
  }

  function Target(share: GpuShare): Result<Path, Refusal> {
    if !IsMountableName(share.name) then Err(InvalidName)
    else
      match RoleOf(share.role)
      case WslLib => Ok(WSL_HOST_LIB)
      case WslD3d12 => Ok(WSL_D3D12)
      case GpuPayload => Ok(PAYLOAD)
      case DriverPackage => if IsPathComponent(share.package) then Ok(DRIVER_ROOT + [share.package])
                              else Err(InvalidPackage)
      case UnspecifiedRole => Err(UnknownRole)
  }

  predicate IsManaged(path: Path) {
    path == WSL_HOST_LIB || path == WSL_D3D12 || path == PAYLOAD
    || (path != [] && path[..|path| - 1] == DRIVER_ROOT)
  }

  /** One path is above another, or is it. */
  predicate IsWithin(path: Path, ancestor: Path) {
    ancestor <= path
  }

  /* The plan of a whole manifest. */

  /** Whether an entry before the `i`th already goes to `path`. */
  ghost predicate TakenBefore(planned: seq<Planned>, i: nat, path: Path)
    requires i <= |planned|
  {
    exists j :: 0 <= j < i && planned[j].Mount? && planned[j].path == path
  }

  /** What the plan of one share must be, given the entries before it. */
  ghost predicate PlannedRight(share: GpuShare, planned: seq<Planned>, i: nat)
    requires i < |planned|
  {
    planned[i] == (match Target(share)
                   case Err(reason) => Refused(share.name, reason)
                   case Ok(path) => if TakenBefore(planned, i, path) then Refused(share.name, DuplicateTarget)
                                      else Mount(share.name, path))
  }

  /** Plans every share in the manifest's order. A share is refused as a duplicate exactly when an earlier
      planned share holds its target. */
  method Plan(shares: seq<GpuShare>) returns (planned: seq<Planned>)
    ensures |planned| == |shares|
    ensures forall i :: 0 <= i < |shares| ==> PlannedRight(shares[i], planned, i)
  {
    planned := [];
    var claimed: seq<Path> := [];
    for n := 0 to |shares|
      invariant |planned| == n
      invariant forall i :: 0 <= i < n ==> PlannedRight(shares[i], planned, i)
      invariant forall path :: path in claimed <==> TakenBefore(planned, n, path)
    {
      ghost var before := planned;
      match Target(shares[n]) {
      case Err(reason) =>
        planned := planned + [Refused(shares[n].name, reason)];
      case Ok(path) =>
        if path in claimed {
          planned := planned + [Refused(shares[n].name, DuplicateTarget)];
        } else {
          claimed := claimed + [path];
          planned := planned + [Mount(shares[n].name, path)];
        }
      }
      PlanGrows(before, planned);
    }
  }

  lemma PlanGrows(before: seq<Planned>, after: seq<Planned>)
    requires |after| == |before| + 1 && after[..|before|] == before
    ensures forall i, path :: 0 <= i <= |before| ==> (TakenBefore(after, i, path) <==> TakenBefore(before, i, path))
    ensures forall path :: TakenBefore(after, |after|, path) <==>
              TakenBefore(before, |before|, path) || (after[|before|].Mount? && after[|before|].path == path)
  {
    assert forall j :: 0 <= j < |before| ==> after[j] == before[j];
  }

  /** The plan a manifest is due is unique, so any plan that is right is the one `Plan` makes. */
  lemma {:induction false} PlanIsUnique(shares: seq<GpuShare>, a: seq<Planned>, b: seq<Planned>, n: nat)
    requires |a| == |b| == |shares| && n <= |shares|
    requires forall i :: 0 <= i < |shares| ==> PlannedRight(shares[i], a, i)
    requires forall i :: 0 <= i < |shares| ==> PlannedRight(shares[i], b, i)
    ensures a[..n] == b[..n]
  {
    if n > 0 {
      PlanIsUnique(shares, a, b, n - 1);
      var last := n - 1;
      assert forall j :: 0 <= j < last ==> a[j] == a[..last][j] && b[j] == b[..last][j];
      assert PlannedRight(shares[last], a, last) && PlannedRight(shares[last], b, last);
      if Target(shares[last]).Ok? {
        assert TakenBefore(a, last, Target(shares[last]).value) <==> TakenBefore(b, last, Target(shares[last]).value);
      }
    }
  }

  /** What a mount target can look like. */
  lemma TargetsAreManaged(share: GpuShare)
    requires Target(share).Ok?
    ensures IsManaged(Target(share).value)
    ensures Target(share).value != WSL_LIB
  {
    if RoleOf(share.role) == DriverPackage {
      var path := DRIVER_ROOT + [share.package];
      assert path[..|path| - 1] == DRIVER_ROOT;
      assert |path| == 5;
    } else {
      assert WSL_HOST_LIB[3] != WSL_LIB[3] && WSL_D3D12[3] != WSL_LIB[3];
    }
  }

  /** Which share goes where, and which is refused for what: a name that cannot be mounted comes before a role that
      is not known, and a package is looked at for a driver's share alone. */
  lemma TargetsByRole(share: GpuShare)
    ensures Target(share) == Err(InvalidName) <==> !IsMountableName(share.name)
    ensures Target(share) == Err(UnknownRole) <==> IsMountableName(share.name) && !(1 <= share.role <= 4)
    ensures Target(share) == Err(InvalidPackage) <==>
              IsMountableName(share.name) && share.role == 2 && !IsPathComponent(share.package)
    ensures Target(share) != Err(DuplicateTarget)
    ensures Target(share) == Ok(WSL_HOST_LIB) <==> IsMountableName(share.name) && share.role == 1
    ensures Target(share) == Ok(PAYLOAD) <==> IsMountableName(share.name) && share.role == 3
    ensures Target(share) == Ok(WSL_D3D12) <==> IsMountableName(share.name) && share.role == 4
    ensures Target(share) == Ok(DRIVER_ROOT + [share.package]) <==>
              IsMountableName(share.name) && share.role == 2 && IsPathComponent(share.package)
  {
    assert WSL_HOST_LIB[3] == "host-lib" && WSL_D3D12[3] == "d3d12" && PAYLOAD[0] == "opt";
    assert |DRIVER_ROOT + [share.package]| == 5;
  }

  /** The managed paths are the targets there can be, and the children of the driver root that no package can name. */
  lemma ManagedPathsAreTargets(path: Path)
    ensures IsManaged(path) <==>
              (exists share :: Target(share) == Ok(path)) ||
              (|path| == 5 && path[..4] == DRIVER_ROOT && !IsPathComponent(path[4]))
  {
    if share :| Target(share) == Ok(path) {
      TargetsAreManaged(share);
    }
    if IsManaged(path) {
      assert IsNameCharacter('x') && "x"[0] == 'x';
      var role := if path == WSL_HOST_LIB then 1 else if path == WSL_D3D12 then 4 else if path == PAYLOAD then 3 else 2;
      var share := GpuShare("x", role, if role == 2 then path[4] else "");
      TargetsByRole(share);
      assert role == 2 ==> path == DRIVER_ROOT + [path[4]];
      assert Target(share) == Ok(path) || (role == 2 && !IsPathComponent(path[4]));
    }
  }

  /** No two managed paths are one above the other, so no mount hides another. */
  lemma ManagedPathsDoNotNest(a: Path, b: Path)
    requires IsManaged(a) && IsManaged(b) && IsWithin(a, b)
    ensures a == b
  {
    assert a[0] == b[0];
    assert |b| >= 4 ==> a[3] == b[3];
  }

  /** The mount targets of a plan are managed, pairwise distinct and never inside one another. */
  lemma PlanTargets(shares: seq<GpuShare>, planned: seq<Planned>, i: nat, j: nat)
    requires |planned| == |shares| && i < |shares| && j < |shares|
    requires forall k :: 0 <= k < |shares| ==> PlannedRight(shares[k], planned, k)
    requires planned[i].Mount?
    ensures planned[i].share == shares[i].name && Target(shares[i]) == Ok(planned[i].path)
    ensures IsManaged(planned[i].path)
    ensures i != j && planned[j].Mount? ==>
              planned[i].path != planned[j].path && !IsWithin(planned[i].path, planned[j].path)
  {
    assert PlannedRight(shares[i], planned, i);
    TargetsAreManaged(shares[i]);
    if i != j && planned[j].Mount? {
      assert PlannedRight(shares[j], planned, j);
      TargetsAreManaged(shares[j]);
      var first, second := if i < j then i else j, if i < j then j else i;
      assert !TakenBefore(planned, second, planned[second].path);
      if IsWithin(planned[i].path, planned[j].path) {
        ManagedPathsDoNotNest(planned[i].path, planned[j].path);
      }
    }
  }

  /* The host's half. */

  const DRIVER_PACKAGE_SHARE_PREFIX := "vmlord.gpu.drv."

  datatype HostShare = HostShare(name: string, role: HostRole)

  datatype HostRole = HostGpuPayload | HostWslLib | HostDriverPackage(package: string) | HostWslD3d12

  /** How the host names the share of a driver package, if its folder can be named at all. */
  function DriverPackageShare(package: string): Option<HostShare> {
    if package == "" || |package| > MAX_PACKAGE_NAME then None
    else if package == "." || package == ".." then None
    else if !AllNameCharacters(package) then None
    else Some(HostShare(DRIVER_PACKAGE_SHARE_PREFIX + package, HostDriverPackage(package)))
  }

  /** How the host sends a share. */
  function WireShare(share: HostShare): GpuShare {
    match share.role
    case HostWslLib => GpuShare(share.name, RoleToWire(WslLib), "")
    case HostWslD3d12 => GpuShare(share.name, RoleToWire(WslD3d12), "")
    case HostGpuPayload => GpuShare(share.name, RoleToWire(GpuPayload), "")
    case HostDriverPackage(package) => GpuShare(share.name, RoleToWire(DriverPackage), package)
  }

  /** Every role means to the guest what the host meant by it, and a number that is no role means none. */
  lemma RolesTravel(role: Role, value: int)
    ensures RoleOf(RoleToWire(role)) == role
    ensures RoleOf(value) == UnspecifiedRole <==> !(1 <= value <= 4)
    ensures RoleOf(value) != UnspecifiedRole ==> RoleToWire(RoleOf(value)) == value
  {
  }

  /** Where each share of the host's ends up. */
  lemma HostSharesHaveTargets(share: HostShare)
    requires IsMountableName(share.name)
    ensures WireShare(share).name == share.name
    ensures match share.role
            case HostWslLib => Target(WireShare(share)) == Ok(WSL_HOST_LIB)
            case HostWslD3d12 => Target(WireShare(share)) == Ok(WSL_D3D12)
            case HostGpuPayload => Target(WireShare(share)) == Ok(PAYLOAD)
            case HostDriverPackage(package) =>
              Target(WireShare(share)) ==
              if IsPathComponent(package) then Ok(DRIVER_ROOT + [package]) else Err(InvalidPackage)
  {
    TargetsByRole(WireShare(share));
  }

  /** The guest has a target for exactly the packages the host can build a share of. */
  lemma HostPackagesHaveTargets(package: string)
    ensures DriverPackageShare(package).Some? <==> IsPathComponent(package)
    ensures DriverPackageShare(package).Some? ==>
              Target(WireShare(DriverPackageShare(package).value)) == Ok(DRIVER_ROOT + [package])
  {
    if DriverPackageShare(package).Some? {
      var name := DRIVER_PACKAGE_SHARE_PREFIX + package;
      forall i | 0 <= i < |name|
        ensures IsNameCharacter(name[i])
      {
        if i < 15 {
          assert name[i] == DRIVER_PACKAGE_SHARE_PREFIX[i];
          PrefixCharacters(i);
        } else {
          assert name[i] == package[i - 15];
        }
      }
    }
  }

  lemma PrefixCharacters(i: nat)
    requires i < 15
    ensures |DRIVER_PACKAGE_SHARE_PREFIX| == 15 && IsNameCharacter(DRIVER_PACKAGE_SHARE_PREFIX[i])
  {
  }

  /** Two packages of one manifest never fight over a name or a directory. */
  lemma DistinctPackages(a: string, b: string)
    requires DriverPackageShare(a).Some? && DriverPackageShare(b).Some? && a != b
    ensures DriverPackageShare(a).value.name != DriverPackageShare(b).value.name
    ensures Target(WireShare(DriverPackageShare(a).value)) != Target(WireShare(DriverPackageShare(b).value))
  {
    HostPackagesHaveTargets(a);
    HostPackagesHaveTargets(b);
    assert (DRIVER_ROOT + [a])[4] == a && (DRIVER_ROOT + [b])[4] == b;
    assert (DRIVER_PACKAGE_SHARE_PREFIX + a)[15..] == a && (DRIVER_PACKAGE_SHARE_PREFIX + b)[15..] == b;
  }
}
