/** The agreement two peers come to when they meet.

    The host negotiates a revision and a set of capabilities; the agent, which sent the hello, only
    confirms what came back. The two halves are proved to fit: the agent accepts exactly the answers
    that some host's negotiation could have produced for it.
 */
module Handshake {
  import opened Outcomes

  datatype Version = Version(major: nat, minor: nat)

  datatype Capability = Unspecified | Gpu | Display

  const CURRENT_VERSION := Version(1, 9)
  const DISPLAY_REBOOT_REQUIRED_REVISION := 8

  function ToWire(capability: Capability): int {
    match capability
    case Unspecified => 0
    case Gpu => 1
    case Display => 2
  }

  function FromWire(value: int): Option<Capability> {
    if value == 0 then Some(Unspecified)
    else if value == 1 then Some(Gpu)
    else if value == 2 then Some(Display)
    else None
  }

  function AllToWire(capabilities: seq<Capability>): (values: seq<int>)
    ensures |values| == |capabilities|
    ensures forall i :: 0 <= i < |values| ==> values[i] == ToWire(capabilities[i])
  {
    seq(|capabilities|, i requires 0 <= i < |capabilities| => ToWire(capabilities[i]))
  }

  datatype VersionMismatch = VersionMismatch(local: Version, remote: Version)

  function NegotiateVersion(local: Version, remote: Version): Result<Version, VersionMismatch> {
    if local.major != remote.major then Err(VersionMismatch(local, remote))
    else Ok(Version(local.major, if local.minor <= remote.minor then local.minor else remote.minor))
  }

  function ConfirmVersion(local: Version, chosen: Version): Result<Version, VersionMismatch> {
    if local.major != chosen.major || chosen.minor > local.minor then Err(VersionMismatch(local, chosen))
    else Ok(chosen)
  }

  function AgreedCapabilities(local: seq<Capability>, remote: seq<int>): seq<Capability> {
    if local == [] then []
    else if local[0] != Unspecified && ToWire(local[0]) in remote then
      [local[0]] + AgreedCapabilities(local[1..], remote)
    else AgreedCapabilities(local[1..], remote)
  }

  /** The capability an answer names, when this side offered it. */
  function Offered(local: seq<Capability>, value: int): Option<Capability> {
    match FromWire(value)
    case Some(capability) => if capability != Unspecified && capability in local then Some(capability) else None
    case None => None
  }

  /** All of the chosen capabilities, or the first of them that cannot be confirmed. */
  function ConfirmCapabilities(local: seq<Capability>, chosen: seq<int>): Result<seq<Capability>, int> {
    if chosen == [] then Ok([])
    else
      match Offered(local, chosen[0])
      case None => Err(chosen[0])
      case Some(capability) =>
        match ConfirmCapabilities(local, chosen[1..])
        case Err(value) => Err(value)
        case Ok(rest) => Ok([capability] + rest)
  }

  /** Negotiation settles on a revision neither peer is too old for, whichever side computes it. */
  lemma NegotiatedRevision(host: Version, agent: Version)
    ensures NegotiateVersion(host, agent).Ok? <==> host.major == agent.major
    ensures NegotiateVersion(host, agent).Ok? ==>
              var agreed := NegotiateVersion(host, agent).value;
              && NegotiateVersion(agent, host) == Ok(agreed)
              && agreed.major == host.major == agent.major
              && agreed.minor <= host.minor && agreed.minor <= agent.minor
              && (agreed == host || agreed == agent)
    ensures NegotiateVersion(host, agent).Err? ==> NegotiateVersion(host, agent).error == VersionMismatch(host, agent)
  {
  }

  /** The agent confirms a revision exactly when some host could have negotiated it. */
  lemma ConfirmsWhatIsNegotiated(agent: Version, chosen: Version)
    ensures ConfirmVersion(agent, chosen).Ok? <==> exists host :: NegotiateVersion(host, agent) == Ok(chosen)
    ensures ConfirmVersion(agent, chosen) in {Ok(chosen), Err(VersionMismatch(agent, chosen))}
  {
    if ConfirmVersion(agent, chosen).Ok? {
      assert NegotiateVersion(chosen, agent) == Ok(chosen);
    }
  }

  /** What is agreed is what both sides offer, and never `Unspecified`. */
  lemma {:induction false} AgreedIsTheIntersection(local: seq<Capability>, remote: seq<int>, capability: Capability)
    ensures capability in AgreedCapabilities(local, remote) <==>
            capability != Unspecified && capability in local && ToWire(capability) in remote
  {
    if local != [] {
      AgreedIsTheIntersection(local[1..], remote, capability);
    }
  }

  /** Each local capability is kept or left out where it stands: the agreed list has the local order and as
      many of each as the local offer. */
  lemma AgreedInLocalOrder(early: seq<Capability>, late: seq<Capability>, remote: seq<int>)
    ensures AgreedCapabilities(early + late, remote) ==
              AgreedCapabilities(early, remote) + AgreedCapabilities(late, remote)
    ensures forall c :: AgreedCapabilities([c], remote) == if c != Unspecified && ToWire(c) in remote then [c] else []
  {
    AgreedConcat(early, late, remote);
    forall c ensures AgreedCapabilities([c], remote) == if c != Unspecified && ToWire(c) in remote then [c] else [] {
      assert [c][1..] == [];
    }
  }

  lemma {:induction false} AgreedConcat(early: seq<Capability>, late: seq<Capability>, remote: seq<int>)
    ensures AgreedCapabilities(early + late, remote) ==
              AgreedCapabilities(early, remote) + AgreedCapabilities(late, remote)
  {
    if early == [] {
      assert early + late == late;
    } else {
      AgreedConcat(early[1..], late, remote);
      var rest, more := AgreedCapabilities(early[1..], remote), AgreedCapabilities(late, remote);
      assert [early[0]] + (rest + more) == ([early[0]] + rest) + more;
      assert (early + late)[0] == early[0] && (early + late)[1..] == early[1..] + late;
    }
  }

  /** Capabilities travel by their numbers, and other numbers name none. */
  lemma WireRoundTrip(capability: Capability, value: int)
    ensures FromWire(ToWire(capability)) == Some(capability)
    ensures FromWire(value).Some? ==> ToWire(FromWire(value).value) == value
    ensures FromWire(value).Some? <==> 0 <= value <= 2
    ensures FromWire(1) == Some(Gpu) && FromWire(2) == Some(Display)
  {
  }

  lemma OnWire(capabilities: seq<Capability>, capability: Capability)
    ensures ToWire(capability) in AllToWire(capabilities) <==> capability in capabilities
  {
    var values := AllToWire(capabilities);
    if capability in capabilities {
      var i :| 0 <= i < |capabilities| && capabilities[i] == capability;
      assert values[i] == ToWire(capability);
    }
    if ToWire(capability) in values {
      var i :| 0 <= i < |values| && values[i] == ToWire(capability);
      WireRoundTrip(capability, 0);
      WireRoundTrip(capabilities[i], 0);
    }
  }

  /** What is confirmed is what was chosen, name for name, and all of it was offered. */
  lemma {:induction false} ConfirmedCapabilities(local: seq<Capability>, chosen: seq<int>)
    ensures ConfirmCapabilities(local, chosen).Ok? <==>
              forall i :: 0 <= i < |chosen| ==> Offered(local, chosen[i]).Some?
    ensures ConfirmCapabilities(local, chosen).Ok? ==>
              var confirmed := ConfirmCapabilities(local, chosen).value;
              && AllToWire(confirmed) == chosen
              && (forall c :: c in confirmed ==> c in local && c != Unspecified)
    ensures ConfirmCapabilities(local, chosen).Err? ==>
              exists i :: 0 <= i < |chosen| && chosen[i] == ConfirmCapabilities(local, chosen).error
                          && Offered(local, chosen[i]).None?
                          && forall j :: 0 <= j < i ==> Offered(local, chosen[j]).Some?
  {
    if chosen != [] {
      ConfirmedCapabilities(local, chosen[1..]);
      assert forall i :: 0 < i < |chosen| ==> chosen[i] == chosen[1..][i - 1];
      assert (forall i :: 0 <= i < |chosen| ==> Offered(local, chosen[i]).Some?) <==>
             Offered(local, chosen[0]).Some? &&
               (forall i :: 0 <= i < |chosen[1..]| ==> Offered(local, chosen[1..][i]).Some?);
      if Offered(local, chosen[0]).None? {
        assert chosen[0] == ConfirmCapabilities(local, chosen).error;
      } else if ConfirmCapabilities(local, chosen[1..]).Err? {
        var i :| 0 <= i < |chosen[1..]| && chosen[1..][i] == ConfirmCapabilities(local, chosen[1..]).error
                 && Offered(local, chosen[1..][i]).None?
                 && forall j :: 0 <= j < i ==> Offered(local, chosen[1..][j]).Some?;
        assert chosen[i + 1] == ConfirmCapabilities(local, chosen).error;
      }
    }
  }

  /** Confirming the agreed capabilities always succeeds and gives back the same list. */
  lemma AgreementIsConfirmed(host: seq<Capability>, agent: seq<Capability>)
    ensures var agreed := AgreedCapabilities(host, AllToWire(agent));
            && ConfirmCapabilities(agent, AllToWire(agreed)) == Ok(agreed)
            && forall c :: c in agreed <==> c in host && c in agent && c != Unspecified
  {
    var agreed := AgreedCapabilities(host, AllToWire(agent));
    forall c
      ensures c in agreed <==> c in host && c in agent && c != Unspecified
    {
      AgreedIsTheIntersection(host, AllToWire(agent), c);
      OnWire(agent, c);
    }
    ConfirmsItsOwn(agent, agreed);
  }

  lemma {:induction false} ConfirmsItsOwn(local: seq<Capability>, chosen: seq<Capability>)
    requires forall c :: c in chosen ==> c in local && c != Unspecified
    ensures ConfirmCapabilities(local, AllToWire(chosen)) == Ok(chosen)
  {
    if chosen != [] {
      ConfirmsItsOwn(local, chosen[1..]);
      assert AllToWire(chosen)[1..] == AllToWire(chosen[1..]);
      WireRoundTrip(chosen[0], 0);
      assert chosen == [chosen[0]] + chosen[1..];
    }
  }

  /** And only such lists are confirmed: whatever the agent accepts, a host could have agreed to. */
  lemma ConfirmsOnlyAgreements(agent: seq<Capability>, chosen: seq<int>)
    requires ConfirmCapabilities(agent, chosen).Ok?
    ensures exists host :: AllToWire(AgreedCapabilities(host, AllToWire(agent))) == chosen
  {
    ConfirmedCapabilities(agent, chosen);
    var host := ConfirmCapabilities(agent, chosen).value;
    AgreesToAll(host, agent);
  }

  lemma {:induction false} AgreesToAll(host: seq<Capability>, agent: seq<Capability>)
    requires forall c :: c in host ==> c in agent && c != Unspecified
    ensures AgreedCapabilities(host, AllToWire(agent)) == host
  {
    if host != [] {
      assert forall c :: c in host[1..] ==> c in host;
      AgreesToAll(host[1..], agent);
      OnWire(agent, host[0]);
      assert host == [host[0]] + host[1..];
    }
  }
}
