/** From the bytes of a DHCP offer to the addresses that the O-RU calls home to. */
module CallHomeSettings {
  import opened Strings
  import opened JsonTree
  import opened JsonHeap
  import opened RemoteAddress
  import H = RemoteAddressHeap
  import D = DhcpOption43

  const CONTROLLER := "smo"

  /** What the client parameters become: nothing changes when the offers named no controller. */
  function Readdressed(parameters: Json, s: D.Settings): Json {
    match D.ControllerAddress(s)
    case None => parameters
    case Some(address) => UpdateRemote(parameters, CONTROLLER, address)
  }

  /** What the datastore answers for the three paths, in the order they are asked for; None where nothing is found. */
  datatype Found = Found(tls: Option<Cell>, ssh: Option<Cell>, listenTls: bool) {
    /** The parameters that are readdressed: those of an endpoint to listen at never are. */
    function Parameters(): Option<Cell> {
      if tls.Some? then tls else ssh
    }

    /** The answer, which decides in which allow list the controller looks for the device. */
    predicate IsTls() {
      tls.Some? || (ssh.None? && listenTls)
    }
  }

  /**
   replace_callhome_settings: the parameters of the endpoints that call home over TLS, else over SSH, are
   readdressed in memory and given to the datastore; without those, or without an offer, nothing is.
   */
  method ReplaceSettings(found: Found, s: D.Settings, ghost l: Layout)
    returns (isTls: bool, edited: Option<Cell>, ghost after: Layout)
    requires found.Parameters().Some? ==> Rooted(l, found.Parameters().value) && Good(Value(l))
    modifies if found.Parameters().Some? then Cells(l) else {}
    ensures isTls == found.IsTls()
    ensures edited == if D.ControllerAddress(s).Some? then found.Parameters() else None
    ensures if found.Parameters().None? then after == l
            else
              && Rooted(after, found.Parameters().value) && fresh(Cells(after) - Cells(l))
              && Value(after) == Readdressed(Value(l), s)
  {
    var parameters;
    if found.tls.Some? {
      parameters, isTls := found.tls.value, true;
    } else if found.ssh.Some? {
      parameters, isTls := found.ssh.value, false;
    } else {
      return found.listenTls, None, l;
    }
    if s.controllerFqdn.Some? {
      after := H.Rewrite(parameters, CONTROLLER, s.controllerFqdn.value, l);
    } else if s.controllerIp.Some? {
      after := H.Rewrite(parameters, CONTROLLER, s.controllerIp.value, l);
    } else {
      return isTls, None, l;
    }
    edited := Some(parameters);
  }

  /**
   Without a TLS part below an endpoint of the controller the tree is as before: calling home over SSH goes where it
   went.
   */
  lemma SshAddressesStay(parameters: Json, s: D.Settings)
    requires forall p :: !IsTarget(parameters, p, CONTROLLER)
    ensures Readdressed(parameters, s) == parameters
  {
    if D.ControllerAddress(s).Some? {
      OnlyTargetsChange(parameters, [], CONTROLLER, D.ControllerAddress(s).value);
    }
  }

  /** The controller's address in terms of the bytes received: the last name, else the last address of four bytes. */
  function OfferedAddress(os: seq<D.SubOption>): Option<string> {
    match D.LastOf(os, D.CONTROLLER_FQDN) {
      case Some(name) =>
        if D.Ascii(name) then Some(D.Text(name)) else OfferedIp(os)
      case None => OfferedIp(os)
    }
  }

  function OfferedIp(os: seq<D.SubOption>): Option<string> {
    match D.LastOf(os, D.CONTROLLER_IP)
    case None => None
    case Some(ip) => if |ip| == 4 then Some(D.Dotted(ip)) else None
  }

  /**
   However the offers arrive, every reachable TLS endpoint of the controller ends up with the address that
   the last sub-options in them give, and everything apart from those addresses is as it was configured.
   */
  lemma OffersReachTheEndpoints(offers: seq<seq<D.Byte>>, parameters: Json, p: Path)
    ensures var os := D.Received(offers);
            var after := Readdressed(parameters, D.ApplyAll(D.Settings(None, None, false, None, None), os));
            && (OfferedAddress(os).None? ==> after == parameters)
            && (OfferedAddress(os).Some? && IsTarget(parameters, p, CONTROLLER) ==>
                 Get(after, p) == Some(Leaf(OfferedAddress(os).value)))
            && ((forall q :: IsTarget(parameters, q, CONTROLLER) ==> Apart(q, p)) ==>
                 Get(after, p) == Get(parameters, p))
  {
    var os := D.Received(offers);
    var s := D.ApplyAll(D.Settings(None, None, false, None, None), os);
    D.LastOneDecides(D.Settings(None, None, false, None, None), os);
    assert D.ControllerAddress(s) == OfferedAddress(os);
    if D.ControllerAddress(s).Some? {
      var address := D.ControllerAddress(s).value;
      if IsTarget(parameters, p, CONTROLLER) {
        TargetsGetTheAddress(parameters, p, CONTROLLER, address);
      }
      if forall q :: IsTarget(parameters, q, CONTROLLER) ==> Apart(q, p) {
        OnlyTargetsChange(parameters, p, CONTROLLER, address);
      }
    }
  }
}
