/** The checks that stand before every save of an inbound
    (internal/control/api/inbound_handlers.go). */
module InboundGates {
  import opened Addresses
  import opened Settings
  import opened Model

  const CF_PORTS: seq<int> := [443, 2053, 2083, 2087, 2096, 8443]

  predicate CdnFrontable(typ: Protocol) {
    typ.Vmess? || typ.VmessWs? || typ.VlessWs? || typ.VlessXhttp?
  }

  predicate EdgeWs(typ: Protocol) {
    typ.Vmess? || typ.VmessWs? || typ.VlessWs?
  }

  /** "" when the inbound is fine to save, else the code of the refusal. */
  function CdnPortGate(typ: Protocol, port: int, s: Fields): string {
    if !Truthy(Get(s, CdnMode)) || !CdnFrontable(typ) then ""
    else if port !in CF_PORTS then "CDN_PORT"
    else ""
  }

  function ArgoBindGate(typ: Protocol, listen: Text, s: Fields): string {
    if !Truthy(Get(s, ArgoBound)) then ""
    else if !CdnFrontable(typ) then "ARGO_BIND"
    else if Settings.Text(Get(s, TlsCertPath)) != "" then "ARGO_BIND"
    else if !IsLoopbackListen(listen) then "ARGO_BIND"
    else ""
  }

  function EdgeBindGate(typ: Protocol, listen: Text, s: Fields): string {
    if !Truthy(Get(s, EdgeBound)) then ""
    else if !EdgeWs(typ) then "EDGE_BIND"
    else if Truthy(Get(s, CdnMode)) then "EDGE_BIND"
    else if Settings.Text(Get(s, TlsCertPath)) != "" then "EDGE_BIND"
    else if !IsLoopbackListen(listen) then "EDGE_BIND"
    else ""
  }

  /** The three gates in the order the handlers run them. */
  function ShapeGates(typ: Protocol, listen: Text, port: int, s: Fields): string {
    if CdnPortGate(typ, port, s) != "" then CdnPortGate(typ, port, s)
    else if ArgoBindGate(typ, listen, s) != "" then ArgoBindGate(typ, listen, s)
    else EdgeBindGate(typ, listen, s)
  }

  /** What every saved inbound must satisfy: behind a tunnel or an edge proxy only a
      certificate-less loopback listener of a type that proxy can front, no CDN mode
      at the edge, and CDN mode only on a port Cloudflare proxies. */
  predicate Sound(typ: Protocol, listen: Text, port: int, s: Fields) {
    var shielded := Truthy(Get(s, ArgoBound)) || Truthy(Get(s, EdgeBound));
    && (shielded ==> Settings.Text(Get(s, TlsCertPath)) == "" && IsLoopbackListen(listen))
    && (Truthy(Get(s, ArgoBound)) ==> CdnFrontable(typ))
    && (Truthy(Get(s, EdgeBound)) ==> EdgeWs(typ) && !Truthy(Get(s, CdnMode)))
    && (Truthy(Get(s, CdnMode)) && CdnFrontable(typ) ==> port in CF_PORTS)
  }

  /** The gates refuse exactly the unsound inbounds. */
  lemma GatesAreExact(typ: Protocol, listen: Text, port: int, s: Fields)
    ensures ShapeGates(typ, listen, port, s) == "" <==> Sound(typ, listen, port, s)
  {
  }

  /** Some other inbound of the node holds the tunnel. */
  predicate TunnelTaken(rows: seq<Inbound>, node: nat, exclude: nat) {
    exists i :: 0 <= i < |rows| && rows[i].nodeId == node && rows[i].id != exclude && rows[i].Flag(ArgoBound)
  }

  function SingletonGate(rows: seq<Inbound>, node: nat, s: Fields, exclude: nat): string {
    if Truthy(Get(s, ArgoBound)) && TunnelTaken(rows, node, exclude) then "ARGO_SINGLETON" else ""
  }

  method ArgoSingletonGate(rows: seq<Inbound>, node: nat, s: Fields, exclude: nat) returns (code: string)
    ensures code == SingletonGate(rows, node, s, exclude)
  {
    if !Truthy(Get(s, ArgoBound)) {
      return "";
    }
    for i := 0 to |rows|
      invariant forall j :: 0 <= j < i && rows[j].nodeId == node && rows[j].id != exclude ==> !rows[j].Flag(ArgoBound)
    {
      if rows[i].nodeId != node || rows[i].id == exclude {
        continue;
      }
      if Truthy(Get(Decoded(rows[i].settings), ArgoBound)) {
        return "ARGO_SINGLETON";
      }
    }
    return "";
  }
}
