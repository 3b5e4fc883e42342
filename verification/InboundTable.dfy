/** The operations that edit the inbound table, and what each leaves behind
    (internal/control/api/inbound_handlers.go, argo_origin_handlers.go,
    antiblock_setup.go; internal/control/bootstrap/addrchange.go). */
module InboundTable {
  import opened Common
  import opened Addresses
  import AddressChange
  import opened Settings
  import opened Model
  import opened InboundGates
  import Quota

  datatype Table = Table(rows: seq<Inbound>, nextId: nat, nextClient: nat)

  // ---- The store ----

  /** The unique indexes: tag, and listen with port. */
  predicate Conflict(rows: seq<Inbound>, id: nat, tag: string, listen: Text, port: int) {
    exists i :: 0 <= i < |rows| && rows[i].id != id && (rows[i].tag == tag || (rows[i].listen == listen && rows[i].port == port))
  }

  function Saved(rows: seq<Inbound>, row: Inbound): seq<Inbound> {
    seq(|rows|, i requires 0 <= i < |rows| => if rows[i].id == row.id then row else rows[i])
  }

  predicate Exists(rows: seq<Inbound>, id: nat) {
    exists i :: 0 <= i < |rows| && rows[i].id == id
  }

  function Row(rows: seq<Inbound>, id: nat): (r: Inbound)
    requires Exists(rows, id)
    ensures r.id == id && r in rows
  {
    if rows[0].id == id then rows[0] else
    assert Exists(rows[1..], id) by {
      var i :| 0 <= i < |rows| && rows[i].id == id;
      assert rows[1..][i - 1].id == id;
    }
    Row(rows[1..], id)
  }

  // ---- Create ----

  datatype CreateRequest = CreateRequest(
    tag: string,
    typ: Protocol,
    listen: Text,
    port: int,
    network: string,
    remark: string,
    enabled: Option<bool>,
    advanced: Option<Fields>,
    settings: Option<Fields>
  )

  function CreateSettings(req: CreateRequest, m: Mint): Result<Fields> {
    if req.advanced.Some? then BuiltSettings(req.typ, req.advanced.value, m)
    else Autofilled(req.typ, if req.settings.Some? then req.settings.value else map[], map[], m)
  }

  function NewRow(t: Table, node: nat, req: CreateRequest, filled: Fields): Inbound {
    Inbound(t.nextId, node, req.tag, req.typ, req.listen, req.port, req.network, req.remark,
            if req.enabled.Some? then req.enabled.value else true, Json(filled), Name(""), [])
  }

  function Create(t: Table, node: nat, req: CreateRequest, m: Mint): (Table, string) {
    var filled := CreateSettings(req, m);
    if req.tag == "" || req.typ == OtherProtocol("") || req.port <= 0 then (t, "BAD_REQUEST")
    else if filled.Err? then (t, filled.error)
    else if ShapeGates(req.typ, req.listen, req.port, filled.value) != "" then (t, ShapeGates(req.typ, req.listen, req.port, filled.value))
    else if SingletonGate(t.rows, node, filled.value, 0) != "" then (t, "ARGO_SINGLETON")
    else if Conflict(t.rows, t.nextId, req.tag, req.listen, req.port) then (t, "DB_ERROR")
    else (t.(rows := t.rows + [NewRow(t, node, req, filled.value)], nextId := t.nextId + 1), "")
  }

  // ---- Update ----

  datatype UpdateRequest = UpdateRequest(
    listen: Option<Text>,
    port: Option<int>,
    network: Option<string>,
    remark: Option<string>,
    enabled: Option<bool>,
    advanced: Option<Fields>,
    settings: Option<Fields>
  )

  datatype Certificate = Certificate(domain: string, certPath: string, keyPath: string)

  /** The node's issued certificates, and the text rules of the lookup by domain. */
  datatype Certs = Certs(issued: seq<Certificate>, trimSpace: string -> string, equalFold: (string, string) -> bool)

  predicate CertSelectable(typ: Protocol) {
    typ.Hysteria2? || typ.Tuic? || typ.Trojan? || typ.Anytls?
  }

  predicate Usable(c: Certificate, domain: string, certs: Certs) {
    certs.equalFold(c.domain, domain) && c.certPath != "" && c.keyPath != ""
  }

  function FirstUsable(cs: seq<Certificate>, domain: string, certs: Certs): Option<Certificate> {
    if cs == [] then None else if Usable(cs[0], domain, certs) then Some(cs[0]) else FirstUsable(cs[1..], domain, certs)
  }

  function WithCert(s: Fields, choice: string, certs: Certs): Result<Fields> {
    var domain := certs.trimSpace(choice);
    var found := FirstUsable(certs.issued, domain, certs);
    if "keep:" <= domain then Ok(s)
    else if domain == "" then Ok(s[TlsCertPath := WIZARD_CERT][TlsKeyPath := WIZARD_KEY][SelfSigned := Str("true")] - {AcmeManaged})
    else if found.None? then Err("CERT_NOT_FOUND")
    else Ok(s[TlsCertPath := Str(found.value.certPath)][TlsKeyPath := Str(found.value.keyPath)]
            [Sni := Str(found.value.domain)][AcmeManaged := Str("true")] - {SelfSigned})
  }

  function UpdateSettings(typ: Protocol, req: UpdateRequest, existing: Fields, certs: Certs, m: Mint): Result<Fields>
    requires req.advanced.Some? || req.settings.Some?
  {
    if req.advanced.None? then Autofilled(typ, req.settings.value, existing, m)
    else
      var filled := UpdatedSettings(typ, req.advanced.value, existing, m);
      if filled.Ok? && CertSelectable(typ) && Get(req.advanced.value, CertDomain).Str?
      then WithCert(filled.value, req.advanced.value[CertDomain].s, certs) else filled
  }

  /** The row with the request's plain fields written over it. */
  function Patched(in0: Inbound, req: UpdateRequest): Inbound {
    in0.(listen := if req.listen.Some? then req.listen.value else in0.listen,
    port := if req.port.Some? then req.port.value else in0.port,
    network := if req.network.Some? then req.network.value else in0.network,
    remark := if req.remark.Some? then req.remark.value else in0.remark,
    enabled := if req.enabled.Some? then req.enabled.value else in0.enabled)
  }

  /** The row an update would save, or the refusal. */
  function Candidate(rows: seq<Inbound>, in0: Inbound, req: UpdateRequest, certs: Certs, m: Mint): Result<Inbound> {
    Gated(rows, Patched(in0, req), req, certs, m)
  }

  function Gated(rows: seq<Inbound>, row: Inbound, req: UpdateRequest, certs: Certs, m: Mint): Result<Inbound> {
    if req.advanced.None? && req.settings.None? then
      if (req.port.Some? || req.listen.Some?) && ShapeGates(row.typ, row.listen, row.port, row.Fields()) != ""
      then Err(ShapeGates(row.typ, row.listen, row.port, row.Fields()))
      else Ok(row)
    else
      var filled := UpdateSettings(row.typ, req, row.Fields(), certs, m);
      if filled.Err? then Err(filled.error)
      else if ShapeGates(row.typ, row.listen, row.port, filled.value) != "" then Err(ShapeGates(row.typ, row.listen, row.port, filled.value))
      else if SingletonGate(rows, row.nodeId, filled.value, row.id) != "" then Err("ARGO_SINGLETON")
      else Ok(row.(settings := Json(filled.value)))
  }

  function Update(t: Table, id: nat, req: UpdateRequest, certs: Certs, m: Mint): (Table, string) {
    if !Exists(t.rows, id) then (t, "NOT_FOUND")
    else
      var c := Candidate(t.rows, Row(t.rows, id), req, certs, m);
      if c.Err? then (t, c.error)
      else if Conflict(t.rows, id, c.value.tag, c.value.listen, c.value.port) then (t, "DB_ERROR")
      else (t.(rows := Saved(t.rows, c.value)), "")
  }

  // ---- Delete ----

  function Without(rows: seq<Inbound>, id: nat): seq<Inbound> {
    if rows == [] then []
    else (if rows[0].id == id then [] else [rows[0]]) + Without(rows[1..], id)
  }

  function Delete(t: Table, id: nat): Table {
    t.(rows := Without(t.rows, id))
  }

  // ---- Pointing the tunnel at another inbound ----

  /** Who owns the fixed tunnel's ingress, and whether it could be repointed. */
  datatype Tunnel = NoTunnel | Temp | Fixed(repointed: bool)

  function HolderOf(rows: seq<Inbound>, node: nat): Option<Inbound> {
    if rows == [] then None
    else if rows[0].nodeId == node && rows[0].Flag(ArgoBound) then Some(rows[0])
    else HolderOf(rows[1..], node)
  }

  /** argoBindGate's shape check as if the inbound held the tunnel. */
  function OriginProblem(row: Inbound): string {
    ArgoBindGate(row.typ, row.listen, row.Fields()[ArgoBound := Str("true")])
  }

  predicate CanFeed(row: Inbound) {
    row.Flag(ArgoBound) || row.Flag(EdgeBound) || row.Flag(ArgoStandby)
  }

  function AsOrigin(row: Inbound): Inbound {
    row.(settings := Json(row.Fields()[ArgoBound := Str("true")] - {ArgoStandby}), enabled := true)
  }

  /** The previous origin: an edge inbound keeps serving its edge, a dedicated Argo
      inbound is parked. */
  function Released(row: Inbound): Inbound {
    var s := row.Fields() - {ArgoBound};
    if Truthy(Get(s, EdgeBound)) then row.(settings := Json(s))
    else row.(settings := Json(s[ArgoStandby := Str("true")]), enabled := false)
  }

  function Emails(cs: seq<Client>): set<string> {
    set i | 0 <= i < |cs| :: cs[i].email
  }

  /** The users on from who are not on to, each once, in order. */
  function Missing(from: seq<Client>, to: seq<Client>): seq<string> {
    if from == [] then []
    else
      var n := |from| - 1;
      var before := Missing(from[..n], to);
      var e := from[n].email;
      if e != "" && e !in Emails(to) && e !in before then before + [e] else before
  }

  function AllClients(rows: seq<Inbound>): seq<Client> {
    if rows == [] then [] else AllClients(rows[..|rows| - 1]) + rows[|rows| - 1].clients
  }

  /** The credential the users service gives a user on one more inbound: shaped like the
      ones there, with the largest cap and expiry the user has anywhere, and switched on
      only if one of the user's others is. */
  function NewClient(rows: seq<Inbound>, target: Inbound, email: string, id: nat, uuid: string): Client {
    var user := Quota.UserAgg(AllClients(rows), email);
    Client(id, email, if target.clients == [] || target.clients[0].uuid != "" then uuid else "", user.anyEnabled,
           0, 0, user.quota, user.expiry)
  }

  function NewClients(rows: seq<Inbound>, target: Inbound, emails: seq<string>, nextClient: nat, uuid: nat -> string): seq<Client> {
    seq(|emails|, i requires 0 <= i < |emails| => NewClient(rows, target, emails[i], nextClient + i, uuid(i)))
  }

  function NewOrigin(t: Table, target: Inbound, holder: Inbound, uuid: nat -> string): Inbound {
    AsOrigin(target).(clients := target.clients
    + NewClients(t.rows, target, Missing(holder.clients, target.clients), t.nextClient, uuid))
  }

  /** The tunnel and its users move from the holder to the target. */
  function Switched(t: Table, target: Inbound, holder: Inbound, uuid: nat -> string): Table {
    Table(Saved(Saved(t.rows, NewOrigin(t, target, holder, uuid)), Released(holder)), t.nextId,
          t.nextClient + |Missing(holder.clients, target.clients)|)
  }

  function Pointed(t: Table, target: Inbound, current: Option<Inbound>, uuid: nat -> string): Table {
    if current.None? || current.value.id == target.id then t.(rows := Saved(t.rows, AsOrigin(target)))
    else Switched(t, target, current.value, uuid)
  }

  /** uuid draws the new credentials' UUIDs. */
  function SetOrigin(t: Table, node: nat, id: nat, tunnel: Tunnel, ingressDone: bool, uuid: nat -> string): (Table, string) {
    if id == 0 then (t, "BAD_REQUEST")
    else if !Exists(t.rows, id) || Row(t.rows, id).nodeId != node then (t, "NOT_FOUND")
    else
      var target := Row(t.rows, id);
      var current := HolderOf(t.rows, node);
      if !CanFeed(target) || OriginProblem(target) != "" then (t, "ARGO_ORIGIN_UNSUPPORTED")
      else if current.Some? && current.value.id == id && target.enabled then (t, "")
      else if tunnel == Fixed(false) && !ingressDone then (t, "ARGO_INGRESS_MANUAL")
      else (Pointed(t, target, current, uuid), "")
  }

  // ---- The one-click CDN node ----

  predicate HasEdge(rows: seq<Inbound>, node: nat) {
    exists i :: 0 <= i < |rows| && rows[i].nodeId == node && rows[i].enabled && rows[i].Flag(EdgeBound)
  }

  function ClientsOf(rows: seq<Inbound>, node: nat): seq<Client> {
    if rows == [] then []
    else (if rows[0].nodeId == node then rows[0].clients else []) + ClientsOf(rows[1..], node)
  }

  function IndexOf(cs: seq<Client>, email: string): Option<nat> {
    if cs == [] then None
    else if cs[|cs| - 1].email == email then Some(|cs| - 1)
    else IndexOf(cs[..|cs| - 1], email)
  }

  lemma {:induction false} IndexFinds(cs: seq<Client>, email: string)
    ensures IndexOf(cs, email).Some? ==> IndexOf(cs, email).value < |cs| && cs[IndexOf(cs, email).value].email == email
    ensures IndexOf(cs, email).None? <==> forall i :: 0 <= i < |cs| ==> cs[i].email != email
  {
    if cs != [] {
      IndexFinds(cs[..|cs| - 1], email);
      if i :| 0 <= i < |cs| && cs[i].email == email {
        if i < |cs| - 1 {
          assert cs[..|cs| - 1][i] == cs[i];
        }
      }
    }
  }

  /** One seed per user: the first credential seen, with the first UUID seen. */
  function Seeds(cs: seq<Client>): seq<Client> {
    if cs == [] then []
    else
      var n := |cs| - 1;
      Seeded(Seeds(cs[..n]), cs[n])
  }

  function Seeded(seeds: seq<Client>, c: Client): seq<Client> {
    var k := IndexOf(seeds, c.email);
    if c.email == "" then seeds
    else if k.None? then seeds + [c]
    else if k.value < |seeds| && seeds[k.value].uuid == "" && c.uuid != "" then seeds[k.value := seeds[k.value].(uuid := c.uuid)]
    else seeds
  }

  function EdgeClients(seeds: seq<Client>, nextClient: nat, newUuid: nat -> string): seq<Client> {
    seq(|seeds|, i requires 0 <= i < |seeds| =>
      Client(nextClient + i, seeds[i].email, if seeds[i].uuid != "" then seeds[i].uuid else newUuid(i), seeds[i].enabled,
             0, 0, seeds[i].quotaBytes, seeds[i].expiryAt))
  }

  /** What the setup draws: a free loopback port (if one was found) with the tag the
      inbound gets for it, a random path, and new UUIDs. */
  datatype EdgeDraw = EdgeDraw(port: Option<int>, tag: string, path: string, uuid: nat -> string)

  function EdgeRow(t: Table, node: nat, draw: EdgeDraw): Inbound
    requires draw.port.Some?
  {
    Inbound(t.nextId, node, draw.tag, VlessWs, LOOPBACK_TEXT, draw.port.value, "tcp", "EdgeNest-VLESS-WS-CDN", true,
            Json(map[EdgeBound := Str("true"), WsPath := Str(draw.path)]), Name(""),
            EdgeClients(Seeds(ClientsOf(t.rows, node)), t.nextClient, draw.uuid))
  }

  function EnsureEdge(t: Table, node: nat, draw: EdgeDraw): (Table, string) {
    if HasEdge(t.rows, node) then (t, "")
    else if draw.port.None? then (t, "EDGE_INBOUND")
    else
      var row := EdgeRow(t, node, draw);
      if Conflict(t.rows, row.id, row.tag, row.listen, row.port) then (t, "DB_ERROR")
      else (t.(rows := t.rows + [row], nextId := t.nextId + 1, nextClient := t.nextClient + |row.clients|), "")
  }

  // ---- Following an address change ----

  function Moved(row: Inbound, node: nat, ch: AddressChange.AddrChange): Inbound {
    if row.nodeId != node then row
    else row.(listen := AddressChange.Moved(row.listen, ch), subscriptionHost := AddressChange.Moved(row.subscriptionHost, ch))
  }

  function MovedRows(rows: seq<Inbound>, node: nat, ch: AddressChange.AddrChange): seq<Inbound> {
    seq(|rows|, i requires 0 <= i < |rows| => Moved(rows[i], node, ch))
  }

  /** The unique index on (listen, port) would be violated: the transaction rolls back. */
  predicate Collides(rows: seq<Inbound>) {
    exists i, j :: 0 <= i < j < |rows| && rows[i].listen == rows[j].listen && rows[i].port == rows[j].port
  }

  function ApplyChange(t: Table, node: nat, ch: AddressChange.AddrChange): Table {
    var rows := MovedRows(t.rows, node, ch);
    if Collides(rows) then t else t.(rows := rows)
  }

  function ApplyChanges(t: Table, node: nat, chs: seq<AddressChange.AddrChange>): Table
    decreases |chs|
  {
    if chs == [] then t else ApplyChanges(ApplyChange(t, node, chs[0]), node, chs[1..])
  }

  function Listens(rows: seq<Inbound>, node: nat): seq<Text> {
    if rows == [] then []
    else (if rows[0].nodeId == node then [rows[0].listen] else []) + Listens(rows[1..], node)
  }

  function Heal(t: Table, node: nat, local: seq<IP>, known: seq<Text>): Table {
    ApplyChanges(t, node, AddressChange.Plan(Listens(t.rows, node), local, known))
  }
}
