/** The handlers over the stored table, step by step. */
module InboundStore {
  import opened Common
  import opened Addresses
  import AddressChange
  import opened Settings
  import opened Model
  import opened InboundGates
  import opened InboundTable
  import Quota

  method ApplyCertDomain(s0: Fields, choice: string, certs: Certs) returns (r: Result<Fields>)
    ensures r == WithCert(s0, choice, certs)
  {
    var domain := certs.trimSpace(choice);
    if "keep:" <= domain {
      return Ok(s0);
    }
    var s := s0;
    if domain == "" {
      s := s[TlsCertPath := WIZARD_CERT];
      s := s[TlsKeyPath := WIZARD_KEY];
      s := s[SelfSigned := Str("true")];
      s := s - {AcmeManaged};
      return Ok(s);
    }
    for i := 0 to |certs.issued|
      invariant FirstUsable(certs.issued[i..], domain, certs) == FirstUsable(certs.issued, domain, certs)
    {
      var c := certs.issued[i];
      assert certs.issued[i..][1..] == certs.issued[i + 1..];
      if certs.equalFold(c.domain, domain) && c.certPath != "" && c.keyPath != "" {
        s := s[TlsCertPath := Str(c.certPath)];
        s := s[TlsKeyPath := Str(c.keyPath)];
        s := s[Sni := Str(c.domain)];
        s := s[AcmeManaged := Str("true")];
        s := s - {SelfSigned};
        return Ok(s);
      }
    }
    return Err("CERT_NOT_FOUND");
  }

  method RunShapeGates(typ: Protocol, listen: Text, port: int, s: Fields) returns (code: string)
    ensures code == ShapeGates(typ, listen, port, s)
  {
    code := CdnPortGate(typ, port, s);
    if code != "" {
      return;
    }
    code := ArgoBindGate(typ, listen, s);
    if code != "" {
      return;
    }
    code := EdgeBindGate(typ, listen, s);
  }

  method EmailsMissingFrom(from: seq<Client>, to: seq<Client>) returns (out: seq<string>)
    ensures out == Missing(from, to)
  {
    var have: set<string> := {};
    for i := 0 to |to|
      invariant have == set j | 0 <= j < i :: to[j].email
    {
      have := have + {to[i].email};
    }
    ghost var onTo := have;
    assert onTo == Emails(to);
    out := [];
    for i := 0 to |from|
      invariant out == Missing(from[..i], to)
      invariant have == onTo + (set e | e in out)
    {
      assert from[..i + 1][..i] == from[..i];
      var e := from[i].email;
      if e != "" && e !in have {
        have := have + {e};
        out := out + [e];
      }
    }
    assert from[..|from|] == from;
  }

  /** argoOriginProblem: the gate on a copy of the settings with the flag set. */
  method ArgoOriginProblem(row: Inbound) returns (code: string)
    ensures code == OriginProblem(row)
  {
    var s := Decoded(row.settings);
    var cp: Fields := map[ArgoBound := Str("true")];
    var keys := s.Keys;
    while keys != {}
      invariant keys <= s.Keys
      invariant forall k :: k in cp <==> k == ArgoBound || (k in s && k !in keys)
      invariant forall k :: k in cp ==> cp[k] == if k == ArgoBound then Str("true") else s[k]
      decreases keys
    {
      var k :| k in keys;
      keys := keys - {k};
      if k != ArgoBound {
        cp := cp[k := s[k]];
      }
    }
    assert cp == s[ArgoBound := Str("true")];
    return ArgoBindGate(row.typ, row.listen, cp);
  }

  /** What the users service reads of a user before adding it to one more inbound. */
  method UserLimits(clients: seq<Client>, email: string) returns (enabled: bool, quota: int, expiry: int)
    ensures var user := Quota.UserAgg(clients, email);
            enabled == user.anyEnabled && quota == user.quota && expiry == user.expiry
  {
    enabled, quota, expiry := false, 0, 0;
    for i := 0 to |clients|
      invariant enabled == Quota.UserAgg(clients[..i], email).anyEnabled
      invariant quota == Quota.UserAgg(clients[..i], email).quota
      invariant expiry == Quota.UserAgg(clients[..i], email).expiry
    {
      assert clients[..i + 1][..i] == clients[..i];
      var c := clients[i];
      if c.email != email {
        continue;
      }
      if c.enabled {
        enabled := true;
      }
      if c.quotaBytes > quota {
        quota := c.quotaBytes;
      }
      if c.expiryAt > expiry {
        expiry := c.expiryAt;
      }
    }
    assert clients[..|clients|] == clients;
  }

  /** The credentials the users service makes on the target, user by user. */
  method CopyUsers(rows: seq<Inbound>, target: Inbound, emails: seq<string>, nextClient: nat, uuid: nat -> string)
    returns (made: seq<Client>)
    ensures made == NewClients(rows, target, emails, nextClient, uuid)
  {
    made := [];
    for i := 0 to |emails|
      invariant made == NewClients(rows, target, emails[..i], nextClient, uuid)
    {
      var enabled, quota, expiry := UserLimits(AllClients(rows), emails[i]);
      var id := "";
      if target.clients == [] || target.clients[0].uuid != "" {
        id := uuid(i);
      }
      assert NewClients(rows, target, emails[..i + 1], nextClient, uuid)
          == NewClients(rows, target, emails[..i], nextClient, uuid) + [NewClient(rows, target, emails[i], nextClient + i, uuid(i))];
      made := made + [Client(nextClient + i, emails[i], id, enabled, 0, 0, quota, expiry)];
    }
    assert emails[..|emails|] == emails;
  }

  method FindHolder(rows: seq<Inbound>, node: nat) returns (current: Option<Inbound>)
    ensures current == HolderOf(rows, node)
  {
    for i := 0 to |rows|
      invariant HolderOf(rows[i..], node) == HolderOf(rows, node)
    {
      assert rows[i..][1..] == rows[i + 1..];
      if rows[i].nodeId == node && Truthy(Get(Decoded(rows[i].settings), ArgoBound)) {
        return Some(rows[i]);
      }
    }
    return None;
  }

  method SeedUsers(clients: seq<Client>) returns (seeds: seq<Client>)
    ensures seeds == Seeds(clients)
  {
    seeds := [];
    for i := 0 to |clients|
      invariant seeds == Seeds(clients[..i])
    {
      assert clients[..i + 1][..i] == clients[..i];
      var cl := clients[i];
      if cl.email == "" {
        continue;
      }
      var u := IndexOf(seeds, cl.email);
      IndexFinds(seeds, cl.email);
      if u.Some? {
        if seeds[u.value].uuid == "" && cl.uuid != "" {
          seeds := seeds[u.value := seeds[u.value].(uuid := cl.uuid)];
        }
        continue;
      }
      seeds := seeds + [cl];
    }
    assert clients[..|clients|] == clients;
  }

  method Patch(in0: Inbound, req: UpdateRequest) returns (row: Inbound)
    ensures row == Patched(in0, req)
  {
    row := in0;
    if req.listen.Some? {
      row := row.(listen := req.listen.value);
    }
    if req.port.Some? {
      row := row.(port := req.port.value);
    }
    if req.network.Some? {
      row := row.(network := req.network.value);
    }
    if req.remark.Some? {
      row := row.(remark := req.remark.value);
    }
    if req.enabled.Some? {
      row := row.(enabled := req.enabled.value);
    }
  }

  /** The settings half of an update, and every gate. */
  method PrepareUpdate(rows: seq<Inbound>, row: Inbound, req: UpdateRequest, certs: Certs, m: Mint) returns (r: Result<Inbound>)
    ensures r == Gated(rows, row, req, certs, m)
  {
    if (req.port.Some? || req.listen.Some?) && req.advanced.None? && req.settings.None? {
      var code := RunShapeGates(row.typ, row.listen, row.port, Decoded(row.settings));
      if code != "" {
        return Err(code);
      }
    }
    if req.advanced.Some? || req.settings.Some? {
      var filled := FillUpdate(row.typ, req, Decoded(row.settings), certs, m);
      if filled.Err? {
        return Err(filled.error);
      }
      var code := RunShapeGates(row.typ, row.listen, row.port, filled.value);
      if code != "" {
        return Err(code);
      }
      code := ArgoSingletonGate(rows, row.nodeId, filled.value, row.id);
      if code != "" {
        return Err(code);
      }
      return Ok(row.(settings := Json(filled.value)));
    }
    return Ok(row);
  }

  method FillUpdate(typ: Protocol, req: UpdateRequest, existing: Fields, certs: Certs, m: Mint) returns (filled: Result<Fields>)
    requires req.advanced.Some? || req.settings.Some?
    ensures filled == UpdateSettings(typ, req, existing, certs, m)
  {
    if req.advanced.Some? {
      filled := ApplyAdvancedUpdate(typ, req.advanced.value, existing, m);
      if filled.Ok? && CertSelectable(typ) && Get(req.advanced.value, CertDomain).Str? {
        filled := ApplyCertDomain(filled.value, req.advanced.value[CertDomain].s, certs);
      }
    } else {
      filled := AutofillInboundSettings(typ, req.settings.value, existing, m);
    }
  }

  method TakeTunnel(row: Inbound) returns (r: Inbound)
    ensures r == AsOrigin(row)
  {
    var ts := Decoded(row.settings);
    ts := ts[ArgoBound := Str("true")];
    ts := ts - {ArgoStandby};
    return row.(settings := Json(ts), enabled := true);
  }

  method ReleaseTunnel(row: Inbound) returns (r: Inbound)
    ensures r == Released(row)
  {
    var cs := Decoded(row.settings) - {ArgoBound};
    var keepOn := row.enabled && Truthy(Get(cs, EdgeBound));
    if !Truthy(Get(cs, EdgeBound)) {
      cs := cs[ArgoStandby := Str("true")];
    }
    return row.(settings := Json(cs), enabled := keepOn);
  }

  class Store {
    var rows: seq<Inbound>
    var nextId: nat
    var nextClient: nat

    function View(): Table
      reads this
    {
      Table(rows, nextId, nextClient)
    }

    constructor ()
      ensures View() == Table([], 1, 1)
    {
      rows, nextId, nextClient := [], 1, 1;
    }

    method CreateInbound(node: nat, req: CreateRequest, m: Mint) returns (code: string)
      modifies this
      ensures (View(), code) == Create(old(View()), node, req, m)
    {
      if req.tag == "" || req.typ == OtherProtocol("") || req.port <= 0 {
        return "BAD_REQUEST";
      }
      var enabled := true;
      if req.enabled.Some? {
        enabled := req.enabled.value;
      }
      var filled: Result<Fields>;
      if req.advanced.Some? {
        filled := BuildInboundSettings(req.typ, req.advanced.value, m);
      } else {
        filled := AutofillInboundSettings(req.typ, if req.settings.Some? then req.settings.value else map[], map[], m);
      }
      if filled.Err? {
        return filled.error;
      }
      code := RunShapeGates(req.typ, req.listen, req.port, filled.value);
      if code != "" {
        return;
      }
      code := ArgoSingletonGate(rows, node, filled.value, 0);
      if code != "" {
        return;
      }
      if Conflict(rows, nextId, req.tag, req.listen, req.port) {
        return "DB_ERROR";
      }
      rows := rows + [Inbound(nextId, node, req.tag, req.typ, req.listen, req.port, req.network, req.remark, enabled,
                              Json(filled.value), Name(""), [])];
      nextId := nextId + 1;
    }

    method UpdateInbound(id: nat, req: UpdateRequest, certs: Certs, m: Mint) returns (code: string)
      modifies this
      ensures (View(), code) == Update(old(View()), id, req, certs, m)
    {
      if !Exists(rows, id) {
        return "NOT_FOUND";
      }
      var row := Patch(Row(rows, id), req);
      var prepared := PrepareUpdate(rows, row, req, certs, m);
      assert prepared == Candidate(rows, Row(rows, id), req, certs, m);
      if prepared.Err? {
        return prepared.error;
      }
      row := prepared.value;
      if Conflict(rows, id, row.tag, row.listen, row.port) {
        return "DB_ERROR";
      }
      rows := Saved(rows, row);
      return "";
    }

    method DeleteInbound(id: nat)
      modifies this
      ensures View() == Delete(old(View()), id)
    {
      rows := Without(rows, id);
    }

    method SetArgoOrigin(node: nat, id: nat, tunnel: Tunnel, ingressDone: bool, uuid: nat -> string) returns (code: string)
      modifies this
      ensures (View(), code) == SetOrigin(old(View()), node, id, tunnel, ingressDone, uuid)
    {
      if id == 0 {
        return "BAD_REQUEST";
      }
      if !Exists(rows, id) || Row(rows, id).nodeId != node {
        return "NOT_FOUND";
      }
      var target := Row(rows, id);
      var ts := Decoded(target.settings);
      if !Truthy(Get(ts, ArgoBound)) && !Truthy(Get(ts, EdgeBound)) && !Truthy(Get(ts, ArgoStandby)) {
        return "ARGO_ORIGIN_UNSUPPORTED";
      }
      var problem := ArgoOriginProblem(target);
      if problem != "" {
        return "ARGO_ORIGIN_UNSUPPORTED";
      }
      var current := FindHolder(rows, node);
      if current.Some? && current.value.id == target.id && target.enabled {
        return "";
      }
      if tunnel == Fixed(false) && !ingressDone {
        return "ARGO_INGRESS_MANUAL";
      }
      PointTunnel(target, current, uuid);
      return "";
    }

    method PointTunnel(target: Inbound, current: Option<Inbound>, uuid: nat -> string)
      modifies this
      ensures View() == Pointed(old(View()), target, current, uuid)
    {
      var origin := TakeTunnel(target);
      if current.Some? && current.value.id != target.id {
        var emails := EmailsMissingFrom(current.value.clients, target.clients);
        var holder := ReleaseTunnel(current.value);
        var joining := CopyUsers(rows, target, emails, nextClient, uuid);
        rows := Saved(rows, origin.(clients := origin.clients + joining));
        rows := Saved(rows, holder);
        nextClient := nextClient + |emails|;
      } else {
        rows := Saved(rows, origin);
      }
    }

    method EnsureEdgeInbound(node: nat, draw: EdgeDraw) returns (code: string)
      modifies this
      ensures (View(), code) == EnsureEdge(old(View()), node, draw)
    {
      for i := 0 to |rows|
        invariant View() == old(View())
        invariant forall j :: 0 <= j < i ==> !(rows[j].nodeId == node && rows[j].enabled && rows[j].Flag(EdgeBound))
      {
        if rows[i].nodeId == node && rows[i].enabled && Truthy(Get(Decoded(rows[i].settings), EdgeBound)) {
          return "";
        }
      }
      if draw.port.None? {
        return "EDGE_INBOUND";
      }
      var seeds := SeedUsers(ClientsOf(rows, node));
      var clients := EdgeClients(seeds, nextClient, draw.uuid);
      var row := Inbound(nextId, node, draw.tag, VlessWs, LOOPBACK_TEXT, draw.port.value, "tcp", "EdgeNest-VLESS-WS-CDN", true,
                         Json(map[EdgeBound := Str("true"), WsPath := Str(draw.path)]), Name(""), clients);
      assert row == EdgeRow(View(), node, draw);
      if Conflict(rows, row.id, row.tag, row.listen, row.port) {
        return "DB_ERROR";
      }
      rows := rows + [row];
      nextId := nextId + 1;
      nextClient := nextClient + |clients|;
      return "";
    }

    method ApplyAddressChange(node: nat, ch: AddressChange.AddrChange)
      modifies this
      ensures View() == ApplyChange(old(View()), node, ch)
    {
      var moved := MovedRows(rows, node, ch);
      if !Collides(moved) {
        rows := moved;
      }
    }

    method HealAddressChange(node: nat, local: seq<IP>, known: seq<Text>)
      modifies this
      ensures View() == Heal(old(View()), node, local, known)
    {
      var changes := AddressChange.PlanAddressChange(Listens(rows, node), local, known);
      for i := 0 to |changes|
        invariant ApplyChanges(View(), node, changes[i..]) == ApplyChanges(old(View()), node, changes)
      {
        assert changes[i..][1..] == changes[i + 1..];
        ApplyAddressChange(node, changes[i]);
      }
    }
  }
}
