/** What the engine is told to listen on and which ports are opened for it
    (internal/control/orchestrator/orchestrator.go). */
module Firewall {
  import opened Common
  import opened Addresses
  import opened Settings
  import opened Model
  import opened Antiblock

  datatype PortRule = PortRule(port: int, proto: string, note: string) {
    function Key(): (int, string) { (port, proto) }
  }

  datatype FirewallRule = FirewallRule(port: int, proto: string, note: string, managed: bool) {
    function Key(): (int, string) { (port, proto) }
  }

  /** One inbound as rendered for the engine. */
  datatype Listener = Listener(tag: string, typ: Protocol, listen: Text, port: int, network: string, settings: Fields, clients: seq<Client>)

  predicate Shielded(s: Fields) {
    Truthy(Get(s, EdgeBound)) || Truthy(Get(s, ArgoBound))
  }

  predicate Runs(p: Config, s: Fields) {
    !p.stealth || Shielded(s)
  }

  /** The orchestrator's loopback test compares the trimmed text. */
  predicate LocalOnly(l: Text, trim: string -> string) {
    match l
    case Literal(ip, spelling) => spelling == 0 && (ip == LOCALHOST4 || ip == LOCALHOST6)
    case Name(t) => trim(t) == "localhost" || trim(t) == "127.0.0.1" || trim(t) == "::1"
  }

  function NormaliseProto(typ: Protocol, network: string): string {
    if network == "tcp" || network == "udp" || network == "both" then network
    else if typ.Hysteria2? || typ.Tuic? then "udp"
    else "tcp"
  }

  // ---- Rendering ----

  function Running(rows: seq<Inbound>, p: Config): seq<Inbound> {
    if rows == [] then []
    else
      var (before, row) := (Running(rows[..|rows| - 1], p), rows[|rows| - 1]);
      if Runs(p, row.Fields()) then before + [row] else before
  }

  method RunningInbounds(rows: seq<Inbound>, p: Config) returns (out: seq<Inbound>)
    ensures out == Running(rows, p)
  {
    if !p.stealth {
      AllRun(rows, p);
      return rows;
    }
    out := [];
    for i := 0 to |rows|
      invariant out == Running(rows[..i], p)
    {
      assert rows[..i + 1][..i] == rows[..i];
      if Runs(p, Decoded(rows[i].settings)) {
        out := out + [rows[i]];
      }
    }
    assert rows[..|rows|] == rows;
  }

  lemma {:induction false} AllRun(rows: seq<Inbound>, p: Config)
    requires !p.stealth
    ensures Running(rows, p) == rows
  {
    if rows != [] {
      AllRun(rows[..|rows| - 1], p);
    }
  }

  function EnabledClients(cs: seq<Client>): seq<Client> {
    if cs == [] then []
    else
      var (before, c) := (EnabledClients(cs[..|cs| - 1]), cs[|cs| - 1]);
      if c.enabled then before + [c] else before
  }

  /** An origin behind a tunnel or an edge proxy is forced onto loopback. */
  function Rendered(row: Inbound): Result<Listener> {
    if row.settings.Malformed? then Err("settings json")
    else Ok(Listener(row.tag, row.typ, if Shielded(row.Fields()) then LOOPBACK_TEXT else row.listen,
                     row.port, row.network, row.Fields(), EnabledClients(row.clients)))
  }

  function RenderedAll(rows: seq<Inbound>): Result<seq<Listener>> {
    if rows == [] then Ok([])
    else
      var (before, row) := (RenderedAll(rows[..|rows| - 1]), rows[|rows| - 1]);
      if before.Err? || !row.enabled then before
      else if Rendered(row).Err? then Err(Rendered(row).error)
      else Ok(before.value + [Rendered(row).value])
  }

  method BuildInboundSpec(row: Inbound) returns (r: Result<Listener>)
    ensures r == Rendered(row)
  {
    if row.settings.Malformed? {
      return Err("settings json");
    }
    var settings := Decoded(row.settings);
    var clients: seq<Client> := [];
    for i := 0 to |row.clients|
      invariant clients == EnabledClients(row.clients[..i])
    {
      assert row.clients[..i + 1][..i] == row.clients[..i];
      if row.clients[i].enabled {
        clients := clients + [row.clients[i]];
      }
    }
    assert row.clients[..|row.clients|] == row.clients;
    var listen := row.listen;
    if Truthy(Get(settings, ArgoBound)) || Truthy(Get(settings, EdgeBound)) {
      listen := LOOPBACK_TEXT;
    }
    return Ok(Listener(row.tag, row.typ, listen, row.port, row.network, settings, clients));
  }

  // ---- Openings derived from inbounds ----

  predicate Exposed(row: Inbound, trim: string -> string) {
    row.enabled && !LocalOnly(row.listen, trim) && !Shielded(row.Fields())
  }

  function OpeningKey(row: Inbound): (int, string) {
    (row.port, NormaliseProto(row.typ, row.network))
  }

  predicate Opens(rules: seq<PortRule>, key: (int, string)) {
    exists i :: 0 <= i < |rules| && rules[i].Key() == key
  }

  function Derived(rows: seq<Inbound>, trim: string -> string): seq<PortRule> {
    if rows == [] then []
    else
      var (before, row) := (Derived(rows[..|rows| - 1], trim), rows[|rows| - 1]);
      if !Exposed(row, trim) || Opens(before, OpeningKey(row)) then before
      else before + [PortRule(row.port, NormaliseProto(row.typ, row.network), "edgenest:" + row.tag)]
  }

  lemma OpensAppend(rules: seq<PortRule>, r: PortRule, key: (int, string))
    ensures Opens(rules + [r], key) <==> Opens(rules, key) || r.Key() == key
  {
    var more := rules + [r];
    assert more[|rules|] == r;
    if i :| 0 <= i < |rules| && rules[i].Key() == key {
      assert more[i] == rules[i];
    }
    if i :| 0 <= i < |more| && more[i].Key() == key {
      assert i < |rules| ==> rules[i] == more[i];
    }
  }

  method DeriveAllowPorts(rows: seq<Inbound>, trim: string -> string) returns (out: seq<PortRule>)
    ensures out == Derived(rows, trim)
  {
    var seen: set<(int, string)> := {};
    out := [];
    for i := 0 to |rows|
      invariant out == Derived(rows[..i], trim)
      invariant forall k :: k in seen <==> Opens(out, k)
    {
      assert rows[..i + 1][..i] == rows[..i];
      var row := rows[i];
      if !row.enabled {
        continue;
      }
      if LocalOnly(row.listen, trim) {
        continue;
      }
      if Shielded(Decoded(row.settings)) {
        continue;
      }
      var key := (row.port, NormaliseProto(row.typ, row.network));
      if key in seen {
        continue;
      }
      seen := seen + {key};
      var rule := PortRule(key.0, key.1, "edgenest:" + row.tag);
      forall k {
        OpensAppend(out, rule, k);
      }
      out := out + [rule];
    }
    assert rows[..|rows|] == rows;
  }

  function GatewayPorts(p: Config): seq<PortRule> {
    if p.edgeDomain == "" || p.gatewayMode != Builtin then []
    else [PortRule(GatewayPort(p), "tcp", "edgenest:edge-gateway"),
          PortRule(80, "tcp", "edgenest:edge-gateway-acme")]
  }

  // ---- Safe mode and the operator's rules ----

  predicate UserCovers(rules: seq<FirewallRule>, key: (int, string)) {
    exists i :: 0 <= i < |rules| && !rules[i].managed && rules[i].Key() == key
  }

  function Reserve(allow: seq<PortRule>, port: int, note: string, rules: seq<FirewallRule>): seq<PortRule> {
    if port <= 0 || Opens(allow, (port, "tcp")) || UserCovers(rules, (port, "tcp")) then allow
    else allow + [PortRule(port, "tcp", note)]
  }

  function WithSafeMode(allow: seq<PortRule>, sshPort: int, panelPort: int, rules: seq<FirewallRule>): seq<PortRule> {
    Reserve(Reserve(allow, sshPort, "edgenest:safe-mode-ssh", rules), panelPort, "edgenest:safe-mode-panel", rules)
  }

  function WithUserRules(allow: seq<PortRule>, rules: seq<FirewallRule>): seq<PortRule> {
    if rules == [] then allow
    else
      var (before, r) := (WithUserRules(allow, rules[..|rules| - 1]), rules[|rules| - 1]);
      if r.managed || Opens(before, r.Key()) then before else before + [PortRule(r.port, r.proto, "user:" + r.note)]
  }

  method MergeSafeModePorts(allow0: seq<PortRule>, sshPort: int, panelPort: int, rules: seq<FirewallRule>) returns (allow: seq<PortRule>)
    ensures allow == WithSafeMode(allow0, sshPort, panelPort, rules)
  {
    allow := allow0;
    if sshPort > 0 {
      allow := AddReserved(allow, sshPort, "edgenest:safe-mode-ssh", rules);
    }
    if panelPort > 0 {
      allow := AddReserved(allow, panelPort, "edgenest:safe-mode-panel", rules);
    }
  }

  method AddReserved(allow: seq<PortRule>, port: int, note: string, rules: seq<FirewallRule>) returns (out: seq<PortRule>)
    requires port > 0
    ensures out == Reserve(allow, port, note, rules)
  {
    for i := 0 to |allow|
      invariant forall j :: 0 <= j < i ==> allow[j].Key() != (port, "tcp")
    {
      if allow[i].port == port && allow[i].proto == "tcp" {
        assert allow[i].Key() == (port, "tcp");
        return allow;
      }
    }
    for i := 0 to |rules|
      invariant forall j :: 0 <= j < i && !rules[j].managed ==> rules[j].Key() != (port, "tcp")
    {
      if !rules[i].managed && rules[i].port == port && rules[i].proto == "tcp" {
        assert rules[i].Key() == (port, "tcp");
        return allow;
      }
    }
    return allow + [PortRule(port, "tcp", note)];
  }

  method MergeUserManagedPorts(allow0: seq<PortRule>, rules: seq<FirewallRule>) returns (allow: seq<PortRule>)
    ensures allow == WithUserRules(allow0, rules)
  {
    allow := allow0;
    for i := 0 to |rules|
      invariant allow == WithUserRules(allow0, rules[..i])
    {
      assert rules[..i + 1][..i] == rules[..i];
      var r := rules[i];
      if r.managed {
        continue;
      }
      var dup := false;
      for j := 0 to |allow|
        invariant dup ==> Opens(allow, r.Key())
        invariant !dup ==> forall k :: 0 <= k < j ==> allow[k].Key() != r.Key()
      {
        if allow[j].port == r.port && allow[j].proto == r.proto {
          assert allow[j].Key() == r.Key();
          dup := true;
          break;
        }
      }
      if !dup {
        allow := allow + [PortRule(r.port, r.proto, "user:" + r.note)];
      }
    }
    assert rules[..|rules|] == rules;
  }

  /** The database as the orchestrator reads it. */
  datatype Inputs = Inputs(rows: seq<Inbound>, posture: Config, rules: seq<FirewallRule>, sshPort: int, panelPort: int, trim: string -> string)

  function Managed(db: Inputs): seq<PortRule> {
    WithSafeMode(Derived(Running(db.rows, db.posture), db.trim) + GatewayPorts(db.posture), db.sshPort, db.panelPort, db.rules)
  }

  function Pushed(db: Inputs): seq<PortRule> {
    WithUserRules(Managed(db), db.rules)
  }

  method ComputeAllowPorts(db: Inputs, running: seq<Inbound>) returns (managed: seq<PortRule>, full: seq<PortRule>)
    requires running == Running(db.rows, db.posture)
    ensures managed == Managed(db) && full == Pushed(db)
  {
    managed := DeriveAllowPorts(running, db.trim);
    managed := managed + GatewayPorts(db.posture);
    managed := MergeSafeModePorts(managed, db.sshPort, db.panelPort, db.rules);
    full := MergeUserManagedPorts(managed, db.rules);
  }

  /** The listening and the opening half of BuildDesired, from one read of the table. */
  method BuildDesired(db: Inputs) returns (listeners: Result<seq<Listener>>, allow: seq<PortRule>)
    ensures listeners == RenderedAll(Running(db.rows, db.posture))
    ensures listeners.Ok? ==> allow == Pushed(db)
  {
    var running := RunningInbounds(db.rows, db.posture);
    var specs: seq<Listener> := [];
    for i := 0 to |running|
      invariant RenderedAll(running[..i]) == Ok(specs)
    {
      assert running[..i + 1][..i] == running[..i];
      if !running[i].enabled {
        continue;
      }
      var spec := BuildInboundSpec(running[i]);
      if spec.Err? {
        ErrorStays(running, i + 1);
        return Err(spec.error), [];
      }
      specs := specs + [spec.value];
    }
    assert running[..|running|] == running;
    listeners := Ok(specs);
    var managed, full := ComputeAllowPorts(db, running);
    allow := full;
  }

  lemma {:induction false} ErrorStays(rows: seq<Inbound>, i: nat)
    requires i <= |rows| && RenderedAll(rows[..i]).Err?
    ensures RenderedAll(rows) == RenderedAll(rows[..i])
    decreases |rows| - i
  {
    if i == |rows| {
      assert rows[..i] == rows;
    } else {
      assert rows[..i + 1][..i] == rows[..i];
      ErrorStays(rows, i + 1);
    }
  }
}
