/** An inbound's stored settings: what autofill adds, what the structured form may
    change, and what it shows (internal/control/api/inbound_secrets.go,
    inbound_structured.go). */
module Settings {
  import opened Common

  /** The settings keys the control plane gives a meaning to. */
  datatype Key =
    | RealityPrivateKey | RealityPublicKey | ShortIds | Sni | ServerPortTarget | Flow
    | Security | XhttpPath | XhttpHost | WsPath | WsHost
    | Method | Password | Obfs | ObfsPassword | UpMbps | DownMbps | CongestionControl
    | TlsCertPath | TlsKeyPath | SelfSigned | AcmeManaged
    | RequireAuth | Username
    | CdnMode | ArgoBound | EdgeBound | ArgoStandby | CertDomain
    | Other(name: string)

  datatype Protocol =
    | Vless | VlessXhttp | VlessWs | Vmess | VmessWs
    | Shadowsocks | Hysteria2 | Trojan | Tuic | Anytls | Socks
    | OtherProtocol(name: string)

  /** A decoded JSON value. */
  datatype Value =
    | Null
    | Bool(b: bool)
    | Num(n: real)
    | Str(s: string)
    | List(items: seq<Value>)
    | Object(fields: map<string, Value>)

  type Fields = map<Key, Value>

  /** The settings column of a row. */
  datatype Stored = Empty | Malformed | Json(fields: Fields)

  /** What a decoder that ignores errors sees. */
  function Decoded(raw: Stored): Fields {
    if raw.Json? then raw.fields else map[]
  }

  /** s[k] of a Go map: the missing value is nil. */
  function Get(s: Fields, k: Key): Value {
    if k in s then s[k] else Null
  }

  predicate PlaceholderText(s: string) {
    |s| > 1 && s[0] == '<' && s[|s| - 1] == '>'
  }

  predicate IsPlaceholder(v: Value) {
    v.Str? && PlaceholderText(v.s)
  }

  /** Something the engine will accept. */
  predicate Meaningful(v: Value) {
    match v
    case Null => false
    case Str(s) => s != "" && !PlaceholderText(s)
    case List(items) => AnyItem(items)
    case _ => true
  }

  predicate AnyItem(items: seq<Value>) {
    items != [] && ((items[0] != Null && items[0] != Str("")) || AnyItem(items[1..]))
  }

  function Text(v: Value): string {
    if v.Str? then v.s else ""
  }

  predicate Truthy(v: Value) {
    v == Bool(true) || v == Str("true") || v == Str("1") || v == Str("yes")
  }

  // ---- Minted material ----

  /** Results of the random generators (None = the generator failed), and the
      server's current default disguise. */
  datatype Mint = Mint(
    keypair: Option<(string, string)>,
    shortId: Option<string>,
    psk16: Option<string>,
    psk32: Option<string>,
    obfs: Option<string>,
    sni: string
  ) {
    predicate Usable() {
      && (keypair.Some? ==> Meaningful(Str(keypair.value.0)) && Meaningful(Str(keypair.value.1)))
      && (shortId.Some? ==> shortId.value != "")
      && (psk16.Some? ==> Meaningful(Str(psk16.value)))
      && (psk32.Some? ==> Meaningful(Str(psk32.value)))
      && (obfs.Some? ==> Meaningful(Str(obfs.value)))
      && Meaningful(Str(sni))
    }

    function Psk(cipher: string): Option<string> {
      if cipher == "2022-blake3-aes-256-gcm" || cipher == "2022-blake3-chacha20-poly1305" then psk32 else psk16
    }
  }

  const WIZARD_CERT: Value := Str("/etc/edgenest/certs/wizard-fullchain.pem")
  const WIZARD_KEY: Value := Str("/etc/edgenest/certs/wizard-privkey.pem")

  // ---- What autofill computes ----

  /** Keep a meaningful value, else take the stored one if that is meaningful. */
  function Carry(s: Fields, existing: Fields, k: Key): Fields {
    if !Meaningful(Get(s, k)) && Meaningful(Get(existing, k)) then s[k := existing[k]] else s
  }

  function Default(s: Fields, k: Key, v: Value): Fields {
    if Meaningful(Get(s, k)) then s else s[k := v]
  }

  /** Set k to a minted value unless it is meaningful; fail if the mint failed. */
  function Minted(s: Fields, k: Key, v: Option<Value>): Result<Fields> {
    if Meaningful(Get(s, k)) then Ok(s)
    else if v.None? then Err("AUTOFILL")
    else Ok(s[k := v.value])
  }

  function AsValue(o: Option<string>): Option<Value> {
    if o.Some? then Some(Str(o.value)) else None
  }

  function RealityCarried(s: Fields, existing: Fields): Fields {
    Carry(Carry(Carry(s, existing, RealityPrivateKey), existing, RealityPublicKey), existing, ShortIds)
  }

  function RealityKeys(s: Fields, existing: Fields, m: Mint): Result<Fields> {
    RealityMinted(RealityCarried(s, existing), m)
  }

  function RealityMinted(s1: Fields, m: Mint): Result<Fields> {
    var ids := if m.shortId.Some? then Some(List([Str(m.shortId.value)])) else None;
    if Meaningful(Get(s1, RealityPrivateKey)) then Minted(s1, ShortIds, ids)
    else if m.keypair.None? then Err("AUTOFILL")
    else Minted(s1[RealityPrivateKey := Str(m.keypair.value.0)][RealityPublicKey := Str(m.keypair.value.1)], ShortIds, ids)
  }

  function HostFromSni(s: Fields, k: Key): Fields {
    if Meaningful(Get(s, k)) || Text(Get(s, Sni)) == "" then s else s[k := Str(Text(Get(s, Sni)))]
  }

  function TlsDefaults(s: Fields): Fields {
    var s1 := Default(Default(s, TlsCertPath, WIZARD_CERT), TlsKeyPath, WIZARD_KEY);
    if s1 != s && !Meaningful(Get(s1, SelfSigned)) && !Meaningful(Get(s1, AcmeManaged)) then s1[SelfSigned := Str("true")]
    else s1
  }

  predicate ObfsText(s: string) {
    s != "" && s != "false" && s != "off"
  }

  /** A stored obfuscation password, or a request to make one, keeps obfs on. */
  predicate ObfsPasswordSet(s: Fields) {
    IsPlaceholder(Get(s, ObfsPassword)) || Meaningful(Get(s, ObfsPassword))
  }

  predicate ObfsOn(s: Fields) {
    || Get(s, Obfs) == Bool(true)
    || (Get(s, Obfs).Str? && ObfsText(Get(s, Obfs).s))
    || ObfsPasswordSet(s)
  }

  function ObfsSettled(s: Fields, m: Mint): Result<Fields> {
    if ObfsOn(s) then Minted(s[Obfs := Str("salamander")], ObfsPassword, AsValue(m.obfs))
    else Ok(s - {Obfs, ObfsPassword})
  }

  function SniDefault(s: Fields): Fields {
    Default(s, Sni, Str("www.bing.com"))
  }

  function SpeedDefaults(s: Fields): Fields {
    Default(Default(s, UpMbps, Num(100.0)), DownMbps, Num(500.0))
  }

  function VlessDefaults(s: Fields, m: Mint): Fields {
    Default(Default(Default(s, Sni, Str(m.sni)), ServerPortTarget, Num(443.0)), Flow, Str("xtls-rprx-vision"))
  }

  function FilledVless(s: Fields, existing: Fields, m: Mint): Result<Fields> {
    var r := RealityKeys(s, existing, m);
    if r.Err? then r else Ok(VlessDefaults(r.value, m))
  }

  function XhttpSecurity(s: Fields, existing: Fields, m: Mint): Result<Fields> {
    var s1 := Default(s, Security, Str("reality"));
    if Text(Get(s1, Security)) != "reality" then Ok(s1)
    else
      var r := RealityKeys(s1, existing, m);
      if r.Err? then r else Ok(Default(r.value, Sni, Str(m.sni)))
  }

  function FilledXhttp(s: Fields, existing: Fields, m: Mint): Result<Fields> {
    var r := XhttpSecurity(s, existing, m);
    if r.Err? then r else Ok(HostFromSni(Default(r.value, XhttpPath, Str("/xhttp")), XhttpHost))
  }

  function FilledWs(s: Fields, path: string): Fields {
    HostFromSni(Default(s, WsPath, Str(path)), WsHost)
  }

  function FilledShadowsocks(s: Fields, existing: Fields, m: Mint): Result<Fields> {
    var s1 := Default(Carry(s, existing, Password), Method, Str("2022-blake3-aes-128-gcm"));
    Minted(s1, Password, AsValue(m.Psk(Text(Get(s1, Method)))))
  }

  function FilledHysteria2(s: Fields, existing: Fields, m: Mint): Result<Fields> {
    var r := ObfsSettled(TlsDefaults(Carry(s, existing, ObfsPassword)), m);
    if r.Err? then r else Ok(SniDefault(SpeedDefaults(r.value)))
  }

  function FilledTuic(s: Fields): Fields {
    Default(SniDefault(TlsDefaults(s)), CongestionControl, Str("bbr"))
  }

  function Autofilled(typ: Protocol, s: Fields, existing: Fields, m: Mint): Result<Fields> {
    match typ
    case Vless => FilledVless(s, existing, m)
    case VlessXhttp => FilledXhttp(s, existing, m)
    case VlessWs => Ok(FilledWs(Carry(s, existing, RealityPublicKey), "/vless"))
    case Vmess => Ok(FilledWs(s, "/vmess"))
    case VmessWs => Ok(FilledWs(s, "/vmess"))
    case Shadowsocks => FilledShadowsocks(s, existing, m)
    case Hysteria2 => FilledHysteria2(s, existing, m)
    case Trojan => Ok(SniDefault(TlsDefaults(s)))
    case Anytls => Ok(SniDefault(TlsDefaults(s)))
    case Tuic => Ok(FilledTuic(s))
    case Socks => Ok(if RequireAuth in s then s else s[RequireAuth := Bool(true)])
    case OtherProtocol(_) => Ok(s)
  }

  // ---- The autofill, step by step ----

  ghost function CarryKeys(s: Fields, existing: Fields, keys: seq<Key>): Fields
    decreases |keys|
  {
    if keys == [] then s else CarryKeys(Carry(s, existing, keys[0]), existing, keys[1..])
  }

  lemma CarryThree(s: Fields, existing: Fields, a: Key, b: Key, c: Key)
    ensures CarryKeys(s, existing, [a, b, c]) == Carry(Carry(Carry(s, existing, a), existing, b), existing, c)
  {
    assert [a, b, c][1..] == [b, c] && [b, c][1..] == [c] && [c][1..] == [];
    var s1 := Carry(s, existing, a);
    var s2 := Carry(s1, existing, b);
    assert CarryKeys(s, existing, [a, b, c]) == CarryKeys(s1, existing, [b, c]);
    assert CarryKeys(s1, existing, [b, c]) == CarryKeys(s2, existing, [c]);
    assert CarryKeys(s2, existing, [c]) == CarryKeys(Carry(s2, existing, c), existing, []);
  }

  method CarryForward(s0: Fields, existing: Fields, keys: seq<Key>) returns (s: Fields)
    ensures s == CarryKeys(s0, existing, keys)
  {
    s := s0;
    for i := 0 to |keys|
      invariant CarryKeys(s, existing, keys[i..]) == CarryKeys(s0, existing, keys)
    {
      assert keys[i..][1..] == keys[i + 1..];
      if !Meaningful(Get(s, keys[i])) {
        if keys[i] in existing && Meaningful(existing[keys[i]]) {
          s := s[keys[i] := existing[keys[i]]];
        }
      }
    }
  }

  method FillRealityKeys(s0: Fields, existing: Fields, m: Mint) returns (r: Result<Fields>)
    ensures r == RealityKeys(s0, existing, m)
  {
    var s := CarryForward(s0, existing, [RealityPrivateKey, RealityPublicKey, ShortIds]);
    CarryThree(s0, existing, RealityPrivateKey, RealityPublicKey, ShortIds);
    if !Meaningful(Get(s, RealityPrivateKey)) {
      if m.keypair.None? {
        return Err("AUTOFILL");
      }
      s := s[RealityPrivateKey := Str(m.keypair.value.0)];
      s := s[RealityPublicKey := Str(m.keypair.value.1)];
    }
    if !Meaningful(Get(s, ShortIds)) {
      if m.shortId.None? {
        return Err("AUTOFILL");
      }
      s := s[ShortIds := List([Str(m.shortId.value)])];
    }
    return Ok(s);
  }

  method FillTlsDefaults(s0: Fields) returns (s: Fields)
    ensures s == TlsDefaults(s0)
  {
    s := s0;
    var autofilled := false;
    if !Meaningful(Get(s, TlsCertPath)) {
      s := s[TlsCertPath := WIZARD_CERT];
      autofilled := true;
      assert s != s0;
    }
    if !Meaningful(Get(s, TlsKeyPath)) {
      s := s[TlsKeyPath := WIZARD_KEY];
      autofilled := true;
      assert Get(s, TlsKeyPath) != Get(s0, TlsKeyPath);
    }
    if autofilled && !Meaningful(Get(s, SelfSigned)) && !Meaningful(Get(s, AcmeManaged)) {
      s := s[SelfSigned := Str("true")];
    }
  }

  method FillObfs(s0: Fields, m: Mint) returns (r: Result<Fields>)
    ensures r == ObfsSettled(s0, m)
  {
    var s := s0;
    var on := false;
    match Get(s, Obfs) {
      case Bool(v) => on := v;
      case Str(v) => if v != "" && v != "false" && v != "off" { on := true; }
      case _ =>
    }
    if !on {
      if ObfsPassword in s && (IsPlaceholder(s[ObfsPassword]) || Meaningful(s[ObfsPassword])) {
        on := true;
      }
    }
    if on {
      s := s[Obfs := Str("salamander")];
      if !Meaningful(Get(s, ObfsPassword)) || IsPlaceholder(Get(s, ObfsPassword)) {
        if m.obfs.None? {
          return Err("AUTOFILL");
        }
        s := s[ObfsPassword := Str(m.obfs.value)];
      }
    } else {
      s := s - {Obfs};
      s := s - {ObfsPassword};
      assert s == s0 - {Obfs, ObfsPassword};
    }
    return Ok(s);
  }

  method AutofillInboundSettings(typ: Protocol, s0: Fields, existing: Fields, m: Mint) returns (r: Result<Fields>)
    ensures r == Autofilled(typ, s0, existing, m)
  {
    var s := s0;
    match typ {
      case Vless =>
        r := FillVless(s, existing, m);
        return;
      case VlessXhttp =>
        r := FillXhttp(s, existing, m);
        return;
      case VlessWs =>
        s := CarryForward(s, existing, [RealityPublicKey]);
        s := FillWs(s, "/vless");
      case Vmess =>
        s := FillWs(s, "/vmess");
      case VmessWs =>
        s := FillWs(s, "/vmess");
      case Shadowsocks =>
        r := FillShadowsocks(s, existing, m);
        return;
      case Hysteria2 =>
        r := FillHysteria2(s, existing, m);
        return;
      case Trojan =>
        s := FillTlsAndSni(s);
      case Anytls =>
        s := FillTlsAndSni(s);
      case Tuic =>
        s := FillTlsAndSni(s);
        if !Meaningful(Get(s, CongestionControl)) {
          s := s[CongestionControl := Str("bbr")];
        }
      case Socks =>
        if RequireAuth !in s {
          s := s[RequireAuth := Bool(true)];
        }
      case OtherProtocol(_) =>
    }
    return Ok(s);
  }

  method FillVless(s0: Fields, existing: Fields, m: Mint) returns (r: Result<Fields>)
    ensures r == FilledVless(s0, existing, m)
  {
    r := FillRealityKeys(s0, existing, m);
    if r.Err? {
      return;
    }
    var s := r.value;
    if !Meaningful(Get(s, Sni)) {
      s := s[Sni := Str(m.sni)];
    }
    if !Meaningful(Get(s, ServerPortTarget)) {
      s := s[ServerPortTarget := Num(443.0)];
    }
    if !Meaningful(Get(s, Flow)) {
      s := s[Flow := Str("xtls-rprx-vision")];
    }
    return Ok(s);
  }

  method FillXhttp(s0: Fields, existing: Fields, m: Mint) returns (r: Result<Fields>)
    ensures r == FilledXhttp(s0, existing, m)
  {
    var s := s0;
    if !Meaningful(Get(s, Security)) {
      s := s[Security := Str("reality")];
    }
    if Text(Get(s, Security)) == "reality" {
      r := FillRealityKeys(s, existing, m);
      if r.Err? {
        return;
      }
      s := r.value;
      if !Meaningful(Get(s, Sni)) {
        s := s[Sni := Str(m.sni)];
      }
    }
    if !Meaningful(Get(s, XhttpPath)) {
      s := s[XhttpPath := Str("/xhttp")];
    }
    s := FillHost(s, XhttpHost);
    return Ok(s);
  }

  method FillWs(s0: Fields, path: string) returns (s: Fields)
    ensures s == FilledWs(s0, path)
  {
    s := s0;
    if !Meaningful(Get(s, WsPath)) {
      s := s[WsPath := Str(path)];
    }
    s := FillHost(s, WsHost);
  }

  method FillShadowsocks(s0: Fields, existing: Fields, m: Mint) returns (r: Result<Fields>)
    ensures r == FilledShadowsocks(s0, existing, m)
  {
    var s := CarryForward(s0, existing, [Password]);
    if !Meaningful(Get(s, Method)) {
      s := s[Method := Str("2022-blake3-aes-128-gcm")];
    }
    if !Meaningful(Get(s, Password)) {
      var psk := m.Psk(Text(Get(s, Method)));
      if psk.None? {
        return Err("AUTOFILL");
      }
      s := s[Password := Str(psk.value)];
    }
    return Ok(s);
  }

  method FillHysteria2(s0: Fields, existing: Fields, m: Mint) returns (r: Result<Fields>)
    ensures r == FilledHysteria2(s0, existing, m)
  {
    var s := CarryForward(s0, existing, [ObfsPassword]);
    s := FillTlsDefaults(s);
    r := FillObfs(s, m);
    if r.Err? {
      return;
    }
    s := r.value;
    if !Meaningful(Get(s, UpMbps)) {
      s := s[UpMbps := Num(100.0)];
    }
    if !Meaningful(Get(s, DownMbps)) {
      s := s[DownMbps := Num(500.0)];
    }
    if !Meaningful(Get(s, Sni)) {
      s := s[Sni := Str("www.bing.com")];
    }
    return Ok(s);
  }

  method FillHost(s0: Fields, k: Key) returns (s: Fields)
    ensures s == HostFromSni(s0, k)
  {
    s := s0;
    if !Meaningful(Get(s, k)) {
      var sni := Text(Get(s, Sni));
      if sni != "" {
        s := s[k := Str(sni)];
      }
    }
  }

  method FillTlsAndSni(s0: Fields) returns (s: Fields)
    ensures s == SniDefault(TlsDefaults(s0))
  {
    s := FillTlsDefaults(s0);
    if !Meaningful(Get(s, Sni)) {
      s := s[Sni := Str("www.bing.com")];
    }
  }

  // ---- The structured form ----

  /** The fields the form may set, per protocol. */
  function FormFields(typ: Protocol): seq<Key> {
    match typ
    case Vless => [Sni, ServerPortTarget]
    case VlessXhttp => [Security, Sni, XhttpPath, XhttpHost, CdnMode, ArgoBound]
    case VlessWs => [WsPath, WsHost, CdnMode, ArgoBound, EdgeBound]
    case Vmess => [WsPath, WsHost, CdnMode, ArgoBound, EdgeBound]
    case VmessWs => [WsPath, WsHost, CdnMode, ArgoBound, EdgeBound]
    case Hysteria2 => [Obfs, UpMbps, DownMbps, Sni]
    case Trojan => [Sni, AcmeManaged]
    case Shadowsocks => [Method]
    case Tuic => [CongestionControl, Sni, AcmeManaged]
    case Anytls => [Sni, AcmeManaged]
    case Socks => [RequireAuth, Username]
    case OtherProtocol(_) => []
  }

  const SECRETS: set<Key> := {RealityPrivateKey, ObfsPassword, Password}

  /** base with the form's fields written over it. */
  function Merged(typ: Protocol, base: Fields, advanced: Fields): Fields {
    if typ.OtherProtocol? then base + advanced else base + Chosen(advanced, FormFields(typ))
  }

  function Chosen(advanced: Fields, allowed: seq<Key>): Fields {
    map k | k in advanced && k in allowed && advanced[k] != Null :: advanced[k]
  }

  function BuiltSettings(typ: Protocol, advanced: Fields, m: Mint): Result<Fields> {
    Autofilled(typ, Merged(typ, map[], advanced), map[], m)
  }

  function UpdatedSettings(typ: Protocol, advanced: Fields, existing: Fields, m: Mint): Result<Fields> {
    Autofilled(typ, Merged(typ, existing, advanced), existing, m)
  }

  /** The form's view of hysteria2 obfuscation is a switch. */
  function AsSwitch(v: Value): Value {
    if v.Str? then Bool(ObfsText(v.s)) else v
  }

  function FormView(typ: Protocol, s: Fields): Fields {
    if typ.OtherProtocol? then s - SECRETS
    else
      var shown := Visible(s - SECRETS, FormFields(typ));
      if typ.Hysteria2? && Obfs in shown then shown[Obfs := AsSwitch(shown[Obfs])] else shown
  }

  function Visible(s: Fields, allowed: seq<Key>): Fields {
    map k | k in s && k in allowed :: s[k]
  }

  lemma OneMoreChosen(advanced: Fields, allowed: seq<Key>, i: nat)
    requires i < |allowed|
    ensures Chosen(advanced, allowed[..i + 1])
         == if allowed[i] in advanced && advanced[allowed[i]] != Null
            then Chosen(advanced, allowed[..i])[allowed[i] := advanced[allowed[i]]] else Chosen(advanced, allowed[..i])
  {
    assert allowed[..i + 1] == allowed[..i] + [allowed[i]];
  }

  method WriteChosen(base: Fields, advanced: Fields, allowed: seq<Key>) returns (settings: Fields)
    ensures settings == base + Chosen(advanced, allowed)
  {
    settings := base;
    for i := 0 to |allowed|
      invariant settings == base + Chosen(advanced, allowed[..i])
    {
      var k := allowed[i];
      OneMoreChosen(advanced, allowed, i);
      if k in advanced && advanced[k] != Null {
        settings := settings[k := advanced[k]];
      }
    }
    assert allowed[..|allowed|] == allowed;
  }

  method MergeForm(typ: Protocol, base: Fields, advanced: Fields) returns (settings: Fields)
    ensures settings == Merged(typ, base, advanced)
  {
    if !typ.OtherProtocol? {
      settings := WriteChosen(base, advanced, FormFields(typ));
    } else {
      settings := WriteAll(base, advanced);
    }
  }

  method WriteAll(base: Fields, advanced: Fields) returns (settings: Fields)
    ensures settings == base + advanced
  {
    settings := base;
    var keys := advanced.Keys;
    while keys != {}
      invariant keys <= advanced.Keys
      invariant base.Keys <= settings.Keys <= base.Keys + advanced.Keys
      invariant forall k :: k in advanced && k !in keys ==> k in settings && settings[k] == advanced[k]
      invariant forall k :: k in base && k !in advanced ==> settings[k] == base[k]
      decreases keys
    {
      var k :| k in keys;
      keys := keys - {k};
      settings := settings[k := advanced[k]];
    }
  }

  method BuildInboundSettings(typ: Protocol, advanced: Fields, m: Mint) returns (r: Result<Fields>)
    ensures r == BuiltSettings(typ, advanced, m)
  {
    var settings := MergeForm(typ, map[], advanced);
    r := AutofillInboundSettings(typ, settings, map[], m);
  }

  method ApplyAdvancedUpdate(typ: Protocol, advanced: Fields, existing: Fields, m: Mint) returns (r: Result<Fields>)
    ensures r == UpdatedSettings(typ, advanced, existing, m)
  {
    var merged := MergeForm(typ, existing, advanced);
    r := AutofillInboundSettings(typ, merged, existing, m);
  }

  method Select(s: Fields, allowed: seq<Key>) returns (out: Fields)
    ensures out == Visible(s, allowed)
  {
    out := map[];
    var keys := s.Keys;
    while keys != {}
      invariant keys <= s.Keys
      invariant out == map k | k in s && k !in keys && k in allowed :: s[k]
      decreases keys
    {
      var k :| k in keys;
      keys := keys - {k};
      if k in allowed {
        out := out[k := s[k]];
      }
    }
  }

  method ParseInboundAdvanced(typ: Protocol, raw: Stored) returns (r: Result<Fields>)
    ensures r.Err? <==> raw.Malformed?
    ensures r.Ok? ==> r.value == FormView(typ, Decoded(raw))
  {
    match raw {
      case Empty => return Ok(map[]);
      case Malformed => return Err("settings json is not valid");
      case Json(fields) =>
        var s := fields - SECRETS;
        if typ.OtherProtocol? {
          return Ok(s);
        }
        var out := Select(s, FormFields(typ));
        if typ.Hysteria2? {
          match Get(out, Obfs) {
            case Str(v) => out := out[Obfs := Bool(v != "" && v != "false" && v != "off")];
            case _ =>
          }
        }
        return Ok(out);
    }
  }
}
