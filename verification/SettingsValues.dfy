/** Which keys autofill fills, and with what. */
module SettingsValues {
  import opened Common
  import opened Settings
  import opened SettingsLaws
  import InboundGates

  const TLS: set<Key> := {TlsCertPath, TlsKeyPath, SelfSigned, Sni}
  const REALITY: set<Key> := {RealityPrivateKey, RealityPublicKey, ShortIds}

  /** The keys autofill may write for a protocol. */
  function Touched(typ: Protocol): set<Key> {
    match typ
    case Vless => REALITY + {Sni, ServerPortTarget, Flow}
    case VlessXhttp => REALITY + {Security, Sni, XhttpPath, XhttpHost}
    case VlessWs => {RealityPublicKey, WsPath, WsHost}
    case Vmess => {WsPath, WsHost}
    case VmessWs => {WsPath, WsHost}
    case Shadowsocks => {Password, Method}
    case Hysteria2 => TLS + {Obfs, ObfsPassword, UpMbps, DownMbps}
    case Trojan => TLS
    case Anytls => TLS
    case Tuic => TLS + {CongestionControl}
    case Socks => {RequireAuth}
    case OtherProtocol(_) => {}
  }

  lemma {:induction false} SecurityTouches(s: Fields, existing: Fields, m: Mint, k: Key)
    requires XhttpSecurity(s, existing, m).Ok? && k !in REALITY && k != Security && k != Sni
    ensures Same(s, XhttpSecurity(s, existing, m).value, k)
  {
    var s1 := Default(s, Security, Str("reality"));
    DefaultStage(s, Security, Str("reality"), k);
    if Text(Get(s1, Security)) == "reality" {
      RealityStage(s1, existing, m, k);
      Rewritten(RealityKeys(s1, existing, m).value, Sni, Str(m.sni), k);
    }
  }

  lemma {:induction false} XhttpTouches(s: Fields, existing: Fields, m: Mint, k: Key)
    requires FilledXhttp(s, existing, m).Ok? && k !in Touched(VlessXhttp)
    ensures Same(s, FilledXhttp(s, existing, m).value, k)
  {
    SecurityTouches(s, existing, m, k);
    XhttpEnds(XhttpSecurity(s, existing, m).value, k);
  }

  lemma {:induction false} Hysteria2Touches(s: Fields, existing: Fields, m: Mint, k: Key)
    requires FilledHysteria2(s, existing, m).Ok? && k !in Touched(Hysteria2)
    ensures Same(s, FilledHysteria2(s, existing, m).value, k)
  {
    var c := Carry(s, existing, ObfsPassword);
    assert Same(s, c, k);
    TlsStage(c, k);
    ObfsStage(TlsDefaults(c), m, k);
    SpeedStage(ObfsSettled(TlsDefaults(c), m).value, k);
  }

  lemma {:induction false} VlessTouches(s: Fields, existing: Fields, m: Mint, k: Key)
    requires FilledVless(s, existing, m).Ok? && k !in Touched(Vless)
    ensures Same(s, FilledVless(s, existing, m).value, k)
  {
    RealityStage(s, existing, m, k);
    VlessDefaultsStage(RealityKeys(s, existing, m).value, m, k);
  }

  lemma {:induction false} TlsTouches(s: Fields, k: Key)
    requires k !in TLS
    ensures Same(s, SniDefault(TlsDefaults(s)), k)
  {
    TlsStage(s, k);
  }

  lemma {:induction false} WsTouches(s: Fields, path: string, k: Key)
    requires k !in {WsPath, WsHost}
    ensures Same(s, FilledWs(s, path), k)
  {
    HostStage(Default(s, WsPath, Str(path)), WsHost, k);
  }

  lemma {:induction false} ShadowsocksTouches(s: Fields, existing: Fields, m: Mint, k: Key)
    requires FilledShadowsocks(s, existing, m).Ok? && k !in Touched(Shadowsocks)
    ensures Same(s, FilledShadowsocks(s, existing, m).value, k)
  {
    var c := Carry(s, existing, Password);
    assert Same(s, c, k);
    DefaultStage(c, Method, Str("2022-blake3-aes-128-gcm"), k);
    var s1 := Default(c, Method, Str("2022-blake3-aes-128-gcm"));
    assert Same(s1, FilledShadowsocks(s, existing, m).value, k);
  }

  lemma {:induction false} PlainTouches(typ: Protocol, s: Fields, existing: Fields, m: Mint, k: Key)
    requires !(typ.Vless? || typ.VlessXhttp? || typ.Shadowsocks? || typ.Hysteria2?) && k !in Touched(typ)
    ensures Autofilled(typ, s, existing, m).Ok?
    ensures Same(s, Autofilled(typ, s, existing, m).value, k)
  {
    if typ.VlessWs? {
      WsTouches(Carry(s, existing, RealityPublicKey), "/vless", k);
    } else if typ.Vmess? || typ.VmessWs? {
      WsTouches(s, "/vmess", k);
    } else if typ.Trojan? || typ.Anytls? || typ.Tuic? {
      TlsTouches(s, k);
    }
  }

  /** Autofill leaves every other key alone, present or absent. */
  lemma {:induction false} AutofillTouchesOnly(typ: Protocol, s: Fields, existing: Fields, m: Mint, k: Key)
    requires Autofilled(typ, s, existing, m).Ok? && k !in Touched(typ)
    ensures Same(s, Autofilled(typ, s, existing, m).value, k)
  {
    match typ {
      case Vless => VlessTouches(s, existing, m, k);
      case VlessXhttp => XhttpTouches(s, existing, m, k);
      case Shadowsocks => ShadowsocksTouches(s, existing, m, k);
      case Hysteria2 => Hysteria2Touches(s, existing, m, k);
      case _ => PlainTouches(typ, s, existing, m, k);
    }
  }

  // ---- Defaults ----

  /** What stands for a missing value; None for keys with no fixed default. */
  function Fallback(typ: Protocol, k: Key, reality: bool, m: Mint): Option<Value> {
    match k
    case Sni =>
      if typ.Vless? || (typ.VlessXhttp? && reality) then Some(Str(m.sni))
      else if typ.Hysteria2? || typ.Trojan? || typ.Tuic? || typ.Anytls? then Some(Str("www.bing.com"))
      else None
    case ServerPortTarget => if typ.Vless? then Some(Num(443.0)) else None
    case Flow => if typ.Vless? then Some(Str("xtls-rprx-vision")) else None
    case Security => if typ.VlessXhttp? then Some(Str("reality")) else None
    case XhttpPath => if typ.VlessXhttp? then Some(Str("/xhttp")) else None
    case WsPath => if typ.VlessWs? then Some(Str("/vless")) else if typ.Vmess? || typ.VmessWs? then Some(Str("/vmess")) else None
    case Method => if typ.Shadowsocks? then Some(Str("2022-blake3-aes-128-gcm")) else None
    case UpMbps => if typ.Hysteria2? then Some(Num(100.0)) else None
    case DownMbps => if typ.Hysteria2? then Some(Num(500.0)) else None
    case CongestionControl => if typ.Tuic? then Some(Str("bbr")) else None
    case TlsCertPath =>
      if typ.Hysteria2? || typ.Trojan? || typ.Tuic? || typ.Anytls? then Some(Str("/etc/edgenest/certs/wizard-fullchain.pem")) else None
    case TlsKeyPath =>
      if typ.Hysteria2? || typ.Trojan? || typ.Tuic? || typ.Anytls? then Some(Str("/etc/edgenest/certs/wizard-privkey.pem")) else None
    case _ => None
  }

  /** r holds at k what s held if that was meaningful, and the default otherwise. */
  predicate Written(s: Fields, r: Fields, k: Key, fallback: Value) {
    Get(r, k) == if Full(s, k) then s[k] else fallback
  }

  lemma {:induction false} VlessWrites(s: Fields, existing: Fields, m: Mint)
    requires FilledVless(s, existing, m).Ok?
    ensures var r := FilledVless(s, existing, m).value;
            && Written(s, r, Sni, Str(m.sni)) && Written(s, r, ServerPortTarget, Num(443.0))
            && Written(s, r, Flow, Str("xtls-rprx-vision"))
  {
    RealityStage(s, existing, m, Sni);
    RealityStage(s, existing, m, ServerPortTarget);
    RealityStage(s, existing, m, Flow);
  }

  lemma {:induction false} XhttpWrites(s: Fields, existing: Fields, m: Mint)
    requires FilledXhttp(s, existing, m).Ok?
    ensures var r := FilledXhttp(s, existing, m).value;
            && Written(s, r, Security, Str("reality")) && Written(s, r, XhttpPath, Str("/xhttp"))
            && (Text(Get(r, Security)) == "reality" ==> Written(s, r, Sni, Str(m.sni)))
  {
    var s1 := Default(s, Security, Str("reality"));
    if Text(Get(s1, Security)) == "reality" {
      RealityStage(s1, existing, m, Sni);
      RealityStage(s1, existing, m, XhttpPath);
      RealityStage(s1, existing, m, Security);
    }
    var s2 := XhttpSecurity(s, existing, m).value;
    assert Get(s2, XhttpPath) == Get(s, XhttpPath) && Get(s2, Security) == Get(s1, Security);
    XhttpEnds(s2, Security);
    XhttpEnds(s2, Sni);
  }

  lemma {:induction false} TlsWrites(s: Fields)
    ensures var r := SniDefault(TlsDefaults(s));
            && Written(s, r, TlsCertPath, Str("/etc/edgenest/certs/wizard-fullchain.pem"))
            && Written(s, r, TlsKeyPath, Str("/etc/edgenest/certs/wizard-privkey.pem"))
            && Written(s, r, Sni, Str("www.bing.com"))
  {
  }

  lemma {:induction false} SpeedWrites(s: Fields)
    ensures var r := SniDefault(SpeedDefaults(s));
            Written(s, r, UpMbps, Num(100.0)) && Written(s, r, DownMbps, Num(500.0)) && Written(s, r, Sni, Str("www.bing.com"))
  {
  }

  /** Up to the obfuscation, and past it. */
  lemma {:induction false} Hysteria2Between(s: Fields, existing: Fields, m: Mint, k: Key)
    requires FilledHysteria2(s, existing, m).Ok? && k !in {Obfs, ObfsPassword}
    ensures var u := ObfsSettled(TlsDefaults(Carry(s, existing, ObfsPassword)), m).value;
            && FilledHysteria2(s, existing, m).value == SniDefault(SpeedDefaults(u))
            && Same(TlsDefaults(Carry(s, existing, ObfsPassword)), u, k)
            && (k !in {TlsCertPath, TlsKeyPath, SelfSigned} ==> Same(s, u, k))
  {
    var c := Carry(s, existing, ObfsPassword);
    assert Same(s, c, k);
    TlsStage(c, k);
    ObfsStage(TlsDefaults(c), m, k);
  }

  lemma {:induction false} Hysteria2Paths(s: Fields, existing: Fields, m: Mint, k: Key)
    requires FilledHysteria2(s, existing, m).Ok? && k in {TlsCertPath, TlsKeyPath}
    ensures Written(s, FilledHysteria2(s, existing, m).value, k, if k == TlsCertPath then WIZARD_CERT else WIZARD_KEY)
  {
    var c := Carry(s, existing, ObfsPassword);
    assert Same(s, c, k);
    TlsWrites(c);
    Hysteria2Between(s, existing, m, k);
    SpeedStage(ObfsSettled(TlsDefaults(c), m).value, k);
  }

  lemma {:induction false} Hysteria2Speeds(s: Fields, existing: Fields, m: Mint)
    requires FilledHysteria2(s, existing, m).Ok?
    ensures var r := FilledHysteria2(s, existing, m).value;
            Written(s, r, UpMbps, Num(100.0)) && Written(s, r, DownMbps, Num(500.0)) && Written(s, r, Sni, Str("www.bing.com"))
  {
    Hysteria2Between(s, existing, m, UpMbps);
    Hysteria2Between(s, existing, m, DownMbps);
    Hysteria2Between(s, existing, m, Sni);
    SpeedWrites(ObfsSettled(TlsDefaults(Carry(s, existing, ObfsPassword)), m).value);
  }

  lemma {:induction false} Hysteria2Writes(s: Fields, existing: Fields, m: Mint, k: Key)
    requires FilledHysteria2(s, existing, m).Ok?
    requires Fallback(Hysteria2, k, false, m).Some?
    ensures Written(s, FilledHysteria2(s, existing, m).value, k, Fallback(Hysteria2, k, false, m).value)
  {
    if k in {TlsCertPath, TlsKeyPath} {
      Hysteria2Paths(s, existing, m, k);
    } else {
      Hysteria2Speeds(s, existing, m);
    }
  }

  lemma {:induction false} TlsKeysWritten(s: Fields, k: Key, m: Mint)
    requires Fallback(Trojan, k, false, m).Some?
    ensures Written(s, SniDefault(TlsDefaults(s)), k, Fallback(Trojan, k, false, m).value)
  {
    TlsWrites(s);
  }

  lemma {:induction false} TuicWrites(s: Fields, k: Key, m: Mint)
    requires Fallback(Tuic, k, false, m).Some?
    ensures Written(s, FilledTuic(s), k, Fallback(Tuic, k, false, m).value)
  {
    if k == CongestionControl {
      TlsTouches(s, k);
    } else {
      TlsKeysWritten(s, k, m);
    }
  }

  lemma {:induction false} WsWrites(s: Fields, path: string)
    ensures Written(s, FilledWs(s, path), WsPath, Str(path))
  {
    HostStage(Default(s, WsPath, Str(path)), WsHost, WsPath);
  }

  lemma {:induction false} MethodWritten(s: Fields, existing: Fields, m: Mint)
    requires FilledShadowsocks(s, existing, m).Ok?
    ensures Written(s, FilledShadowsocks(s, existing, m).value, Method, Str("2022-blake3-aes-128-gcm"))
  {
  }

  lemma {:induction false} VlessKeysWritten(s: Fields, existing: Fields, m: Mint, k: Key, reality: bool)
    requires FilledVless(s, existing, m).Ok? && Fallback(Vless, k, reality, m).Some?
    ensures Written(s, FilledVless(s, existing, m).value, k, Fallback(Vless, k, reality, m).value)
  {
    VlessWrites(s, existing, m);
  }

  lemma {:induction false} XhttpKeysWritten(s: Fields, existing: Fields, m: Mint, k: Key, reality: bool)
    requires FilledXhttp(s, existing, m).Ok? && reality == (Text(Get(FilledXhttp(s, existing, m).value, Security)) == "reality")
    requires Fallback(VlessXhttp, k, reality, m).Some?
    ensures Written(s, FilledXhttp(s, existing, m).value, k, Fallback(VlessXhttp, k, reality, m).value)
  {
    XhttpWrites(s, existing, m);
  }

  lemma {:induction false} RealityMatters(typ: Protocol, k: Key, reality: bool, m: Mint)
    requires !typ.VlessXhttp?
    ensures Fallback(typ, k, reality, m) == Fallback(typ, k, false, m)
  {
  }

  lemma {:induction false} PlainWrites(typ: Protocol, s: Fields, existing: Fields, m: Mint, k: Key)
    requires !(typ.Vless? || typ.VlessXhttp? || typ.Shadowsocks? || typ.Hysteria2?) && Fallback(typ, k, false, m).Some?
    ensures Autofilled(typ, s, existing, m).Ok?
    ensures Written(s, Autofilled(typ, s, existing, m).value, k, Fallback(typ, k, false, m).value)
  {
    if typ.VlessWs? {
      WsWrites(Carry(s, existing, RealityPublicKey), "/vless");
    } else if typ.Vmess? || typ.VmessWs? {
      WsWrites(s, "/vmess");
    } else if typ.Trojan? || typ.Anytls? {
      TlsKeysWritten(s, k, m);
    } else if typ.Tuic? {
      TuicWrites(s, k, m);
    }
  }

  /** Every default autofill knows is written exactly where nothing meaningful stands. */
  lemma {:induction false} DefaultsAreWritten(typ: Protocol, s: Fields, existing: Fields, m: Mint, k: Key)
    requires Autofilled(typ, s, existing, m).Ok?
    requires Fallback(typ, k, Text(Get(Autofilled(typ, s, existing, m).value, Security)) == "reality", m).Some?
    ensures var r := Autofilled(typ, s, existing, m).value;
            Written(s, r, k, Fallback(typ, k, Text(Get(r, Security)) == "reality", m).value)
  {
    var reality := Text(Get(Autofilled(typ, s, existing, m).value, Security)) == "reality";
    if !typ.VlessXhttp? {
      RealityMatters(typ, k, reality, m);
    }
    match typ {
      case Vless => VlessKeysWritten(s, existing, m, k, reality);
      case VlessXhttp => XhttpKeysWritten(s, existing, m, k, reality);
      case Shadowsocks => MethodWritten(s, existing, m);
      case Hysteria2 => Hysteria2Writes(s, existing, m, k);
      case _ => PlainWrites(typ, s, existing, m, k);
    }
  }

  predicate UsesTls(typ: Protocol) {
    typ.Hysteria2? || typ.Trojan? || typ.Tuic? || typ.Anytls?
  }

  /** The listener is marked as self-signed exactly when one of its two paths had to be filled
      in and it bore neither mark; whether the panel renews the certificate is never touched. */
  lemma {:induction false} SelfSignedExactly(typ: Protocol, s: Fields, existing: Fields, m: Mint)
    requires UsesTls(typ) && Autofilled(typ, s, existing, m).Ok?
    ensures var r := Autofilled(typ, s, existing, m).value;
            && Get(r, AcmeManaged) == Get(s, AcmeManaged)
            && Get(r, SelfSigned)
               == if (!Full(s, TlsCertPath) || !Full(s, TlsKeyPath)) && !Full(s, SelfSigned) && !Full(s, AcmeManaged)
                  then Str("true") else Get(s, SelfSigned)
  {
    AutofillTouchesOnly(typ, s, existing, m, AcmeManaged);
    var c := if typ.Hysteria2? then Carry(s, existing, ObfsPassword) else s;
    MarkedExactly(c);
    if typ.Hysteria2? {
      Hysteria2Between(s, existing, m, SelfSigned);
      SpeedStage(ObfsSettled(TlsDefaults(c), m).value, SelfSigned);
    }
  }

  lemma {:induction false} MarkedExactly(s: Fields)
    ensures Get(TlsDefaults(s), SelfSigned)
         == if (!Full(s, TlsCertPath) || !Full(s, TlsKeyPath)) && !Full(s, SelfSigned) && !Full(s, AcmeManaged)
            then Str("true") else Get(s, SelfSigned)
  {
    var s1 := Default(Default(s, TlsCertPath, WIZARD_CERT), TlsKeyPath, WIZARD_KEY);
    if !Full(s, TlsCertPath) {
      assert Get(s1, TlsCertPath) != Get(s, TlsCertPath);
    }
    if !Full(s, TlsKeyPath) {
      assert Get(s1, TlsKeyPath) != Get(s, TlsKeyPath);
    }
  }

  /** The host header follows the disguise name unless it was given. */
  lemma {:induction false} HostFollowsSni(typ: Protocol, s: Fields, existing: Fields, m: Mint)
    requires typ.VlessXhttp? || typ.VlessWs? || typ.Vmess? || typ.VmessWs?
    requires Autofilled(typ, s, existing, m).Ok?
    ensures var (r, host) := (Autofilled(typ, s, existing, m).value, if typ.VlessXhttp? then XhttpHost else WsHost);
            Get(r, host) == if Full(s, host) || Text(Get(r, Sni)) == "" then Get(s, host) else Str(Text(Get(r, Sni)))
  {
    if typ.VlessXhttp? {
      var s1 := Default(s, Security, Str("reality"));
      if Text(Get(s1, Security)) == "reality" {
        RealityStage(s1, existing, m, XhttpHost);
      }
      assert Get(XhttpSecurity(s, existing, m).value, XhttpHost) == Get(s, XhttpHost);
    }
  }

  // ---- Generated material ----

  /** What stands at k, then what was stored there, then the newly drawn value. */
  function Drawn(s: Fields, existing: Fields, k: Key, drawn: Value): Value {
    if Full(s, k) then s[k] else if Full(existing, k) then existing[k] else drawn
  }

  /** A listener with Reality has the private key that was given, else the stored one, and
      with it the public key that was given or stored; or both halves of one newly drawn
      pair. */
  ghost predicate WholePair(s: Fields, existing: Fields, m: Mint, r: Fields) {
    if Full(s, RealityPrivateKey) || Full(existing, RealityPrivateKey) then
      && Get(r, RealityPrivateKey) == Drawn(s, existing, RealityPrivateKey, Null)
      && Get(r, RealityPublicKey) == Drawn(s, existing, RealityPublicKey, Get(s, RealityPublicKey))
    else
      && m.keypair.Some?
      && Get(r, RealityPrivateKey) == Str(m.keypair.value.0) && Get(r, RealityPublicKey) == Str(m.keypair.value.1)
  }

  ghost predicate OwnIds(s: Fields, existing: Fields, m: Mint, r: Fields) {
    if Full(s, ShortIds) || Full(existing, ShortIds) then Get(r, ShortIds) == Drawn(s, existing, ShortIds, Null)
    else m.shortId.Some? && Get(r, ShortIds) == List([Str(m.shortId.value)])
  }

  lemma {:induction false} CarriedAt(s: Fields, existing: Fields, k: Key)
    requires k in REALITY
    ensures Get(RealityCarried(s, existing), k) == Drawn(s, existing, k, Get(s, k))
    ensures Full(RealityCarried(s, existing), k) <==> Full(s, k) || Full(existing, k)
  {
  }

  lemma {:induction false} KeysAreWhole(s: Fields, existing: Fields, m: Mint)
    requires RealityKeys(s, existing, m).Ok?
    ensures var r := RealityKeys(s, existing, m).value;
            WholePair(s, existing, m, r) && OwnIds(s, existing, m, r)
  {
    CarriedAt(s, existing, RealityPrivateKey);
    CarriedAt(s, existing, RealityPublicKey);
    CarriedAt(s, existing, ShortIds);
  }

  /** Reality listeners get a whole key pair. */
  lemma {:induction false} RealityIsWhole(typ: Protocol, s: Fields, existing: Fields, m: Mint)
    requires typ.Vless? || typ.VlessXhttp?
    requires Autofilled(typ, s, existing, m).Ok?
    requires typ.VlessXhttp? ==> Text(Get(Autofilled(typ, s, existing, m).value, Security)) == "reality"
    ensures var r := Autofilled(typ, s, existing, m).value;
            WholePair(s, existing, m, r) && OwnIds(s, existing, m, r)
  {
    if typ.Vless? {
      KeysAreWhole(s, existing, m);
    } else {
      XhttpIsWhole(s, existing, m);
    }
  }

  lemma {:induction false} XhttpIsWhole(s: Fields, existing: Fields, m: Mint)
    requires FilledXhttp(s, existing, m).Ok? && Text(Get(FilledXhttp(s, existing, m).value, Security)) == "reality"
    ensures var r := FilledXhttp(s, existing, m).value;
            WholePair(s, existing, m, r) && OwnIds(s, existing, m, r)
  {
    var s1 := Default(s, Security, Str("reality"));
    var s2 := XhttpSecurity(s, existing, m).value;
    XhttpEnds(s2, Security);
    if Text(Get(s1, Security)) == "reality" {
      KeysAreWhole(s1, existing, m);
    }
    XhttpEnds(s2, RealityPrivateKey);
    XhttpEnds(s2, RealityPublicKey);
    XhttpEnds(s2, ShortIds);
  }

  /** A shadowsocks key is as long as the cipher the listener ends up with asks for. */
  lemma {:induction false} KeyFitsCipher(s: Fields, existing: Fields, m: Mint)
    requires Autofilled(Shadowsocks, s, existing, m).Ok?
    ensures var r := Autofilled(Shadowsocks, s, existing, m).value;
            var long := Get(r, Method) in {Str("2022-blake3-aes-256-gcm"), Str("2022-blake3-chacha20-poly1305")};
            if Full(s, Password) || Full(existing, Password) then Get(r, Password) == Drawn(s, existing, Password, Null)
            else if long then m.psk32.Some? && Get(r, Password) == Str(m.psk32.value)
            else m.psk16.Some? && Get(r, Password) == Str(m.psk16.value)
  {
  }

  lemma {:induction false} ObfsPasswordCarried(s: Fields, existing: Fields)
    ensures var t := TlsDefaults(Carry(s, existing, ObfsPassword));
            && Get(t, ObfsPassword) == Drawn(s, existing, ObfsPassword, Get(s, ObfsPassword))
            && (Full(t, ObfsPassword) <==> Full(s, ObfsPassword) || Full(existing, ObfsPassword))
  {
    TlsStage(Carry(s, existing, ObfsPassword), ObfsPassword);
  }

  /** An obfuscated hysteria2 listener has the password given, else the stored one, else one
      newly drawn. */
  lemma {:induction false} ObfsPasswordIs(s: Fields, existing: Fields, m: Mint)
    requires FilledHysteria2(s, existing, m).Ok?
    ensures var r := FilledHysteria2(s, existing, m).value;
            Obfs in r ==>
              && r[Obfs] == Str("salamander")
              && if Full(s, ObfsPassword) || Full(existing, ObfsPassword)
                 then Get(r, ObfsPassword) == Drawn(s, existing, ObfsPassword, Null)
                 else m.obfs.Some? && Get(r, ObfsPassword) == Str(m.obfs.value)
  {
    var t := TlsDefaults(Carry(s, existing, ObfsPassword));
    ObfsPasswordCarried(s, existing);
    SettledObfsPassword(t, m);
    SpeedStage(ObfsSettled(t, m).value, Obfs);
    SpeedStage(ObfsSettled(t, m).value, ObfsPassword);
  }

  lemma {:induction false} SettledObfsPassword(s: Fields, m: Mint)
    requires ObfsSettled(s, m).Ok?
    ensures var r := ObfsSettled(s, m).value;
            Obfs in r ==>
              && r[Obfs] == Str("salamander")
              && if Full(s, ObfsPassword) then Get(r, ObfsPassword) == s[ObfsPassword]
                 else m.obfs.Some? && Get(r, ObfsPassword) == Str(m.obfs.value)
  {
  }

  // ---- When autofill fails ----

  /** The settings are to have k, and it neither stands nor is stored. */
  predicate Lacks(s: Fields, existing: Fields, k: Key) {
    !Full(s, k) && !Full(existing, k)
  }

  predicate LacksReality(s: Fields, existing: Fields, m: Mint) {
    (Lacks(s, existing, RealityPrivateKey) && m.keypair.None?) || (Lacks(s, existing, ShortIds) && m.shortId.None?)
  }

  function CipherOf(s: Fields): string {
    if Full(s, Method) then Text(s[Method]) else "2022-blake3-aes-128-gcm"
  }

  /** A listener is to be obfuscated: it is switched on, or a password is given, asked for, or
      stored. */
  predicate WantsObfs(s: Fields, existing: Fields) {
    || Get(s, Obfs) == Bool(true)
    || (Get(s, Obfs).Str? && Get(s, Obfs).s !in {"", "false", "off"})
    || IsPlaceholder(Get(s, ObfsPassword)) || Full(s, ObfsPassword) || Full(existing, ObfsPassword)
  }

  /** Autofill fails exactly when something has to be drawn anew and its generator fails. */
  lemma {:induction false} AutofillFailsExactly(typ: Protocol, s: Fields, existing: Fields, m: Mint)
    ensures Autofilled(typ, s, existing, m).Err?
       <==> match typ
            case Vless => LacksReality(s, existing, m)
            case VlessXhttp => (!Full(s, Security) || s[Security] == Str("reality")) && LacksReality(s, existing, m)
            case Shadowsocks => Lacks(s, existing, Password) && m.Psk(CipherOf(s)).None?
            case Hysteria2 => WantsObfs(s, existing) && Lacks(s, existing, ObfsPassword) && m.obfs.None?
            case _ => false
  {
    match typ {
      case Vless => KeysFailExactly(s, existing, m);
      case VlessXhttp => XhttpFailsExactly(s, existing, m);
      case Shadowsocks => ShadowsocksFailsExactly(s, existing, m);
      case Hysteria2 => ObfsFailsExactly(s, existing, m);
      case _ =>
    }
  }

  lemma {:induction false} KeysFailExactly(s: Fields, existing: Fields, m: Mint)
    ensures RealityKeys(s, existing, m).Err? <==> LacksReality(s, existing, m)
  {
    CarriedAt(s, existing, RealityPrivateKey);
    CarriedAt(s, existing, ShortIds);
  }

  lemma {:induction false} XhttpFailsExactly(s: Fields, existing: Fields, m: Mint)
    ensures FilledXhttp(s, existing, m).Err?
       <==> (!Full(s, Security) || s[Security] == Str("reality")) && LacksReality(s, existing, m)
  {
    var s1 := Default(s, Security, Str("reality"));
    KeysFailExactly(s1, existing, m);
    DefaultStage(s, Security, Str("reality"), RealityPrivateKey);
    DefaultStage(s, Security, Str("reality"), ShortIds);
  }

  lemma {:induction false} ShadowsocksFailsExactly(s: Fields, existing: Fields, m: Mint)
    ensures FilledShadowsocks(s, existing, m).Err? <==> Lacks(s, existing, Password) && m.Psk(CipherOf(s)).None?
  {
    CarryStage(s, existing, Password, Method);
  }

  lemma {:induction false} ObfsFailsExactly(s: Fields, existing: Fields, m: Mint)
    ensures FilledHysteria2(s, existing, m).Err? <==> WantsObfs(s, existing) && Lacks(s, existing, ObfsPassword) && m.obfs.None?
  {
    var c := Carry(s, existing, ObfsPassword);
    ObfsPasswordCarried(s, existing);
    TlsStage(c, Obfs);
    TlsStage(c, ObfsPassword);
  }

  // ---- What the form reaches ----

  /** The form offers a binding exactly where a gate lets the protocol through with it, and a
      switch for certificate renewal only where there is a certificate. */
  lemma {:induction false} FormFitsGates(typ: Protocol)
    requires !typ.OtherProtocol?
    ensures ArgoBound in FormFields(typ) <==> InboundGates.CdnFrontable(typ)
    ensures CdnMode in FormFields(typ) <==> InboundGates.CdnFrontable(typ)
    ensures EdgeBound in FormFields(typ) <==> InboundGates.EdgeWs(typ)
    ensures AcmeManaged in FormFields(typ) ==> UsesTls(typ)
  {
  }

  /** The form reaches nothing secret or generated, no certificate path, and no parking mark. */
  lemma {:induction false} FormReachesNoMaterial(typ: Protocol, k: Key)
    requires k in FormFields(typ)
    ensures !k.RealityPrivateKey? && !k.RealityPublicKey? && !k.ShortIds? && !k.Password? && !k.ObfsPassword?
    ensures !k.TlsCertPath? && !k.TlsKeyPath? && !k.SelfSigned? && !k.ArgoStandby? && !k.CertDomain?
  {
  }
}
