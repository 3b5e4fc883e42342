/** The laws the settings form relies on: autofill is done after one pass, the
    form's view can be written back, edits read back, secrets stay. */
module SettingsLaws {
  import opened Common
  import opened Settings

  predicate Full(s: Fields, k: Key) {
    Meaningful(Get(s, k))
  }

  predicate HostSettled(s: Fields, k: Key) {
    Full(s, k) || Text(Get(s, Sni)) == "" || Get(s, k) == Str(Text(Get(s, Sni)))
  }

  predicate SettledVless(s: Fields) {
    Full(s, RealityPrivateKey) && Full(s, ShortIds) && Full(s, Sni) && Full(s, ServerPortTarget) && Full(s, Flow)
  }

  predicate SettledXhttp(s: Fields) {
    && Full(s, Security) && Full(s, XhttpPath) && HostSettled(s, XhttpHost)
    && (Text(Get(s, Security)) == "reality" ==> Full(s, RealityPrivateKey) && Full(s, ShortIds) && Full(s, Sni))
  }

  predicate SettledWs(s: Fields) {
    Full(s, WsPath) && HostSettled(s, WsHost)
  }

  predicate SettledTls(s: Fields) {
    Full(s, TlsCertPath) && Full(s, TlsKeyPath) && Full(s, Sni)
  }

  predicate SettledObfs(s: Fields) {
    if ObfsOn(s) then Get(s, Obfs) == Str("salamander") && Full(s, ObfsPassword)
    else Obfs !in s && ObfsPassword !in s
  }

  predicate SettledHysteria2(s: Fields) {
    SettledTls(s) && Full(s, UpMbps) && Full(s, DownMbps) && SettledObfs(s)
  }

  /** Nothing is left for autofill to do. */
  predicate Settled(typ: Protocol, s: Fields) {
    match typ
    case Vless => SettledVless(s)
    case VlessXhttp => SettledXhttp(s)
    case VlessWs => SettledWs(s)
    case Vmess => SettledWs(s)
    case VmessWs => SettledWs(s)
    case Shadowsocks => Full(s, Method) && Full(s, Password)
    case Hysteria2 => SettledHysteria2(s)
    case Trojan => SettledTls(s)
    case Anytls => SettledTls(s)
    case Tuic => SettledTls(s) && Full(s, CongestionControl)
    case Socks => RequireAuth in s
    case OtherProtocol(_) => true
  }

  // ---- Each stage: it fills its own keys and leaves every other one alone ----

  /** r has the same value at k as s, and k is present in both or in neither. */
  predicate Same(s: Fields, r: Fields, k: Key) {
    Get(s, k) == Get(r, k) && (k in s <==> k in r)
  }

  /** k holds something meaningful that no fresh Reality pair will replace. */
  predicate Stands(s: Fields, k: Key) {
    Full(s, k) && (k == RealityPublicKey ==> Full(s, RealityPrivateKey))
  }

  lemma {:induction false} Rewritten(s: Fields, d: Key, v: Value, k: Key)
    ensures Get(s[d := v], d) == v
    ensures k != d ==> Get(s, k) == Get(s[d := v], k) && (k in s <==> k in s[d := v])
  {
  }

  lemma {:induction false} MintedIds(m: Mint)
    requires m.Usable() && m.shortId.Some?
    ensures Meaningful(List([Str(m.shortId.value)]))
  {
  }

  lemma {:induction false} CarriedReality(s: Fields, existing: Fields, k: Key)
    ensures var r := RealityCarried(s, existing);
            && (Full(s, k) || k !in {RealityPrivateKey, RealityPublicKey, ShortIds} ==> Same(s, r, k))
            && (!Full(s, RealityPrivateKey) && Full(existing, RealityPrivateKey)
                ==> Get(r, RealityPrivateKey) == existing[RealityPrivateKey])
  {
  }

  lemma {:induction false} RealityStage(s: Fields, existing: Fields, m: Mint, k: Key)
    requires RealityKeys(s, existing, m).Ok?
    ensures var r := RealityKeys(s, existing, m).value;
            && (m.Usable() ==> Full(r, RealityPrivateKey) && Full(r, ShortIds))
            && (Stands(s, k) ==> Same(s, r, k))
            && (k !in {RealityPrivateKey, RealityPublicKey, ShortIds} ==> Same(s, r, k))
            && (!Full(s, RealityPrivateKey) && Full(existing, RealityPrivateKey)
                ==> Get(r, RealityPrivateKey) == existing[RealityPrivateKey])
  {
    CarriedReality(s, existing, k);
    CarriedReality(s, existing, RealityPrivateKey);
    MintedReality(RealityCarried(s, existing), m, k);
    MintedReality(RealityCarried(s, existing), m, RealityPrivateKey);
  }

  lemma {:induction false} MintedReality(s: Fields, m: Mint, k: Key)
    requires RealityMinted(s, m).Ok?
    ensures var r := RealityMinted(s, m).value;
            && (m.Usable() ==> Full(r, RealityPrivateKey) && Full(r, ShortIds))
            && (Stands(s, k) ==> Same(s, r, k))
            && (k !in {RealityPrivateKey, RealityPublicKey, ShortIds} ==> Same(s, r, k))
  {
    if m.Usable() && m.shortId.Some? {
      MintedIds(m);
    }
  }

  lemma {:induction false} TlsStage(s: Fields, k: Key)
    ensures var r := TlsDefaults(s);
            && Full(r, TlsCertPath) && Full(r, TlsKeyPath)
            && (Full(s, k) || k !in {TlsCertPath, TlsKeyPath, SelfSigned} ==> Same(s, r, k))
  {
  }

  lemma {:induction false} ObfsStage(s: Fields, m: Mint, k: Key)
    requires ObfsSettled(s, m).Ok?
    ensures var r := ObfsSettled(s, m).value;
            && (m.Usable() ==> SettledObfs(r))
            && (ObfsOn(s) ==> Get(r, Obfs) == Str("salamander"))
            && (!ObfsOn(s) ==> Obfs !in r && ObfsPassword !in r)
            && (k !in {Obfs, ObfsPassword} || (k == ObfsPassword && Full(s, k)) ==> Same(s, r, k))
  {
  }

  lemma {:induction false} DefaultStage(s: Fields, d: Key, v: Value, k: Key)
    requires Meaningful(v)
    ensures Full(Default(s, d, v), d)
    ensures Full(s, k) || k != d ==> Same(s, Default(s, d, v), k)
  {
    if !Full(s, d) {
      Rewritten(s, d, v, k);
    }
  }

  lemma {:induction false} HostStage(s: Fields, host: Key, k: Key)
    requires host != Sni
    ensures HostSettled(HostFromSni(s, host), host)
    ensures Full(s, k) || k != host ==> Same(s, HostFromSni(s, host), k)
  {
    if !Full(s, host) && Text(Get(s, Sni)) != "" {
      var v := Str(Text(Get(s, Sni)));
      Rewritten(s, host, v, k);
      Rewritten(s, host, v, Sni);
    }
  }

  // ---- Each protocol: what it fills is settled, what was meaningful stays ----

  lemma {:induction false} VlessDefaultsStage(s: Fields, m: Mint, k: Key)
    ensures var r := VlessDefaults(s, m);
            && (m.Usable() ==> Full(r, Sni)) && Full(r, ServerPortTarget) && Full(r, Flow)
            && (Full(s, k) || k !in {Sni, ServerPortTarget, Flow} ==> Same(s, r, k))
  {
  }

  lemma {:induction false} VlessFills(s: Fields, existing: Fields, m: Mint, k: Key)
    requires FilledVless(s, existing, m).Ok?
    ensures var r := FilledVless(s, existing, m).value;
            && (m.Usable() ==> SettledVless(r))
            && (Stands(s, k) ==> Same(s, r, k))
  {
    RealityStage(s, existing, m, k);
    var s1 := RealityKeys(s, existing, m).value;
    VlessDefaultsStage(s1, m, k);
    VlessDefaultsStage(s1, m, RealityPrivateKey);
    VlessDefaultsStage(s1, m, ShortIds);
  }

  lemma {:induction false} SecurityKeeps(s: Fields, existing: Fields, m: Mint, k: Key)
    requires XhttpSecurity(s, existing, m).Ok? && Stands(s, k)
    ensures Same(s, XhttpSecurity(s, existing, m).value, k)
  {
    var s1 := Default(s, Security, Str("reality"));
    DefaultStage(s, Security, Str("reality"), k);
    DefaultStage(s, Security, Str("reality"), RealityPrivateKey);
    if Text(Get(s1, Security)) == "reality" {
      RealityStage(s1, existing, m, k);
    }
  }

  lemma {:induction false} SecuritySettles(s: Fields, existing: Fields, m: Mint)
    requires XhttpSecurity(s, existing, m).Ok? && m.Usable()
    ensures var r := XhttpSecurity(s, existing, m).value;
            && Full(r, Security)
            && (Text(Get(r, Security)) == "reality" ==> Full(r, RealityPrivateKey) && Full(r, ShortIds) && Full(r, Sni))
  {
    var s1 := Default(s, Security, Str("reality"));
    DefaultStage(s, Security, Str("reality"), Security);
    if Text(Get(s1, Security)) == "reality" {
      RealityStage(s1, existing, m, Security);
      SniStage(RealityKeys(s1, existing, m).value, m);
    }
  }

  lemma {:induction false} SniStage(s: Fields, m: Mint)
    requires m.Usable() && Full(s, RealityPrivateKey) && Full(s, ShortIds)
    ensures var r := Default(s, Sni, Str(m.sni));
            Full(r, RealityPrivateKey) && Full(r, ShortIds) && Full(r, Sni) && Get(r, Security) == Get(s, Security)
  {
  }

  lemma {:induction false} XhttpEnds(s: Fields, k: Key)
    ensures var r := HostFromSni(Default(s, XhttpPath, Str("/xhttp")), XhttpHost);
            && Full(r, XhttpPath) && HostSettled(r, XhttpHost)
            && (Full(s, k) || k !in {XhttpPath, XhttpHost} ==> Same(s, r, k))
  {
    var s1 := Default(s, XhttpPath, Str("/xhttp"));
    DefaultStage(s, XhttpPath, Str("/xhttp"), k);
    HostStage(s1, XhttpHost, k);
    HostStage(s1, XhttpHost, XhttpPath);
  }

  lemma {:induction false} XhttpFills(s: Fields, existing: Fields, m: Mint, k: Key)
    requires FilledXhttp(s, existing, m).Ok?
    ensures var r := FilledXhttp(s, existing, m).value;
            && (m.Usable() ==> SettledXhttp(r))
            && (Stands(s, k) ==> Same(s, r, k))
  {
    var s1 := XhttpSecurity(s, existing, m).value;
    if Stands(s, k) {
      SecurityKeeps(s, existing, m, k);
      XhttpEnds(s1, k);
    }
    if m.Usable() {
      SecuritySettles(s, existing, m);
      XhttpSettles(s1);
    }
  }

  lemma {:induction false} XhttpSettles(s: Fields)
    requires Full(s, Security)
    requires Text(Get(s, Security)) == "reality" ==> Full(s, RealityPrivateKey) && Full(s, ShortIds) && Full(s, Sni)
    ensures SettledXhttp(HostFromSni(Default(s, XhttpPath, Str("/xhttp")), XhttpHost))
  {
    XhttpEnds(s, Security);
    XhttpEnds(s, RealityPrivateKey);
    XhttpEnds(s, ShortIds);
    XhttpEnds(s, Sni);
  }

  lemma {:induction false} WsFills(s: Fields, path: string, k: Key)
    requires Meaningful(Str(path))
    ensures SettledWs(FilledWs(s, path))
    ensures Full(s, k) ==> Same(s, FilledWs(s, path), k)
  {
    DefaultStage(s, WsPath, Str(path), k);
    HostStage(Default(s, WsPath, Str(path)), WsHost, k);
    HostStage(Default(s, WsPath, Str(path)), WsHost, WsPath);
  }

  lemma {:induction false} ShadowsocksFills(s: Fields, existing: Fields, m: Mint, k: Key)
    requires FilledShadowsocks(s, existing, m).Ok?
    ensures var r := FilledShadowsocks(s, existing, m).value;
            && (m.Usable() ==> Full(r, Method) && Full(r, Password))
            && (Full(s, k) ==> Same(s, r, k))
            && (!Full(s, Password) && Full(existing, Password) ==> Get(r, Password) == existing[Password])
  {
    DefaultStage(Carry(s, existing, Password), Method, Str("2022-blake3-aes-128-gcm"), k);
  }

  lemma {:induction false} Hysteria2Stages(s: Fields, m: Mint, k: Key)
    requires ObfsSettled(TlsDefaults(s), m).Ok?
    ensures var r := ObfsSettled(TlsDefaults(s), m).value;
            && Full(r, TlsCertPath) && Full(r, TlsKeyPath)
            && (m.Usable() ==> SettledObfs(r))
            && (Full(s, k) && k != Obfs ==> Same(s, r, k))
            && ((Get(r, Obfs) == Str("salamander")) == ObfsOn(s)) && (!ObfsOn(s) ==> Obfs !in r)
  {
    var t := TlsDefaults(s);
    TlsStage(s, k);
    TlsStage(s, Obfs);
    TlsStage(s, ObfsPassword);
    ObfsStage(t, m, k);
    ObfsStage(t, m, TlsCertPath);
    ObfsStage(t, m, TlsKeyPath);
  }

  lemma {:induction false} SpeedStage(s: Fields, k: Key)
    ensures var r := SniDefault(SpeedDefaults(s));
            && Full(r, UpMbps) && Full(r, DownMbps) && Full(r, Sni)
            && (Full(s, k) || k !in {UpMbps, DownMbps, Sni} ==> Same(s, r, k))
  {
  }

  lemma {:induction false} SameObfs(s: Fields, r: Fields)
    requires Same(s, r, Obfs) && Same(s, r, ObfsPassword)
    ensures SettledObfs(s) == SettledObfs(r)
  {
  }

  lemma {:induction false} Hysteria2Carried(c: Fields, m: Mint, k: Key)
    requires ObfsSettled(TlsDefaults(c), m).Ok?
    ensures var r := SniDefault(SpeedDefaults(ObfsSettled(TlsDefaults(c), m).value));
            && (m.Usable() ==> SettledHysteria2(r))
            && (Full(c, k) && k != Obfs ==> Same(c, r, k))
            && ((Get(r, Obfs) == Str("salamander")) == ObfsOn(c)) && (!ObfsOn(c) ==> Obfs !in r)
  {
    Hysteria2Stages(c, m, k);
    Hysteria2Ends(ObfsSettled(TlsDefaults(c), m).value, k);
  }

  lemma {:induction false} CarryStage(s: Fields, existing: Fields, c: Key, k: Key)
    ensures Full(s, k) ==> Same(s, Carry(s, existing, c), k) && Full(Carry(s, existing, c), k)
    ensures !Full(s, c) && Full(existing, c) ==> Get(Carry(s, existing, c), c) == existing[c] && Full(Carry(s, existing, c), c)
  {
  }

  lemma {:induction false} Hysteria2Fills(s: Fields, existing: Fields, m: Mint, k: Key)
    requires FilledHysteria2(s, existing, m).Ok?
    ensures var r := FilledHysteria2(s, existing, m).value;
            var c := Carry(s, existing, ObfsPassword);
            && (m.Usable() ==> SettledHysteria2(r))
            && (Full(s, k) && k != Obfs ==> Same(s, r, k))
            && (!Full(s, ObfsPassword) && Full(existing, ObfsPassword) ==> Get(r, ObfsPassword) == existing[ObfsPassword])
            && ((Get(r, Obfs) == Str("salamander")) == ObfsOn(c)) && (!ObfsOn(c) ==> Obfs !in r)
  {
    var c := Carry(s, existing, ObfsPassword);
    CarryStage(s, existing, ObfsPassword, k);
    CarryStage(s, existing, ObfsPassword, ObfsPassword);
    Hysteria2Carried(c, m, k);
    Hysteria2Carried(c, m, ObfsPassword);
  }

  lemma {:induction false} Hysteria2Ends(u: Fields, k: Key)
    requires Full(u, TlsCertPath) && Full(u, TlsKeyPath)
    ensures var r := SniDefault(SpeedDefaults(u));
            && (SettledObfs(u) ==> SettledHysteria2(r))
            && Same(u, r, Obfs) && Same(u, r, ObfsPassword)
            && (Full(u, k) ==> Same(u, r, k))
  {
    SpeedStage(u, k);
    SpeedStage(u, Obfs);
    SpeedStage(u, ObfsPassword);
    SpeedStage(u, TlsCertPath);
    SpeedStage(u, TlsKeyPath);
    SameObfs(u, SniDefault(SpeedDefaults(u)));
  }

  lemma {:induction false} TlsFills(s: Fields, k: Key)
    ensures SettledTls(SniDefault(TlsDefaults(s)))
    ensures Full(s, k) ==> Same(s, SniDefault(TlsDefaults(s)), k)
  {
    TlsStage(s, k);
    DefaultStage(TlsDefaults(s), Sni, Str("www.bing.com"), k);
    DefaultStage(TlsDefaults(s), Sni, Str("www.bing.com"), TlsCertPath);
    DefaultStage(TlsDefaults(s), Sni, Str("www.bing.com"), TlsKeyPath);
  }

  lemma {:induction false} TuicFills(s: Fields, k: Key)
    ensures SettledTls(FilledTuic(s)) && Full(FilledTuic(s), CongestionControl)
    ensures Full(s, k) ==> Same(s, FilledTuic(s), k)
  {
    TlsFills(s, k);
  }

  /** What autofill returns is settled (with the generators working, every protocol
      ends up with the secrets and defaults it needs), and it never overwrites a
      meaningful value. The two exceptions: hysteria2 normalises obfs, and a freshly
      minted Reality pair brings its public half. */
  lemma {:induction false} AutofillFills(typ: Protocol, s: Fields, existing: Fields, m: Mint, k: Key)
    requires Autofilled(typ, s, existing, m).Ok?
    ensures var r := Autofilled(typ, s, existing, m).value;
            && (m.Usable() ==> Settled(typ, r))
            && (Full(s, k) && !(typ.Hysteria2? && k == Obfs)
                && (k == RealityPublicKey ==> Full(s, RealityPrivateKey) || !(typ.Vless? || typ.VlessXhttp?))
                ==> k in r && r[k] == s[k])
  {
    var r := Autofilled(typ, s, existing, m).value;
    match typ {
      case Vless => VlessFills(s, existing, m, k);
      case VlessXhttp => XhttpFills(s, existing, m, k);
      case Shadowsocks => ShadowsocksFills(s, existing, m, k);
      case Hysteria2 => Hysteria2Fills(s, existing, m, k);
      case _ => PlainFills(typ, s, existing, m, k);
    }
    if Full(s, k) && Same(s, r, k) {
      FullIsThere(s, r, k);
    }
  }

  lemma {:induction false} FullIsThere(s: Fields, r: Fields, k: Key)
    requires Full(s, k) && Same(s, r, k)
    ensures k in r && r[k] == s[k]
  {
  }

  /** The protocols that need no generator. */
  lemma {:induction false} PlainFills(typ: Protocol, s: Fields, existing: Fields, m: Mint, k: Key)
    requires !(typ.Vless? || typ.VlessXhttp? || typ.Shadowsocks? || typ.Hysteria2?)
    ensures Autofilled(typ, s, existing, m).Ok?
    ensures Settled(typ, Autofilled(typ, s, existing, m).value)
    ensures Full(s, k) ==> Same(s, Autofilled(typ, s, existing, m).value, k)
  {
    if typ.VlessWs? {
      CarryStage(s, existing, RealityPublicKey, k);
      WsFills(Carry(s, existing, RealityPublicKey), "/vless", k);
    } else if typ.Vmess? || typ.VmessWs? {
      WsFills(s, "/vmess", k);
    } else if typ.Trojan? || typ.Anytls? {
      TlsFills(s, k);
    } else if typ.Tuic? {
      TuicFills(s, k);
    }
  }

  lemma {:induction false} ObfsFixed(s: Fields, m: Mint)
    requires SettledObfs(s)
    ensures ObfsSettled(s, m) == Ok(s)
  {
    if ObfsOn(s) {
      assert s[Obfs := Str("salamander")] == s;
    } else {
      assert s - {Obfs, ObfsPassword} == s;
    }
  }

  lemma {:induction false} HostFixed(s: Fields, host: Key)
    requires HostSettled(s, host)
    ensures HostFromSni(s, host) == s
  {
    if Get(s, host) == Str(Text(Get(s, Sni))) && !Full(s, host) {
      assert s[host := Get(s, host)] == s;
    }
  }

  lemma {:induction false} RealityFixed(s: Fields, m: Mint)
    requires Full(s, RealityPrivateKey) && Full(s, ShortIds)
    ensures RealityKeys(s, s, m) == Ok(s)
  {
  }

  /** Settled settings need no generator: autofill returns them even if all fail. */
  lemma {:induction false} SettledIsFixed(typ: Protocol, s: Fields, m: Mint)
    requires Settled(typ, s)
    ensures Autofilled(typ, s, s, m) == Ok(s)
  {
    match typ {
      case Vless => RealityFixed(s, m);
      case VlessXhttp =>
        if Text(Get(s, Security)) == "reality" {
          RealityFixed(s, m);
        }
        assert XhttpSecurity(s, s, m) == Ok(s);
        HostFixed(s, XhttpHost);
      case VlessWs => HostFixed(s, WsHost);
      case Vmess => HostFixed(s, WsHost);
      case VmessWs => HostFixed(s, WsHost);
      case Hysteria2 =>
        TlsStage(s, Sni);
        ObfsFixed(s, m);
      case Trojan => TlsStage(s, Sni);
      case Anytls => TlsStage(s, Sni);
      case Tuic => TlsStage(s, Sni);
      case _ =>
    }
  }

  /** Running autofill again changes nothing and mints nothing, exactly for settled
      settings. */
  lemma {:induction false} SettledExactly(typ: Protocol, s: Fields, m: Mint)
    requires m.Usable()
    ensures Autofilled(typ, s, s, m) == Ok(s) <==> Settled(typ, s)
  {
    if Settled(typ, s) {
      SettledIsFixed(typ, s, m);
    } else if Autofilled(typ, s, s, m) == Ok(s) {
      AutofillFills(typ, s, s, m, Sni);
    }
  }

  // ---- The form ----

  lemma {:induction false} SwitchKeepsTls(s: Fields, v: Value)
    ensures TlsDefaults(s[Obfs := v]) == TlsDefaults(s)[Obfs := v]
  {
  }

  lemma {:induction false} SwitchKeepsObfs(b: Fields, v: Value, m: Mint)
    requires Obfs in b && v == AsSwitch(b[Obfs])
    ensures ObfsSettled(b[Obfs := v], m) == ObfsSettled(b, m)
  {
    var a := b[Obfs := v];
    assert ObfsOn(a) == ObfsOn(b);
    assert a[Obfs := Str("salamander")] == b[Obfs := Str("salamander")];
    assert a - {Obfs, ObfsPassword} == b - {Obfs, ObfsPassword};
  }

  lemma {:induction false} SwitchWritesBack(s: Fields, v: Value, m: Mint)
    requires Obfs in s && v == AsSwitch(s[Obfs])
    ensures FilledHysteria2(s[Obfs := v], s, m) == FilledHysteria2(s, s, m)
  {
    assert Carry(s[Obfs := v], s, ObfsPassword) == s[Obfs := v] && Carry(s, s, ObfsPassword) == s;
    SwitchKeepsTls(s, v);
    TlsStage(s, Obfs);
    SwitchKeepsObfs(TlsDefaults(s), v, m);
  }

  lemma {:induction false} ViewMerges(typ: Protocol, s: Fields)
    ensures Merged(typ, s, FormView(typ, s))
         == if typ.Hysteria2? && Obfs in s && s[Obfs] != Null then s[Obfs := AsSwitch(s[Obfs])] else s
  {
    if typ.OtherProtocol? {
      assert s + (s - SECRETS) == s;
    } else {
      var allowed := FormFields(typ);
      assert s + Chosen(Visible(s - SECRETS, allowed), allowed) == s;
    }
  }

  /** Writing the form's view back unchanged is the same as a bare autofill ... */
  lemma {:induction false} ViewWritesBack(typ: Protocol, s: Fields, m: Mint)
    ensures UpdatedSettings(typ, FormView(typ, s), s, m) == Autofilled(typ, s, s, m)
  {
    ViewMerges(typ, s);
    if typ.Hysteria2? && Obfs in s && s[Obfs] != Null {
      SwitchWritesBack(s, AsSwitch(s[Obfs]), m);
    }
  }

  /** ... so it leaves the row as it was exactly when the row is settled. */
  lemma {:induction false} UnchangedFormChangesNothing(typ: Protocol, s: Fields, m: Mint)
    requires m.Usable()
    ensures UpdatedSettings(typ, FormView(typ, s), s, m) == Ok(s) <==> Settled(typ, s)
  {
    ViewWritesBack(typ, s, m);
    SettledExactly(typ, s, m);
  }

  /** No form field is a secret. */
  lemma {:induction false} FormHasNoSecret(typ: Protocol, k: Key)
    requires k in FormFields(typ)
    ensures k !in SECRETS && k != RealityPublicKey
  {
  }

  lemma {:induction false} MergedAt(typ: Protocol, base: Fields, advanced: Fields, k: Key)
    requires !typ.OtherProtocol?
    ensures Get(Merged(typ, base, advanced), k)
         == if k in FormFields(typ) && Get(advanced, k) != Null then advanced[k] else Get(base, k)
  {
  }

  lemma {:induction false} ViewAt(typ: Protocol, s: Fields, k: Key)
    requires k in FormFields(typ) && k in s
    ensures k in FormView(typ, s)
    ensures FormView(typ, s)[k] == if typ.Hysteria2? && k == Obfs then AsSwitch(s[k]) else s[k]
  {
    FormHasNoSecret(typ, k);
    assert k in Visible(s - SECRETS, FormFields(typ));
  }

  /** A meaningful edit of a form field reads back as written. */
  lemma {:induction false} EditReadsBack(typ: Protocol, advanced: Fields, existing: Fields, m: Mint, k: Key)
    requires UpdatedSettings(typ, advanced, existing, m).Ok?
    requires k in FormFields(typ) && Full(advanced, k)
    requires !(typ.Hysteria2? && k == Obfs)
    ensures var view := FormView(typ, UpdatedSettings(typ, advanced, existing, m).value);
            k in view && view[k] == advanced[k]
  {
    FormHasNoSecret(typ, k);
    MergedAt(typ, existing, advanced, k);
    AutofillFills(typ, Merged(typ, existing, advanced), existing, m, k);
    ViewAt(typ, UpdatedSettings(typ, advanced, existing, m).value, k);
  }

  predicate ShowsObfs(s: Fields) {
    Get(FormView(Hysteria2, s), Obfs) == Bool(true)
  }

  lemma {:induction false} ShowsObfsExactly(r: Fields)
    requires Obfs !in r || r[Obfs] == Str("salamander")
    ensures ShowsObfs(r) <==> Obfs in r
  {
    if Obfs in r {
      ViewAt(Hysteria2, r, Obfs);
    }
  }

  lemma {:induction false} MergedObfsOn(on: bool, advanced: Fields, existing: Fields)
    requires Get(advanced, Obfs) == Bool(on)
    ensures ObfsOn(Carry(Merged(Hysteria2, existing, advanced), existing, ObfsPassword)) == (on || ObfsPasswordSet(existing))
  {
    MergedAt(Hysteria2, existing, advanced, Obfs);
    MergedAt(Hysteria2, existing, advanced, ObfsPassword);
  }

  /** The obfuscation switch reads back as set, except that it cannot be switched off
      while the row holds an obfuscation password. */
  lemma {:induction false} ObfsReadsBack(on: bool, advanced: Fields, existing: Fields, m: Mint)
    requires Get(advanced, Obfs) == Bool(on)
    requires UpdatedSettings(Hysteria2, advanced, existing, m).Ok?
    ensures ShowsObfs(UpdatedSettings(Hysteria2, advanced, existing, m).value) == on
       <==> on || !ObfsPasswordSet(existing)
  {
    var merged := Merged(Hysteria2, existing, advanced);
    MergedObfsOn(on, advanced, existing);
    Hysteria2Fills(merged, existing, m, Sni);
    ShowsObfsExactly(FilledHysteria2(merged, existing, m).value);
  }

  /** No edit through the form of a protocol the panel knows alters a stored secret. */
  lemma {:induction false} SecretsSurviveEdits(typ: Protocol, advanced: Fields, existing: Fields, m: Mint, k: Key)
    requires !typ.OtherProtocol?
    requires UpdatedSettings(typ, advanced, existing, m).Ok?
    requires k in SECRETS && Full(existing, k)
    ensures Get(UpdatedSettings(typ, advanced, existing, m).value, k) == existing[k]
  {
    if k in FormFields(typ) {
      FormHasNoSecret(typ, k);
    }
    MergedAt(typ, existing, advanced, k);
    AutofillFills(typ, Merged(typ, existing, advanced), existing, m, k);
  }

  /** A request that sends the settings without the scrubbed secret keeps it, too. */
  lemma {:induction false} SecretsAreCarried(typ: Protocol, s: Fields, existing: Fields, m: Mint, k: Key)
    requires match typ
             case Vless => k == RealityPrivateKey
             case VlessXhttp => k == RealityPrivateKey && Text(Get(Default(s, Security, Str("reality")), Security)) == "reality"
             case Shadowsocks => k == Password
             case Hysteria2 => k == ObfsPassword
             case _ => false
    requires !Full(s, k) && Full(existing, k)
    requires Autofilled(typ, s, existing, m).Ok?
    ensures Get(Autofilled(typ, s, existing, m).value, k) == existing[k]
  {
    match typ {
      case Vless => RealityStage(s, existing, m, Sni);
      case VlessXhttp =>
        var s1 := Default(s, Security, Str("reality"));
        RealityStage(s1, existing, m, Sni);
        var r := XhttpSecurity(s, existing, m).value;
        assert Get(r, RealityPrivateKey) == existing[RealityPrivateKey];
        DefaultStage(r, XhttpPath, Str("/xhttp"), RealityPrivateKey);
        HostStage(Default(r, XhttpPath, Str("/xhttp")), XhttpHost, RealityPrivateKey);
      case Shadowsocks => ShadowsocksFills(s, existing, m, k);
      case Hysteria2 => Hysteria2Fills(s, existing, m, k);
    }
  }

  /** The view holds no secret, and for known protocols nothing the form cannot set. */
  lemma {:induction false} ViewHidesSecrets(typ: Protocol, s: Fields, k: Key)
    requires k in FormView(typ, s)
    ensures k !in SECRETS && k in s
    ensures !typ.OtherProtocol? ==> k in FormFields(typ)
  {
  }

  /** A form submission cannot plant anything outside the protocol's fields: what is
      built depends on those alone, and planted secrets are not honoured. */
  lemma {:induction false} BuildIgnoresTheRest(typ: Protocol, advanced: Fields, other: Fields, m: Mint)
    requires !typ.OtherProtocol?
    requires forall k :: k in FormFields(typ) ==> Get(advanced, k) == Get(other, k)
    ensures BuiltSettings(typ, advanced, m) == BuiltSettings(typ, other, m)
  {
    forall k
      ensures k in Chosen(advanced, FormFields(typ)) <==> k in Chosen(other, FormFields(typ))
    {
    }
    assert Chosen(advanced, FormFields(typ)) == Chosen(other, FormFields(typ));
  }
}
