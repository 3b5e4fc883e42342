/** The address clients are sent to and the ports opened for it agree. */
module GatewayOrigin {
  import opened Common
  import opened Antiblock
  import opened Mirrors
  import opened Settings
  import Firewall
  import FirewallSync

  /** The origin is the domain over https on the port; 443 goes without saying. */
  predicate Names(origin: string, domain: string, port: nat) {
    origin == if port == 443 then HTTPS + domain else HTTPS + domain + ":" + Decimal(port)
  }

  lemma PrefixedDiffer(prefix: string, a: string, b: string)
    requires prefix + a == prefix + b
    ensures a == b
  {
    assert (prefix + a)[|prefix|..] == a && (prefix + b)[|prefix|..] == b;
  }

  lemma NamesOne(origin: string, domain: string, p: nat, q: nat)
    requires Names(origin, domain, p) && Names(origin, domain, q)
    ensures p == q
  {
    var base := HTTPS + domain;
    assert |base + ":" + Decimal(p)| > |base| && |base + ":" + Decimal(q)| > |base|;
    if p != 443 && q != 443 {
      PrefixedDiffer(base + ":", Decimal(p), Decimal(q));
      FirewallSync.DecimalIsInjective(p, q);
    }
  }

  /** With the built-in gateway on, exactly two sockets are opened for it: port 80, for the
      certificate, and the port its origin names. Otherwise none is, and an origin behind the
      operator's own proxy names 443 whatever the gateway's port is set to. */
  lemma GatewayOpensItsOrigin(c: Config, port: int, proto: string)
    ensures Firewall.Opens(Firewall.GatewayPorts(c), (port, proto))
       <==> && c.edgeDomain != "" && c.gatewayMode.Builtin? && proto == "tcp"
            && (port == 80 || (port >= 0 && Names(EdgeOrigin(c), c.edgeDomain, port)))
    ensures c.edgeDomain != "" && c.gatewayMode.External? ==> Names(EdgeOrigin(c), c.edgeDomain, 443)
  {
    var rules := Firewall.GatewayPorts(c);
    if c.edgeDomain != "" && c.gatewayMode.Builtin? {
      assert Names(EdgeOrigin(c), c.edgeDomain, GatewayPort(c));
      if port >= 0 && Names(EdgeOrigin(c), c.edgeDomain, port) {
        NamesOne(EdgeOrigin(c), c.edgeDomain, port, GatewayPort(c));
      }
      assert rules[0].Key() == (GatewayPort(c), "tcp") && rules[1].Key() == (80, "tcp");
    }
  }

  /** Subscription links use the operator's own base address if there is one; else the edge
      domain, once it is settled who serves it; else none. */
  lemma LinksFollowTheEdge(c: Config)
    ensures c.subBaseURL != "" ==> SubOrigin(c) == c.subBaseURL
    ensures SubOrigin(c) == "" <==> c.subBaseURL == "" && (c.edgeDomain == "" || c.gatewayMode.Auto?)
    ensures c.subBaseURL == "" && SubOrigin(c) != "" ==> IsHttps(SubOrigin(c)) && exists p: nat :: Names(SubOrigin(c), c.edgeDomain, p)
  {
    if c.edgeDomain != "" {
      var p := if c.gatewayMode.External? then 443 else GatewayPort(c);
      assert Names(EdgeOrigin(c), c.edgeDomain, p);
    }
  }

  /** So with the built-in gateway, the first base handed out to clients names a port that
      is opened. */
  lemma FirstBaseIsOpen(c: Config) returns (port: nat)
    requires c.subBaseURL == "" && c.edgeDomain != "" && c.gatewayMode.Builtin?
    ensures Bases(c) != [] && Names(Bases(c)[0], c.edgeDomain, port)
    ensures Firewall.Opens(Firewall.GatewayPorts(c), (port, "tcp"))
  {
    LinksFollowTheEdge(c);
    BasesAre(SubOrigin(c), c.mirrors);
    port :| Names(SubOrigin(c), c.edgeDomain, port);
    GatewayOpensItsOrigin(c, port, "tcp");
  }

  /** An opening is for tcp, udp or both, as the row says if it says so properly; a row that
      does not say gets udp exactly for the two protocols that speak QUIC. */
  lemma ProtoIsProper(typ: Protocol, network: string)
    ensures var proto := Firewall.NormaliseProto(typ, network);
            && proto in {"tcp", "udp", "both"}
            && (network in {"tcp", "udp", "both"} ==> proto == network)
            && (network !in {"tcp", "udp", "both"} ==> (proto == "udp" <==> typ.Hysteria2? || typ.Tuic?) && proto != "both")
            && Firewall.NormaliseProto(typ, proto) == proto
  {
  }
}
