/** The signed mirror list and its sequence number (internal/control/antiblock). */
module Mirrors {
  import opened Common
  import opened Antiblock

  const HTTPS: string := "https://"

  predicate IsHttps(b: string) {
    HTTPS <= b
  }

  predicate AllHttps(bases: seq<string>) {
    forall i :: 0 <= i < |bases| ==> IsHttps(bases[i])
  }

  /** Mirrors must use https. */
  predicate Normal(c: Config) {
    AllHttps(c.mirrors)
  }

  function EdgeOrigin(c: Config): string {
    if c.edgeDomain == "" then ""
    else if GatewayPort(c) != 443 && !c.gatewayMode.External? then
      HTTPS + c.edgeDomain + ":" + Decimal(GatewayPort(c))
    else HTTPS + c.edgeDomain
  }

  function SubOrigin(c: Config): string {
    if c.subBaseURL != "" then c.subBaseURL
    else if c.edgeDomain != "" && !c.gatewayMode.Auto? then EdgeOrigin(c)
    else ""
  }

  /** The origin if it uses https, then the mirrors unlike the first base. */
  function BasesFrom(origin: string, mirrors: seq<string>): seq<string> {
    if mirrors == [] then if IsHttps(origin) then [origin] else []
    else
      var (before, m) := (BasesFrom(origin, mirrors[..|mirrors| - 1]), mirrors[|mirrors| - 1]);
      if before == [] || m != before[0] then before + [m] else before
  }

  function Bases(c: Config): seq<string> {
    BasesFrom(SubOrigin(c), c.mirrors)
  }

  method MirrorBases(c: Config) returns (bases: seq<string>)
    ensures bases == Bases(c)
  {
    bases := [];
    var o := SubOrigin(c);
    if IsHttps(o) {
      bases := bases + [o];
    }
    for i := 0 to |c.mirrors|
      invariant bases == BasesFrom(o, c.mirrors[..i])
    {
      assert c.mirrors[..i + 1][..i] == c.mirrors[..i];
      if |bases| == 0 || c.mirrors[i] != bases[0] {
        bases := bases + [c.mirrors[i]];
      }
    }
    assert c.mirrors[..|c.mirrors|] == c.mirrors;
  }

  /** Nothing but the https origin and the mirrors is handed out, none of them is missing,
      the origin leads, and the first base is not repeated. */
  lemma {:induction false} BasesAre(origin: string, mirrors: seq<string>)
    ensures var bases := BasesFrom(origin, mirrors);
            (forall b :: b in bases <==> (b == origin && IsHttps(origin)) || b in mirrors)
            && (IsHttps(origin) ==> bases != [] && bases[0] == origin)
            && (!IsHttps(origin) && mirrors != [] ==> bases != [] && bases[0] == mirrors[0])
            && forall i :: 0 < i < |bases| ==> bases[i] != bases[0]
  {
    if mirrors != [] {
      BasesAre(origin, mirrors[..|mirrors| - 1]);
      assert mirrors == mirrors[..|mirrors| - 1] + [mirrors[|mirrors| - 1]];
    }
  }

  /** Every base a client is handed uses https. */
  lemma BasesAreHttps(c: Config)
    requires Normal(c)
    ensures AllHttps(Bases(c))
  {
    BasesAre(SubOrigin(c), c.mirrors);
    forall i | 0 <= i < |Bases(c)| ensures IsHttps(Bases(c)[i]) {
      assert Bases(c)[i] in Bases(c);
    }
  }

  // ---- Saving ----

  function Join(bases: seq<string>): string {
    if bases == [] then ""
    else if |bases| == 1 then bases[0]
    else bases[0] + "\n" + Join(bases[1..])
  }

  /** What Load reads back: plain settings come back trimmed, the mirror list as it is. */
  function Loaded(c: Config, trim: string -> string): Config {
    c.(edgeDomain := trim(c.edgeDomain), subBaseURL := trim(c.subBaseURL))
  }

  /** The stored posture, as loaded, and the sequence number; 0 is none. */
  datatype Published = Published(config: Config, mirrorsSeq: int)

  function Saved(p: Published, c: Config, now: int, trim: string -> string): Published {
    Published(Loaded(c, trim), if Join(Bases(p.config)) != Join(Bases(c)) then now else p.mirrorsSeq)
  }

  class Settings {
    var config: Config
    var mirrorsSeq: int
    const trim: string -> string

    constructor (trim: string -> string)
      ensures config == Config("", 0, Auto, "", [], false) && mirrorsSeq == 0 && this.trim == trim
    {
      config, mirrorsSeq := Config("", 0, Auto, "", [], false), 0;
      this.trim := trim;
    }

    method Save(c: Config, now: int)
      modifies this`config, this`mirrorsSeq
      ensures Published(config, mirrorsSeq) == Saved(old(Published(config, mirrorsSeq)), c, now, trim)
    {
      var was := MirrorBases(config);
      var bases := MirrorBases(c);
      config := c.(edgeDomain := trim(c.edgeDomain), subBaseURL := trim(c.subBaseURL));
      if Join(was) != Join(bases) {
        mirrorsSeq := now;
      }
    }

    /** The version and the bases the header carries, None when it is not sent. */
    method MirrorsHeader() returns (h: Option<(int, seq<string>)>)
      ensures h == Header(Published(config, mirrorsSeq))
    {
      var bases := MirrorBases(config);
      if |bases| == 0 {
        return None;
      }
      var n := mirrorsSeq;
      if n == 0 {
        n := 1;
      }
      return Some((n, bases));
    }
  }

  function Version(p: Published): int {
    if p.mirrorsSeq == 0 then 1 else p.mirrorsSeq
  }

  function Header(p: Published): Option<(int, seq<string>)> {
    if Bases(p.config) == [] then None else Some((Version(p), Bases(p.config)))
  }
}
