/** The proactive alerter: what is pushed, and when (internal/control/alertrunner,
    internal/control/alerts). */
module Alerts {
  import opened Common

  datatype Kind = KindQuota | KindExpiry | KindCert | KindCertRenew | KindRealityTarget | KindEngine | KindUpdate

  datatype Alert = Alert(kind: Kind, target: string, pct: int, days: int)

  function KindText(k: Kind): string {
    match k
    case KindQuota => "quota"
    case KindExpiry => "expiry"
    case KindCert => "cert"
    case KindCertRenew => "cert_renew"
    case KindRealityTarget => "reality_target"
    case KindEngine => "engine"
    case KindUpdate => "update"
  }

  function Mark(k: Kind, target: string): string {
    KindText(k) + [':'] + target
  }

  function Fingerprint(a: Alert): string {
    Mark(a.kind, a.target)
  }

  lemma KindTextIsInjective(a: Kind, b: Kind)
    requires KindText(a) == KindText(b)
    ensures a == b
  {
    assert |KindText(a)| == |KindText(b)|;
    assert KindText(a)[0] == KindText(b)[0] && KindText(a)[1] == KindText(b)[1];
    assert |KindText(a)| > 5 ==> KindText(a)[5] == KindText(b)[5];
  }

  lemma KindTextHasNoColon(k: Kind)
    ensures ':' !in KindText(k)
  {
  }

  lemma ColonSplits(x: string, t: string, y: string, u: string)
    requires ':' !in x && ':' !in y && x + [':'] + t == y + [':'] + u
    ensures x == y && t == u
  {
    var p, q := x + [':'] + t, y + [':'] + u;
    assert p[|x|] == ':' && q[|y|] == ':';
    assert forall i :: 0 <= i < |x| ==> p[i] == x[i];
    assert forall i :: 0 <= i < |y| ==> q[i] == y[i];
    assert |x| == |y|;
    assert x == p[..|x|] && y == q[..|y|] && t == p[|x| + 1..] && u == q[|y| + 1..];
  }

  /** A fingerprint stands for a kind and a target, and for nothing else. */
  lemma MarkIsInjective(k: Kind, t: string, l: Kind, u: string)
    requires Mark(k, t) == Mark(l, u)
    ensures k == l && t == u
  {
    KindTextHasNoColon(k);
    KindTextHasNoColon(l);
    ColonSplits(KindText(k), t, KindText(l), u);
    KindTextIsInjective(k, l);
  }

  const ENGINE_PREFIX: string := KindText(KindEngine) + [':']

  lemma EnginePrefixMeansEngine(k: Kind, t: string)
    ensures ENGINE_PREFIX <= Mark(k, t) <==> k == KindEngine
  {
    if ENGINE_PREFIX <= Mark(k, t) {
      var rest := Mark(k, t)[|ENGINE_PREFIX|..];
      assert Mark(k, t) == Mark(KindEngine, rest);
      MarkIsInjective(k, t, KindEngine, rest);
    }
  }

  // ---- One scan ----

  function Marks(cur: seq<Alert>): set<string> {
    set i | 0 <= i < |cur| :: Fingerprint(cur[i])
  }

  /** The alerts not yet in alarm, in the order they came. */
  function Fresh(cur: seq<Alert>, prev: set<string>): seq<Alert> {
    if cur == [] then []
    else
      var (before, a) := (Fresh(cur[..|cur| - 1], prev), cur[|cur| - 1]);
      if Fingerprint(a) in prev then before else before + [a]
  }

  /** The engines that were in alarm and no longer are. */
  function Recovered(cur: seq<Alert>, prev: set<string>): set<string> {
    set fp | fp in prev && fp !in Marks(cur) && ENGINE_PREFIX <= fp :: fp[|ENGINE_PREFIX|..]
  }

  datatype Message = Message(alerts: seq<Alert>, recovered: set<string>)

  /** The saved state after a scan, and the message if one was delivered. */
  function Scanned(prev: set<string>, cur: seq<Alert>, sent: bool): (set<string>, Option<Message>) {
    var m := Message(Fresh(cur, prev), Recovered(cur, prev));
    if m.alerts == [] && m.recovered == {} then (Marks(cur), None)
    else if sent then (Marks(cur), Some(m))
    else (prev, None)
  }

  method DiffAlerts(cur: seq<Alert>, prev: set<string>) returns (rising: seq<Alert>, recovered: set<string>)
    ensures rising == Fresh(cur, prev) && recovered == Recovered(cur, prev)
  {
    var curFP: set<string> := {};
    for i := 0 to |cur|
      invariant curFP == set j | 0 <= j < i :: Fingerprint(cur[j])
    {
      curFP := curFP + {Fingerprint(cur[i])};
    }
    assert curFP == Marks(cur);
    rising := [];
    for i := 0 to |cur|
      invariant rising == Fresh(cur[..i], prev)
    {
      assert cur[..i + 1][..i] == cur[..i];
      if Fingerprint(cur[i]) !in prev {
        rising := rising + [cur[i]];
      }
    }
    assert cur[..|cur|] == cur;
    recovered := {};
    var todo := prev;
    while todo != {}
      invariant todo <= prev
      invariant recovered == set fp | fp in prev - todo && fp !in curFP && ENGINE_PREFIX <= fp :: fp[|ENGINE_PREFIX|..]
      decreases todo
    {
      var fp :| fp in todo;
      assert prev - (todo - {fp}) == (prev - todo) + {fp};
      todo := todo - {fp};
      if fp !in curFP && ENGINE_PREFIX <= fp {
        recovered := recovered + {fp[|ENGINE_PREFIX|..]};
      }
    }
    assert prev - todo == prev;
  }

  // ---- The Reality check's hysteresis ----

  const CHECK_EVERY: int := 30 * MINUTE
  const FAILS_TO_ALARM: nat := 2

  /** The check of one enabled inbound's disguise site. */
  datatype Probe = Probe(sni: string, failed: bool)

  /** The first probe of a site decides; the others are skipped. */
  function Outcome(probes: seq<Probe>, sni: string): Option<bool> {
    if probes == [] then None
    else if Outcome(probes[..|probes| - 1], sni).Some? then Outcome(probes[..|probes| - 1], sni)
    else if probes[|probes| - 1].sni == sni then Some(probes[|probes| - 1].failed)
    else None
  }

  function Sites(probes: seq<Probe>): set<string> {
    set i | 0 <= i < |probes| :: probes[i].sni
  }

  function FailsOf(fails: map<string, nat>, sni: string): nat {
    if sni in fails then fails[sni] else 0
  }

  /** The counters after a round: only probed sites have one. */
  function Counted(fails: map<string, nat>, probes: seq<Probe>): map<string, nat> {
    map sni | sni in Sites(probes) :: if Outcome(probes, sni) == Some(true) then FailsOf(fails, sni) + 1 else 0
  }

  function Alarming(fails: map<string, nat>): set<string> {
    set sni | sni in fails && fails[sni] >= FAILS_TO_ALARM
  }

  /** The state of the disguise check between calls. */
  datatype Check = Check(checked: Stamp, fails: map<string, nat>)

  predicate Due(c: Check, now: int) {
    !Within(now, c.checked, CHECK_EVERY)
  }

  /** The state after a call, and the sites it reports; listing is None when the inbounds
      could not be listed. */
  function Checked(c: Check, now: int, listing: Option<seq<Probe>>): (Check, set<string>) {
    if !Due(c, now) then (c, Alarming(c.fails))
    else if listing.None? then (c.(checked := At(now)), {})
    else
      var fails := Counted(c.fails, listing.value);
      (Check(At(now), fails), Alarming(fails))
  }

  lemma OneMoreProbe(probes: seq<Probe>, i: nat)
    requires i < |probes|
    ensures Sites(probes[..i + 1]) == Sites(probes[..i]) + {probes[i].sni}
    ensures forall s :: Outcome(probes[..i + 1], s)
                        == if Outcome(probes[..i], s).Some? then Outcome(probes[..i], s)
                           else if probes[i].sni == s then Some(probes[i].failed) else None
  {
    assert probes[..i + 1][..i] == probes[..i];
    assert forall j :: 0 <= j < i ==> probes[..i + 1][j] == probes[..i][j];
  }

  class Runner {
    /** The fingerprints in alarm, as last saved. */
    var saved: set<string>
    var realityChecked: Stamp
    var realityFails: map<string, nat>

    constructor ()
      ensures saved == {} && realityChecked == Never && realityFails == map[]
    {
      saved, realityChecked, realityFails := {}, Never, map[];
    }

    /** One scan with a push target: cur is what the detectors found, sends whether the
        push would go through. */
    method Scan(cur: seq<Alert>, sends: bool) returns (delivered: Option<Message>)
      modifies this`saved
      ensures (saved, delivered) == Scanned(old(saved), cur, sends)
    {
      var rising, recovered := DiffAlerts(cur, saved);
      if rising == [] && recovered == {} {
        saved := set i | 0 <= i < |cur| :: Fingerprint(cur[i]);
        return None;
      }
      if !sends {
        return None;
      }
      saved := set i | 0 <= i < |cur| :: Fingerprint(cur[i]);
      return Some(Message(rising, recovered));
    }

    method RealityAlerts(now: int, listing: Option<seq<Probe>>) returns (alarms: set<string>)
      modifies this`realityChecked, this`realityFails
      ensures (Check(realityChecked, realityFails), alarms)
           == Checked(Check(old(realityChecked), old(realityFails)), now, listing)
    {
      if !Within(now, realityChecked, CHECK_EVERY) {
        realityChecked := At(now);
        if listing.None? {
          return {};
        }
        CountRound(listing.value);
      }
      return Alarming(realityFails);
    }

    method CountRound(probes: seq<Probe>)
      modifies this`realityFails
      ensures realityFails == Counted(old(realityFails), probes)
    {
      var seen: set<string> := {};
      for i := 0 to |probes|
        invariant seen == Sites(probes[..i])
        invariant forall s :: s in seen ==> s in realityFails && Outcome(probes[..i], s).Some?
        invariant forall s :: s in seen ==>
                                realityFails[s] == (if Outcome(probes[..i], s) == Some(true) then FailsOf(old(realityFails), s) + 1 else 0)
        invariant forall s :: s !in seen ==>
                                Outcome(probes[..i], s).None? && FailsOf(realityFails, s) == FailsOf(old(realityFails), s)
      {
        OneMoreProbe(probes, i);
        var p := probes[i];
        if p.sni in seen {
          continue;
        }
        seen := seen + {p.sni};
        if p.failed {
          realityFails := realityFails[p.sni := FailsOf(realityFails, p.sni) + 1];
        } else {
          realityFails := realityFails[p.sni := 0];
        }
      }
      assert probes[..|probes|] == probes;
      realityFails := map s | s in realityFails && s in seen :: realityFails[s];
    }
  }
}
