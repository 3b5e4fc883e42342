/** Per-user quota and expiry enforcement (internal/control/quota). */
module Quota {
  import opened Common
  import opened Model

  datatype Reason = QuotaExceeded | Expired

  datatype Decision = Decision(clientId: nat, email: string, reason: Reason)

  /** What a user's credentials add up to. */
  datatype Agg = Agg(used: int, quota: int, expiry: int, anyEnabled: bool)

  const NOTHING: Agg := Agg(0, 0, 0, false)

  function Max(a: int, b: int): int {
    if a > b then a else b
  }

  function AddTo(a: Agg, c: Client): Agg {
    Agg(a.used + c.trafficUp + c.trafficDown, Max(a.quota, c.quotaBytes), Max(a.expiry, c.expiryAt), a.anyEnabled || c.enabled)
  }

  /** The sum of a user's traffic, and the largest cap and expiry of its credentials. */
  function UserAgg(cs: seq<Client>, email: string): Agg {
    if cs == [] then NOTHING
    else
      var before := UserAgg(cs[..|cs| - 1], email);
      if cs[|cs| - 1].email == email then AddTo(before, cs[|cs| - 1]) else before
  }

  function ReasonFor(a: Agg, now: int): Option<Reason> {
    if a.quota > 0 && a.used >= a.quota then Some(QuotaExceeded)
    else if a.expiry > 0 && now >= a.expiry then Some(Expired)
    else None
  }

  /** The user has reached its cap or its expiry. */
  predicate Over(cs: seq<Client>, email: string, now: int) {
    ReasonFor(UserAgg(cs, email), now).Some?
  }

  function Order(cs: seq<Client>): seq<string> {
    if cs == [] then []
    else
      var before := Order(cs[..|cs| - 1]);
      if cs[|cs| - 1].email in before then before else before + [cs[|cs| - 1].email]
  }

  function Members(cs: seq<Client>, email: string): seq<Client> {
    if cs == [] then []
    else
      var before := Members(cs[..|cs| - 1], email);
      if cs[|cs| - 1].email == email then before + [cs[|cs| - 1]] else before
  }

  function Flag(members: seq<Client>, reason: Reason): seq<Decision> {
    if members == [] then []
    else
      var (before, c) := (Flag(members[..|members| - 1], reason), members[|members| - 1]);
      if c.enabled then before + [Decision(c.id, c.email, reason)] else before
  }

  function DecideUser(cs: seq<Client>, email: string, now: int): seq<Decision> {
    var reason := ReasonFor(UserAgg(cs, email), now);
    if !UserAgg(cs, email).anyEnabled || reason.None? then [] else Flag(Members(cs, email), reason.value)
  }

  function DecideUsers(cs: seq<Client>, emails: seq<string>, now: int): seq<Decision> {
    if emails == [] then []
    else DecideUsers(cs, emails[..|emails| - 1], now) + DecideUser(cs, emails[|emails| - 1], now)
  }

  function ByUser(cs: seq<Client>, now: int): seq<Decision> {
    DecideUsers(cs, Order(cs), now)
  }

  method AddClient(a0: Agg, c: Client) returns (a: Agg)
    ensures a == AddTo(a0, c)
  {
    a := a0.(used := a0.used + c.trafficUp + c.trafficDown);
    if c.quotaBytes > a.quota {
      a := a.(quota := c.quotaBytes);
    }
    if c.expiryAt > a.expiry {
      a := a.(expiry := c.expiryAt);
    }
    if c.enabled {
      a := a.(anyEnabled := true);
    }
  }

  /** What the aggregation has gathered from cs. */
  ghost predicate Gathered(byEmail: map<string, (Agg, seq<Client>)>, order: seq<string>, cs: seq<Client>) {
    && order == Order(cs)
    && (forall e :: e in byEmail <==> e in order)
    && (forall e :: e in byEmail ==> byEmail[e] == (UserAgg(cs, e), Members(cs, e)))
    && (forall e :: e !in byEmail ==> UserAgg(cs, e) == NOTHING && Members(cs, e) == [])
  }

  lemma OneMoreClient(byEmail: map<string, (Agg, seq<Client>)>, order: seq<string>, cs: seq<Client>, i: nat)
    requires i < |cs| && Gathered(byEmail, order, cs[..i])
    ensures var (c, known) := (cs[i], cs[i].email in byEmail);
            var (a, members) := if known then byEmail[c.email] else (NOTHING, []);
            Gathered(byEmail[c.email := (AddTo(a, c), members + [c])], if known then order else order + [c.email], cs[..i + 1])
  {
    assert cs[..i + 1][..i] == cs[..i];
  }

  method Aggregate(cs: seq<Client>) returns (byEmail: map<string, (Agg, seq<Client>)>, order: seq<string>)
    ensures order == Order(cs)
    ensures forall e :: e in order ==> e in byEmail && byEmail[e] == (UserAgg(cs, e), Members(cs, e))
  {
    byEmail, order := map[], [];
    for i := 0 to |cs|
      invariant Gathered(byEmail, order, cs[..i])
    {
      OneMoreClient(byEmail, order, cs, i);
      var c := cs[i];
      if c.email !in byEmail {
        byEmail := byEmail[c.email := (NOTHING, [])];
        order := order + [c.email];
      }
      var (a, members) := byEmail[c.email];
      a := AddClient(a, c);
      byEmail := byEmail[c.email := (a, members + [c])];
    }
    assert cs[..|cs|] == cs;
  }

  method DecideOne(a: Agg, members: seq<Client>, now: int) returns (out: seq<Decision>)
    ensures out == if !a.anyEnabled || ReasonFor(a, now).None? then [] else Flag(members, ReasonFor(a, now).value)
  {
    out := [];
    if !a.anyEnabled {
      return;
    }
    var reason: Reason;
    if a.quota > 0 && a.used >= a.quota {
      reason := QuotaExceeded;
    } else if a.expiry > 0 && now >= a.expiry {
      reason := Expired;
    } else {
      return;
    }
    for j := 0 to |members|
      invariant out == Flag(members[..j], reason)
    {
      assert members[..j + 1][..j] == members[..j];
      if !members[j].enabled {
        continue;
      }
      out := out + [Decision(members[j].id, members[j].email, reason)];
    }
    assert members[..|members|] == members;
  }

  method EvaluateByUser(cs: seq<Client>, now: int) returns (out: seq<Decision>)
    ensures out == ByUser(cs, now)
  {
    var byEmail, order := Aggregate(cs);
    out := [];
    for i := 0 to |order|
      invariant out == DecideUsers(cs, order[..i], now)
    {
      assert order[..i + 1][..i] == order[..i];
      assert order[i] in order;
      var (a, members) := byEmail[order[i]];
      var some := DecideOne(a, members, now);
      out := out + some;
    }
    assert order[..|order|] == order;
  }

  // ---- Credential by credential, the older evaluation ----

  function OneReason(c: Client, now: int): Option<Reason> {
    if !c.enabled then None
    else if c.quotaBytes > 0 && c.trafficUp + c.trafficDown >= c.quotaBytes then Some(QuotaExceeded)
    else if c.expiryAt > 0 && now >= c.expiryAt then Some(Expired)
    else None
  }

  function ByClient(cs: seq<Client>, now: int): seq<Decision> {
    if cs == [] then []
    else
      var (before, c) := (ByClient(cs[..|cs| - 1], now), cs[|cs| - 1]);
      if OneReason(c, now).Some? then before + [Decision(c.id, c.email, OneReason(c, now).value)] else before
  }

  method Evaluate(cs: seq<Client>, now: int) returns (out: seq<Decision>)
    ensures out == ByClient(cs, now)
  {
    out := [];
    for i := 0 to |cs|
      invariant out == ByClient(cs[..i], now)
    {
      assert cs[..i + 1][..i] == cs[..i];
      var c := cs[i];
      if !c.enabled {
        continue;
      }
      if c.quotaBytes > 0 && c.trafficUp + c.trafficDown >= c.quotaBytes {
        out := out + [Decision(c.id, c.email, QuotaExceeded)];
        continue;
      }
      if c.expiryAt > 0 && now >= c.expiryAt {
        out := out + [Decision(c.id, c.email, Expired)];
      }
    }
    assert cs[..|cs|] == cs;
  }

  // ---- The sweep ----

  function SetEnabled(cs: seq<Client>, id: nat, enabled: bool): seq<Client> {
    seq(|cs|, i requires 0 <= i < |cs| => if cs[i].id == id then cs[i].(enabled := enabled) else cs[i])
  }

  function DisableAll(cs: seq<Client>, ds: seq<Decision>): seq<Client> {
    if ds == [] then cs
    else SetEnabled(DisableAll(cs, ds[..|ds| - 1]), ds[|ds| - 1].clientId, false)
  }

  class ClientStore {
    var rows: seq<Client>

    constructor (rows0: seq<Client>)
      ensures rows == rows0
    {
      rows := rows0;
    }

    method SetClientEnabled(id: nat, enabled: bool)
      modifies this
      ensures rows == SetEnabled(old(rows), id, enabled)
    {
      rows := SetEnabled(rows, id, enabled);
    }

    /** EnforceAll at an instant: what it disabled, in order, and the rows after. */
    method EnforceAll(now: int) returns (disabled: seq<Decision>)
      modifies this
      ensures disabled == ByUser(old(rows), now)
      ensures rows == DisableAll(old(rows), disabled)
    {
      var decisions := EvaluateByUser(rows, now);
      disabled := [];
      if |decisions| == 0 {
        return;
      }
      for i := 0 to |decisions|
        invariant disabled == decisions[..i]
        invariant rows == DisableAll(old(rows), decisions[..i])
      {
        assert decisions[..i + 1][..i] == decisions[..i];
        SetClientEnabled(decisions[i].clientId, false);
        disabled := disabled + [decisions[i]];
      }
      assert decisions[..|decisions|] == decisions;
    }
  }

  // ---- The early warnings, from the same aggregates ----

  /** quotaWarnings: the user's percentage when it is enabled, capped and past pct. */
  function QuotaWarning(cs: seq<Client>, email: string, pct: int): Option<int> {
    var a := UserAgg(cs, email);
    var threshold := if pct <= 0 then 90 else pct;
    if !a.anyEnabled || a.quota <= 0 then None
    else
      var p := if a.used >= 0 then a.used * 100 / a.quota else -(-a.used * 100 / a.quota);
      if p >= threshold then Some(p) else None
  }

  /** expiringUsers: the seconds left, when it is enabled and expires within the window. */
  function ExpiryWarning(cs: seq<Client>, email: string, now: int, days: int): Option<int> {
    var a := UserAgg(cs, email);
    var window := (if days <= 0 then 7 else days) * 86400;
    if !a.anyEnabled || a.expiry <= 0 || a.expiry > now + window || a.expiry < now then None else Some(a.expiry - now)
  }
}
