/** Whom the sweep catches, and that it has nothing left to catch afterwards. */
module QuotaLaws {
  import Common
  import opened Model
  import opened Quota

  /** A client the sweep must disable: enabled, of a user past its cap or expiry. */
  predicate Caught(all: seq<Client>, c: Client, now: int) {
    c.enabled && Over(all, c.email, now)
  }

  function AsDecision(all: seq<Client>, c: Client, now: int): Decision
    requires Over(all, c.email, now)
  {
    Decision(c.id, c.email, ReasonFor(UserAgg(all, c.email), now).value)
  }

  /** One decision for each caught client of cs, in the order of cs. */
  function CaughtIn(all: seq<Client>, cs: seq<Client>, now: int): seq<Decision> {
    if cs == [] then []
    else
      var (before, c) := (CaughtIn(all, cs[..|cs| - 1], now), cs[|cs| - 1]);
      if Caught(all, c, now) then before + [AsDecision(all, c, now)] else before
  }

  /** Only the clients of the listed users. */
  function CaughtOf(all: seq<Client>, cs: seq<Client>, emails: seq<string>, now: int): seq<Decision> {
    if cs == [] then []
    else
      var (before, c) := (CaughtOf(all, cs[..|cs| - 1], emails, now), cs[|cs| - 1]);
      if Caught(all, c, now) && c.email in emails then before + [AsDecision(all, c, now)] else before
  }

  lemma {:induction false} FlagIsCaught(all: seq<Client>, cs: seq<Client>, email: string, now: int)
    requires Over(all, email, now)
    ensures Flag(Members(cs, email), ReasonFor(UserAgg(all, email), now).value) == CaughtOf(all, cs, [email], now)
  {
    if cs != [] {
      var n := |cs| - 1;
      FlagIsCaught(all, cs[..n], email, now);
      var m := Members(cs, email);
      if cs[n].email == email {
        assert m[..|m| - 1] == Members(cs[..n], email);
      }
    }
  }

  lemma {:induction false} NoneCaught(all: seq<Client>, cs: seq<Client>, email: string, now: int)
    requires !Over(all, email, now) || !UserAgg(cs, email).anyEnabled
    ensures CaughtOf(all, cs, [email], now) == []
  {
    if cs != [] {
      NoneCaught(all, cs[..|cs| - 1], email, now);
    }
  }

  lemma DecideUserIsCaught(cs: seq<Client>, email: string, now: int)
    ensures DecideUser(cs, email, now) == CaughtOf(cs, cs, [email], now)
  {
    if Over(cs, email, now) && UserAgg(cs, email).anyEnabled {
      FlagIsCaught(cs, cs, email, now);
    } else {
      NoneCaught(cs, cs, email, now);
    }
  }

  lemma {:induction false} CaughtSplits(all: seq<Client>, cs: seq<Client>, emails: seq<string>, email: string, now: int)
    requires email !in emails
    ensures multiset(CaughtOf(all, cs, emails + [email], now))
         == multiset(CaughtOf(all, cs, emails, now)) + multiset(CaughtOf(all, cs, [email], now))
  {
    if cs != [] {
      CaughtSplits(all, cs[..|cs| - 1], emails, email, now);
    }
  }

  lemma {:induction false} CaughtOfNobody(all: seq<Client>, cs: seq<Client>, now: int)
    ensures CaughtOf(all, cs, [], now) == []
  {
    if cs != [] {
      CaughtOfNobody(all, cs[..|cs| - 1], now);
    }
  }

  lemma DecideOneMore(cs: seq<Client>, emails: seq<string>, email: string, now: int)
    requires email !in emails && multiset(DecideUsers(cs, emails, now)) == multiset(CaughtOf(cs, cs, emails, now))
    ensures multiset(DecideUsers(cs, emails + [email], now)) == multiset(CaughtOf(cs, cs, emails + [email], now))
  {
    assert (emails + [email])[..|emails|] == emails;
    DecideUserIsCaught(cs, email, now);
    CaughtSplits(cs, cs, emails, email, now);
  }

  lemma {:induction false} DecideUsersIsCaught(cs: seq<Client>, emails: seq<string>, now: int)
    requires forall i, j :: 0 <= i < j < |emails| ==> emails[i] != emails[j]
    ensures multiset(DecideUsers(cs, emails, now)) == multiset(CaughtOf(cs, cs, emails, now))
  {
    if emails == [] {
      CaughtOfNobody(cs, cs, now);
    } else {
      var n := |emails| - 1;
      DecideUsersIsCaught(cs, emails[..n], now);
      DecideOneMore(cs, emails[..n], emails[n], now);
      assert emails[..n] + [emails[n]] == emails;
    }
  }

  lemma {:induction false} OrderCovers(cs: seq<Client>)
    ensures forall i :: 0 <= i < |cs| ==> cs[i].email in Order(cs)
    ensures forall i, j :: 0 <= i < j < |Order(cs)| ==> Order(cs)[i] != Order(cs)[j]
  {
    if cs != [] {
      var n := |cs| - 1;
      OrderCovers(cs[..n]);
      assert forall i :: 0 <= i < n ==> cs[..n][i] == cs[i];
    }
  }

  lemma {:induction false} CaughtOfAll(all: seq<Client>, cs: seq<Client>, emails: seq<string>, now: int)
    requires forall i :: 0 <= i < |cs| ==> cs[i].email in emails
    ensures CaughtOf(all, cs, emails, now) == CaughtIn(all, cs, now)
  {
    if cs != [] {
      var n := |cs| - 1;
      assert forall i :: 0 <= i < n ==> cs[..n][i] == cs[i];
      CaughtOfAll(all, cs[..n], emails, now);
    }
  }

  /** The sweep lists each enabled client of a user past its cap or expiry exactly as
      often as it occurs, and no other. */
  lemma ByUserIsExact(cs: seq<Client>, now: int)
    ensures multiset(ByUser(cs, now)) == multiset(CaughtIn(cs, cs, now))
  {
    OrderCovers(cs);
    DecideUsersIsCaught(cs, Order(cs), now);
    CaughtOfAll(cs, cs, Order(cs), now);
  }

  // ---- Who is past a limit ----

  /** What a user's credentials have carried, both ways. */
  function TrafficOf(cs: seq<Client>, email: string): int {
    if cs == [] then 0
    else TrafficOf(cs[..|cs| - 1], email)
         + (if cs[|cs| - 1].email == email then cs[|cs| - 1].trafficUp + cs[|cs| - 1].trafficDown else 0)
  }

  /** The user has a cap, and has used up every one of its caps. */
  ghost predicate PastCaps(cs: seq<Client>, email: string) {
    && (exists c :: c in cs && c.email == email && c.quotaBytes > 0)
    && (forall c :: c in cs && c.email == email ==> TrafficOf(cs, email) >= c.quotaBytes)
  }

  /** The user has an expiry, and every one of its expiries has come. */
  ghost predicate PastExpiries(cs: seq<Client>, email: string, now: int) {
    && (exists c :: c in cs && c.email == email && c.expiryAt > 0)
    && (forall c :: c in cs && c.email == email ==> now >= c.expiryAt)
  }

  /** The largest of the user's values so far. */
  ghost predicate Tops(cs: seq<Client>, email: string, a: Agg) {
    && a.quota >= 0 && a.expiry >= 0
    && (forall c :: c in cs && c.email == email ==> c.quotaBytes <= a.quota && c.expiryAt <= a.expiry)
    && (a.quota > 0 ==> exists c :: c in cs && c.email == email && c.quotaBytes == a.quota)
    && (a.expiry > 0 ==> exists c :: c in cs && c.email == email && c.expiryAt == a.expiry)
  }

  lemma TopsStep(cs: seq<Client>, email: string, a: Agg, c: Client)
    requires Tops(cs, email, a)
    ensures Tops(cs + [c], email, if c.email == email then AddTo(a, c) else a)
  {
    assert forall d :: d in cs + [c] <==> d in cs || d == c;
  }

  lemma {:induction false} AggTops(cs: seq<Client>, email: string)
    ensures Tops(cs, email, UserAgg(cs, email)) && UserAgg(cs, email).used == TrafficOf(cs, email)
  {
    if cs != [] {
      var n := |cs| - 1;
      AggTops(cs[..n], email);
      TopsStep(cs[..n], email, UserAgg(cs[..n], email), cs[n]);
      assert cs[..n] + [cs[n]] == cs;
    }
  }

  /** A user is past its limits exactly when its traffic on all inbounds together has reached
      every cap it has, or all its expiries have come; the cap is the reason given if both. */
  lemma OverExactly(cs: seq<Client>, email: string, now: int)
    ensures Over(cs, email, now) <==> PastCaps(cs, email) || PastExpiries(cs, email, now)
    ensures ReasonFor(UserAgg(cs, email), now)
         == if PastCaps(cs, email) then Common.Some(QuotaExceeded)
            else if PastExpiries(cs, email, now) then Common.Some(Expired) else Common.None
  {
    AggTops(cs, email);
    CapsExactly(cs, email, UserAgg(cs, email));
    ExpiriesExactly(cs, email, UserAgg(cs, email), now);
  }

  lemma CapsExactly(cs: seq<Client>, email: string, a: Agg)
    requires Tops(cs, email, a) && a.used == TrafficOf(cs, email)
    ensures PastCaps(cs, email) <==> a.quota > 0 && a.used >= a.quota
  {
  }

  lemma ExpiriesExactly(cs: seq<Client>, email: string, a: Agg, now: int)
    requires Tops(cs, email, a)
    ensures PastExpiries(cs, email, now) <==> a.expiry > 0 && now >= a.expiry
  {
  }

  // ---- The order of the rows does not matter ----

  function Join(a: Agg, b: Agg): Agg {
    Agg(a.used + b.used, Max(a.quota, b.quota), Max(a.expiry, b.expiry), a.anyEnabled || b.anyEnabled)
  }

  lemma {:induction false} AggBounds(cs: seq<Client>, email: string)
    ensures UserAgg(cs, email).quota >= 0 && UserAgg(cs, email).expiry >= 0
  {
    if cs != [] {
      AggBounds(cs[..|cs| - 1], email);
    }
  }

  lemma {:induction false} AggSplits(a: seq<Client>, b: seq<Client>, email: string)
    ensures UserAgg(a + b, email) == Join(UserAgg(a, email), UserAgg(b, email))
    decreases |b|
  {
    AggBounds(a, email);
    if b == [] {
      assert a + b == a;
    } else {
      var n := |b| - 1;
      assert (a + b)[..|a + b| - 1] == a + b[..n];
      assert (a + b)[|a + b| - 1] == b[n];
      AggSplits(a, b[..n], email);
      AggBounds(b[..n], email);
    }
  }

  lemma {:induction false} CaughtInSplits(all: seq<Client>, a: seq<Client>, b: seq<Client>, now: int)
    ensures CaughtIn(all, a + b, now) == CaughtIn(all, a, now) + CaughtIn(all, b, now)
  {
    if b == [] {
      assert a + b == a;
    } else {
      var n := |b| - 1;
      assert (a + b)[..|a| + n] == a + b[..n];
      CaughtInSplits(all, a, b[..n], now);
    }
  }

  /** The last element of a, found in b and taken out of both. */
  lemma TakeOut(a: seq<Client>, b: seq<Client>) returns (k: nat)
    requires a != [] && multiset(a) == multiset(b)
    ensures k < |b| && b[k] == a[|a| - 1]
    ensures b == b[..k] + [b[k]] + b[k + 1..]
    ensures multiset(a[..|a| - 1]) == multiset(b[..k] + b[k + 1..])
  {
    var x := a[|a| - 1];
    assert x in multiset(a);
    assert x in b;
    k :| 0 <= k < |b| && b[k] == x;
    assert b == b[..k] + [b[k]] + b[k + 1..];
    assert a == a[..|a| - 1] + [x];
    var rest := b[..k] + b[k + 1..];
    assert multiset(b) == multiset(b[..k]) + multiset{x} + multiset(b[k + 1..]);
    assert multiset(rest) == multiset(b[..k]) + multiset(b[k + 1..]);
    assert multiset(a) == multiset(a[..|a| - 1]) + multiset{x};
    SameRest(multiset(a[..|a| - 1]), multiset(rest), x);
  }

  lemma SameRest(a: multiset<Client>, b: multiset<Client>, x: Client)
    requires a + multiset{x} == b + multiset{x}
    ensures a == b
  {
    assert a == (a + multiset{x}) - multiset{x};
    assert b == (b + multiset{x}) - multiset{x};
  }

  lemma {:induction false} AggOfRows(a: seq<Client>, b: seq<Client>, email: string)
    requires multiset(a) == multiset(b)
    ensures UserAgg(a, email) == UserAgg(b, email)
    decreases |a|
  {
    if a == [] {
      assert |multiset(b)| == |b|;
    } else {
      var k := TakeOut(a, b);
      var (head, x, tail) := (b[..k], [b[k]], b[k + 1..]);
      AggOfRows(a[..|a| - 1], head + tail, email);
      AggSplits(head, tail, email);
      AggSplits(head, x, email);
      AggSplits(head + x, tail, email);
      AggSplits(a[..|a| - 1], x, email);
      assert a[..|a| - 1] + x == a;
    }
  }

  lemma {:induction false} CaughtInRows(all: seq<Client>, a: seq<Client>, b: seq<Client>, now: int)
    requires multiset(a) == multiset(b)
    ensures multiset(CaughtIn(all, a, now)) == multiset(CaughtIn(all, b, now))
    decreases |a|
  {
    if a == [] {
      assert |multiset(b)| == |b|;
    } else {
      var k := TakeOut(a, b);
      var (head, x, tail) := (b[..k], [b[k]], b[k + 1..]);
      CaughtInRows(all, a[..|a| - 1], head + tail, now);
      CaughtInSplits(all, head, tail, now);
      CaughtInSplits(all, head, x, now);
      CaughtInSplits(all, head + x, tail, now);
      CaughtInSplits(all, a[..|a| - 1], x, now);
      assert a[..|a| - 1] + x == a;
    }
  }

  lemma {:induction false} CaughtInAlike(a: seq<Client>, b: seq<Client>, cs: seq<Client>, now: int)
    requires forall e :: UserAgg(a, e) == UserAgg(b, e)
    ensures CaughtIn(a, cs, now) == CaughtIn(b, cs, now)
  {
    if cs != [] {
      CaughtInAlike(a, b, cs[..|cs| - 1], now);
    }
  }

  /** The rows in any other order give the same decisions, up to order. */
  lemma OrderDoesNotMatter(a: seq<Client>, b: seq<Client>, now: int)
    requires multiset(a) == multiset(b)
    ensures multiset(ByUser(a, now)) == multiset(ByUser(b, now))
  {
    ByUserIsExact(a, now);
    ByUserIsExact(b, now);
    forall e
      ensures UserAgg(a, e) == UserAgg(b, e)
    {
      AggOfRows(a, b, e);
    }
    CaughtInAlike(a, b, a, now);
    CaughtInRows(b, a, b, now);
  }

  // ---- One credential per user: the older evaluation ----

  ghost predicate DistinctEmails(cs: seq<Client>) {
    forall i, j :: 0 <= i < j < |cs| ==> cs[i].email != cs[j].email
  }

  lemma {:induction false} Absent(cs: seq<Client>, email: string)
    requires forall i :: 0 <= i < |cs| ==> cs[i].email != email
    ensures UserAgg(cs, email) == NOTHING && Members(cs, email) == [] && email !in Order(cs)
  {
    if cs != [] {
      Absent(cs[..|cs| - 1], email);
    }
  }

  lemma {:induction false} Alone(cs: seq<Client>, k: nat)
    requires DistinctEmails(cs) && k < |cs|
    ensures UserAgg(cs, cs[k].email) == AddTo(NOTHING, cs[k]) && Members(cs, cs[k].email) == [cs[k]]
  {
    var n := |cs| - 1;
    if k < n {
      assert cs[..n][k] == cs[k];
      Alone(cs[..n], k);
    } else {
      Absent(cs[..n], cs[n].email);
    }
  }

  lemma {:induction false} PrefixAgrees(cs: seq<Client>, i: nat, now: int)
    requires DistinctEmails(cs) && i <= |cs|
    ensures DecideUsers(cs, Order(cs[..i]), now) == ByClient(cs[..i], now)
  {
    if i > 0 {
      var c := cs[i - 1];
      PrefixAgrees(cs, i - 1, now);
      assert cs[..i][..i - 1] == cs[..i - 1];
      Absent(cs[..i - 1], c.email);
      AloneDecides(cs, i - 1, now);
      assert Order(cs[..i])[..|Order(cs[..i])| - 1] == Order(cs[..i - 1]);
    }
  }

  lemma AloneDecides(cs: seq<Client>, k: nat, now: int)
    requires DistinctEmails(cs) && k < |cs|
    ensures var c := cs[k];
            DecideUser(cs, c.email, now)
            == if OneReason(c, now).Some? then [Decision(c.id, c.email, OneReason(c, now).value)] else []
  {
    Alone(cs, k);
    FlagOne(cs[k], Expired);
    FlagOne(cs[k], QuotaExceeded);
  }

  lemma FlagOne(c: Client, reason: Reason)
    ensures Flag([c], reason) == if c.enabled then [Decision(c.id, c.email, reason)] else []
  {
    assert [c][..0] == [];
  }

  /** When no two rows share an email the sweep is the row-by-row evaluation. */
  lemma AgreesRowByRow(cs: seq<Client>, now: int)
    requires DistinctEmails(cs)
    ensures ByUser(cs, now) == ByClient(cs, now)
  {
    PrefixAgrees(cs, |cs|, now);
    assert cs[..|cs|] == cs;
  }

  // ---- After the sweep ----

  ghost predicate DistinctIds(cs: seq<Client>) {
    forall i, j :: 0 <= i < j < |cs| ==> cs[i].id != cs[j].id
  }

  lemma {:induction false} DisabledRow(cs: seq<Client>, ds: seq<Decision>, i: nat)
    requires i < |cs|
    ensures |DisableAll(cs, ds)| == |cs|
    ensures DisableAll(cs, ds)[i] == if exists k :: 0 <= k < |ds| && ds[k].clientId == cs[i].id then cs[i].(enabled := false) else cs[i]
  {
    if ds != [] {
      var n := |ds| - 1;
      DisabledRow(cs, ds[..n], i);
      if k :| 0 <= k < |ds| && ds[k].clientId == cs[i].id {
        if k < n {
          assert ds[..n][k].clientId == cs[i].id;
        }
      }
      if k :| 0 <= k < n && ds[..n][k].clientId == cs[i].id {
        assert ds[k].clientId == cs[i].id;
      }
    }
  }

  lemma {:induction false} CaughtInLists(all: seq<Client>, cs: seq<Client>, now: int)
    ensures forall i :: 0 <= i < |cs| && Caught(all, cs[i], now) ==> AsDecision(all, cs[i], now) in CaughtIn(all, cs, now)
    ensures forall d :: d in CaughtIn(all, cs, now) ==> exists i :: 0 <= i < |cs| && Caught(all, cs[i], now) && d == AsDecision(all, cs[i], now)
  {
    if cs != [] {
      var n := |cs| - 1;
      CaughtInLists(all, cs[..n], now);
      assert forall i :: 0 <= i < n ==> cs[..n][i] == cs[i];
      forall d | d in CaughtIn(all, cs, now)
        ensures exists i :: 0 <= i < |cs| && Caught(all, cs[i], now) && d == AsDecision(all, cs[i], now)
      {
        if d in CaughtIn(all, cs[..n], now) {
          var i :| 0 <= i < n && Caught(all, cs[..n][i], now) && d == AsDecision(all, cs[..n][i], now);
          assert d == AsDecision(all, cs[i], now);
        }
      }
    }
  }

  /** The sweep switches off exactly the caught rows and touches nothing else. */
  lemma SweepDisablesExactly(cs: seq<Client>, now: int, i: nat)
    requires DistinctIds(cs) && i < |cs|
    ensures |DisableAll(cs, ByUser(cs, now))| == |cs|
    ensures DisableAll(cs, ByUser(cs, now))[i] == if Caught(cs, cs[i], now) then cs[i].(enabled := false) else cs[i]
  {
    var ds := ByUser(cs, now);
    ByUserIsExact(cs, now);
    CaughtInLists(cs, cs, now);
    DisabledRow(cs, ds, i);
    if Caught(cs, cs[i], now) {
      var d := AsDecision(cs, cs[i], now);
      assert d in multiset(CaughtIn(cs, cs, now));
      assert d in ds;
      var k :| 0 <= k < |ds| && ds[k] == d;
      assert ds[k].clientId == cs[i].id;
    } else {
      forall k | 0 <= k < |ds|
        ensures ds[k].clientId != cs[i].id
      {
        assert ds[k] in multiset(ds);
        assert ds[k] in CaughtIn(cs, cs, now);
        var j :| 0 <= j < |cs| && Caught(cs, cs[j], now) && ds[k] == AsDecision(cs, cs[j], now);
        assert j != i;
      }
    }
  }

  /** Aggregates but for the enabled flag. */
  predicate SameLimits(a: Agg, b: Agg) {
    a.used == b.used && a.quota == b.quota && a.expiry == b.expiry
  }

  lemma {:induction false} LimitsSurvive(cs: seq<Client>, after: seq<Client>, email: string)
    requires |cs| == |after|
    requires forall i :: 0 <= i < |cs| ==> after[i] == cs[i].(enabled := after[i].enabled)
    ensures SameLimits(UserAgg(cs, email), UserAgg(after, email))
  {
    if cs != [] {
      LimitsSurvive(cs[..|cs| - 1], after[..|cs| - 1], email);
    }
  }

  lemma {:induction false} EnabledMember(cs: seq<Client>, email: string)
    ensures UserAgg(cs, email).anyEnabled <==> exists i :: 0 <= i < |cs| && cs[i].email == email && cs[i].enabled
  {
    if cs != [] {
      var n := |cs| - 1;
      EnabledMember(cs[..n], email);
      if i :| 0 <= i < |cs| && cs[i].email == email && cs[i].enabled {
        if i < n {
          assert cs[..n][i] == cs[i];
        }
      }
      if i :| 0 <= i < n && cs[..n][i].email == email && cs[..n][i].enabled {
        assert cs[i].enabled;
      }
    }
  }

  function AfterSweep(cs: seq<Client>, now: int): seq<Client> {
    DisableAll(cs, ByUser(cs, now))
  }

  /** After a sweep no user past its cap or expiry has an enabled client. */
  lemma SweepLeavesNobody(cs: seq<Client>, now: int, email: string)
    requires DistinctIds(cs)
    ensures var a := UserAgg(AfterSweep(cs, now), email);
            a.anyEnabled ==> ReasonFor(a, now).None?
  {
    var after := AfterSweep(cs, now);
    if cs == [] {
      ByUserIsExact(cs, now);
      assert |multiset(ByUser(cs, now))| == 0;
    } else {
      SweepDisablesExactly(cs, now, 0);
      forall i | 0 <= i < |cs|
        ensures after[i] == if Caught(cs, cs[i], now) then cs[i].(enabled := false) else cs[i]
      {
        SweepDisablesExactly(cs, now, i);
      }
      LimitsSurvive(cs, after, email);
      EnabledMember(after, email);
    }
  }

  /** A second sweep at the same instant finds nothing. */
  lemma SweepIsFixpoint(cs: seq<Client>, now: int)
    requires DistinctIds(cs)
    ensures ByUser(AfterSweep(cs, now), now) == []
  {
    var after := AfterSweep(cs, now);
    NothingToDecide(cs, now, Order(after));
  }

  lemma {:induction false} NothingToDecide(cs: seq<Client>, now: int, emails: seq<string>)
    requires DistinctIds(cs)
    ensures DecideUsers(AfterSweep(cs, now), emails, now) == []
  {
    if emails != [] {
      NothingToDecide(cs, now, emails[..|emails| - 1]);
      SweepLeavesNobody(cs, now, emails[|emails| - 1]);
    }
  }

  /** Warnings never repeat what enforcement has done: at the instant of the sweep they
      report only quotas short of 100% and expiries still to come. */
  lemma WarningsAreEarly(cs: seq<Client>, now: int, email: string, pct: int, days: int)
    requires DistinctIds(cs)
    ensures var p := QuotaWarning(AfterSweep(cs, now), email, pct); p.Some? ==> p.value < 100
    ensures var left := ExpiryWarning(AfterSweep(cs, now), email, now, days); left.Some? ==> left.value > 0
  {
    SweepLeavesNobody(cs, now, email);
    var a := UserAgg(AfterSweep(cs, now), email);
    if a.quota > 0 && 0 <= a.used < a.quota {
      Percent(a.used, a.quota);
    } else if a.quota > 0 && a.used < 0 {
      assert -a.used * 100 / a.quota >= 0;
    }
  }

  /** A user is warned of its cap exactly when it is switched on and has used the given share
      of its largest cap, 90 hundredths unless set; of its expiry exactly when it is switched on
      and its last expiry is still to come within the days given, a week unless set. */
  lemma WarnsExactly(cs: seq<Client>, email: string, now: int, pct: int, days: int)
    ensures var (a, share) := (UserAgg(cs, email), if pct > 0 then pct else 90);
            QuotaWarning(cs, email, pct).Some? <==> a.anyEnabled && a.quota > 0 && 100 * a.used >= share * a.quota
    ensures var (a, window) := (UserAgg(cs, email), if days > 0 then days else 7);
            ExpiryWarning(cs, email, now, days)
            == if a.anyEnabled && a.expiry > 0 && 0 <= a.expiry - now <= window * 86400 then Common.Some(a.expiry - now) else Common.None
  {
    var a := UserAgg(cs, email);
    if a.quota > 0 {
      ShareReached(a.used * 100, a.quota, if pct > 0 then pct else 90);
      ShareReached(-a.used * 100, a.quota, 0);
    }
  }

  lemma ShareReached(used: int, quota: int, share: int)
    requires quota > 0
    ensures used / quota >= share <==> used >= share * quota
  {
    var q := used / quota;
    assert q * quota <= used < (q + 1) * quota;
    if q >= share {
      assert q * quota >= share * quota;
    } else {
      assert (q + 1) * quota <= share * quota;
    }
  }

  lemma Percent(used: int, quota: int)
    requires 0 <= used < quota
    ensures used * 100 / quota < 100
  {
    var q := used * 100 / quota;
    assert q * quota <= used * 100;
    assert q * quota < 100 * quota;
  }
}
