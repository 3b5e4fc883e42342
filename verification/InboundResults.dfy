/** Two operations on the whole table: the CDN node reaches every user, and following
    an address change settles. */
module InboundResults {
  import opened Common
  import opened Addresses
  import opened AddressChange
  import opened Model
  import opened InboundTable

  // ---- One credential per user ----

  function FirstOf(cs: seq<Client>, email: string): Option<Client> {
    if cs == [] then None else if cs[0].email == email then Some(cs[0]) else FirstOf(cs[1..], email)
  }

  /** The first UUID any of the user's credentials carries, "" if none does. */
  function FirstUuid(cs: seq<Client>, email: string): string {
    if cs == [] then "" else if cs[0].email == email && cs[0].uuid != "" then cs[0].uuid else FirstUuid(cs[1..], email)
  }

  lemma {:induction false} FirstAppend(cs: seq<Client>, c: Client, email: string)
    ensures FirstOf(cs + [c], email) == if FirstOf(cs, email).Some? then FirstOf(cs, email) else if c.email == email then Some(c) else None
    ensures FirstUuid(cs + [c], email) == if FirstUuid(cs, email) != "" then FirstUuid(cs, email) else if c.email == email then c.uuid else ""
    ensures FirstOf(cs, email).None? ==> FirstUuid(cs, email) == ""
  {
    if cs == [] {
      assert FirstOf([c][1..], email) == None && FirstUuid([c][1..], email) == "";
    } else {
      assert (cs + [c])[1..] == cs[1..] + [c];
      FirstAppend(cs[1..], c, email);
    }
  }

  /** Seed k stands for its user among cs. */
  ghost predicate Stands(seeds: seq<Client>, k: int, cs: seq<Client>)
    requires 0 <= k < |seeds|
  {
    var e := seeds[k].email;
    e != "" && FirstOf(cs, e).Some? && seeds[k] == FirstOf(cs, e).value.(uuid := FirstUuid(cs, e))
  }

  ghost predicate OnePerUser(seeds: seq<Client>, cs: seq<Client>) {
    && (forall i, j :: 0 <= i < j < |seeds| ==> seeds[i].email != seeds[j].email)
    && (forall k :: 0 <= k < |seeds| ==> Stands(seeds, k, cs))
    && (forall e :: e != "" && FirstOf(cs, e).Some? ==> IndexOf(seeds, e).Some?)
  }

  /** The emails stay, and at most c's own is added. */
  lemma SeededEmails(seeds: seq<Client>, c: Client)
    ensures var out := Seeded(seeds, c);
            && |seeds| <= |out| && (forall k :: 0 <= k < |seeds| ==> out[k].email == seeds[k].email)
            && (|out| == |seeds| || (out == seeds + [c] && IndexOf(seeds, c.email).None?))
            && (c.email != "" && IndexOf(seeds, c.email).None? ==> out == seeds + [c])
  {
    IndexFinds(seeds, c.email);
  }

  lemma SeededStands(seeds: seq<Client>, cs: seq<Client>, c: Client)
    requires OnePerUser(seeds, cs)
    ensures OnePerUser(Seeded(seeds, c), cs + [c])
  {
    var out := Seeded(seeds, c);
    SeededEmails(seeds, c);
    IndexFinds(seeds, c.email);
    forall k | 0 <= k < |out|
      ensures Stands(out, k, cs + [c])
    {
      SeedStands(seeds, cs, c, k);
    }
    forall e | e != "" && FirstOf(cs + [c], e).Some?
      ensures IndexOf(out, e).Some?
    {
      SeedFound(seeds, cs, c, e);
    }
  }

  lemma SeedStands(seeds: seq<Client>, cs: seq<Client>, c: Client, k: nat)
    requires OnePerUser(seeds, cs) && k < |Seeded(seeds, c)|
    ensures Stands(Seeded(seeds, c), k, cs + [c])
  {
    SeededEmails(seeds, c);
    IndexFinds(seeds, c.email);
    FirstAppend(cs, c, Seeded(seeds, c)[k].email);
    if k < |seeds| {
      assert Stands(seeds, k, cs);
    }
  }

  lemma SeedFound(seeds: seq<Client>, cs: seq<Client>, c: Client, e: string)
    requires OnePerUser(seeds, cs) && e != "" && FirstOf(cs + [c], e).Some?
    ensures IndexOf(Seeded(seeds, c), e).Some?
  {
    var out := Seeded(seeds, c);
    SeededEmails(seeds, c);
    FirstAppend(cs, c, e);
    IndexFinds(seeds, e);
    IndexFinds(out, e);
    if IndexOf(seeds, e).Some? {
      assert out[IndexOf(seeds, e).value].email == e;
    } else {
      assert out[|seeds|].email == e;
    }
  }

  lemma {:induction false} SeedsStand(cs: seq<Client>)
    ensures OnePerUser(Seeds(cs), cs)
  {
    if cs != [] {
      var n := |cs| - 1;
      SeedsStand(cs[..n]);
      SeededStands(Seeds(cs[..n]), cs[..n], cs[n]);
      assert cs[..n] + [cs[n]] == cs;
    }
  }

  /** The CDN node the setup creates holds exactly one credential for every user with a
      name on the node, with a UUID the user already has where there is one, and the
      limits of the user's first credential. */
  lemma EdgeServesEveryUser(t: Table, node: nat, draw: EdgeDraw)
    requires EnsureEdge(t, node, draw).0 != t
    ensures var after := EnsureEdge(t, node, draw).0;
            var cs := ClientsOf(t.rows, node);
            && |after.rows| == |t.rows| + 1 && after.rows[..|t.rows|] == t.rows
            && var made := after.rows[|t.rows|].clients;
            && (forall i, j :: 0 <= i < j < |made| ==> made[i].email != made[j].email)
            && (forall e :: e != "" && FirstOf(cs, e).Some? ==> IndexOf(made, e).Some?)
            && (forall i :: 0 <= i < |made| ==>
                              && FirstOf(cs, made[i].email).Some?
                              && made[i].uuid == (if FirstUuid(cs, made[i].email) != "" then FirstUuid(cs, made[i].email) else draw.uuid(i))
                              && made[i].id == t.nextClient + i && made[i].trafficUp == 0 && made[i].trafficDown == 0
                              && made[i].quotaBytes == FirstOf(cs, made[i].email).value.quotaBytes
                              && made[i].expiryAt == FirstOf(cs, made[i].email).value.expiryAt
                              && made[i].enabled == FirstOf(cs, made[i].email).value.enabled)
  {
    var cs := ClientsOf(t.rows, node);
    var seeds := Seeds(cs);
    SeedsStand(cs);
    var made := EdgeClients(seeds, t.nextClient, draw.uuid);
    forall i | 0 <= i < |made|
      ensures made[i].email == seeds[i].email && Stands(seeds, i, cs)
    {
    }
    forall e | e != "" && FirstOf(cs, e).Some?
      ensures IndexOf(made, e).Some?
    {
      IndexFinds(seeds, e);
      IndexFinds(made, e);
      assert made[IndexOf(seeds, e).value].email == e;
    }
  }

  // ---- Healing settles ----

  lemma {:induction false} ListensMoved(rows: seq<Inbound>, node: nat, ch: AddrChange)
    ensures Listens(MovedRows(rows, node, ch), node) == MovedAll(Listens(rows, node), ch)
  {
    if rows != [] {
      ListensMoved(rows[1..], node, ch);
      MovedRowsSplit(rows, node, ch);
      var rest := Listens(rows[1..], node);
      if rows[0].nodeId == node {
        MovedAllSplit(rows[0].listen, rest, ch);
      } else {
        assert [] + rest == rest;
      }
    }
  }

  lemma MovedRowsSplit(rows: seq<Inbound>, node: nat, ch: AddrChange)
    requires rows != []
    ensures MovedRows(rows, node, ch) == [InboundTable.Moved(rows[0], node, ch)] + MovedRows(rows[1..], node, ch)
  {
  }

  lemma MovedAllSplit(l: Text, rest: seq<Text>, ch: AddrChange)
    ensures MovedAll([l] + rest, ch) == [AddressChange.Moved(l, ch)] + MovedAll(rest, ch)
  {
  }

  ghost predicate AllCanonical(listens: seq<Text>) {
    forall i :: 0 <= i < |listens| && listens[i].Literal? ==> listens[i].spelling == 0
  }

  function SwappedAll(list: seq<Text>, chs: seq<AddrChange>): seq<Text>
    decreases |chs|
  {
    if chs == [] then list else SwappedAll(Swapped(list, chs[0]), chs[1..])
  }

  /** Two texts lists know the same addresses of a family. */
  ghost predicate KnowAlike(a: seq<Text>, b: seq<Text>, v4: bool) {
    forall ip :: InFamily(ip, v4) ==> Knows(a, ip) == Knows(b, ip)
  }

  lemma SwapsKnowAlike(k4: seq<Text>, k6: seq<Text>, ch: AddrChange, v4: bool)
    requires InFamily(ch.oldIP, !v4) && InFamily(ch.newIP, !v4) && ch.oldIP != ch.newIP
    ensures KnowAlike(k4 + k6, Swapped(k4, ch) + Swapped(k6, ch), v4)
  {
    SwapReplaces(k4, ch);
    SwapReplaces(k6, ch);
    forall ip | InFamily(ip, v4)
      ensures Knows(k4 + k6, ip) == Knows(Swapped(k4, ch) + Swapped(k6, ch), ip)
    {
      KnowsAppend(k4, k6, ip);
      KnowsAppend(Swapped(k4, ch), Swapped(k6, ch), ip);
      SameKnown(k4, Swapped(k4, ch), ip);
      SameKnown(Swapped(k4, ch), k4, ip);
      SameKnown(k6, Swapped(k6, ch), ip);
      SameKnown(Swapped(k6, ch), k6, ip);
    }
  }

  lemma KnowsAppend(a: seq<Text>, b: seq<Text>, ip: IP)
    ensures Knows(a + b, ip) <==> Knows(a, ip) || Knows(b, ip)
  {
    var c := a + b;
    if i :| 0 <= i < |a| && a[i].Literal? && a[i].ip == ip {
      assert c[i] == a[i];
    }
    if i :| 0 <= i < |b| && b[i].Literal? && b[i].ip == ip {
      assert c[|a| + i] == b[i];
    }
    if i :| 0 <= i < |c| && c[i].Literal? && c[i].ip == ip {
      assert if i < |a| then a[i] == c[i] else b[i - |a|] == c[i];
    }
  }

  /** What one applied change does to both families' plans. */
  lemma ChangeSettles(listens: seq<Text>, local: seq<IP>, k4: seq<Text>, k6: seq<Text>, v4: bool, ch: AddrChange)
    requires ch in FamilyPlan(listens, local, k4 + k6, v4) && AllCanonical(listens)
    ensures AllCanonical(MovedAll(listens, ch))
    ensures Lost(MovedAll(listens, ch), local, v4) == []
    ensures FamilyPlan(MovedAll(listens, ch), local, Swapped(k4, ch) + Swapped(k6, ch), !v4) == FamilyPlan(listens, local, k4 + k6, !v4)
    ensures Lost(MovedAll(listens, ch), local, !v4) == Lost(listens, local, !v4)
  {
    PlannedChangeIsSound(listens, local, k4 + k6, v4, ch);
    FamilyHealed(listens, local, k4 + k6, v4, ch);
    LostElsewhere(listens, local, !v4, ch);
    SwapsKnowAlike(k4, k6, ch, !v4);
    PublicIsPublic(local, k4 + k6, !v4);
    UnknownSame(Public(local, !v4), k4 + k6, Swapped(k4, ch) + Swapped(k6, ch), !v4);
  }

  /** The listen texts after a change that clashes with nothing. */
  lemma ChangeApplied(t: Table, node: nat, ch: AddrChange)
    requires !Collides(MovedRows(t.rows, node, ch))
    ensures Listens(ApplyChange(t, node, ch).rows, node) == MovedAll(Listens(t.rows, node), ch)
  {
    ListensMoved(t.rows, node, ch);
  }

  /** One planned change heals its family exactly when it clashes with nothing and every row
      of the node that listened on the lost address spelled it canonically. */
  lemma ChangeHealsExactly(t: Table, node: nat, local: seq<IP>, known: seq<Text>, v4: bool, ch: AddrChange)
    requires ch in FamilyPlan(Listens(t.rows, node), local, known, v4)
    ensures var listens := Listens(t.rows, node);
            Lost(Listens(ApplyChange(t, node, ch).rows, node), local, v4) == []
            <==> !Collides(MovedRows(t.rows, node, ch))
                 && forall i :: 0 <= i < |listens| && listens[i].Literal? && listens[i].ip == ch.oldIP ==> listens[i].spelling == 0
  {
    ListensMoved(t.rows, node, ch);
    FamilyHealed(Listens(t.rows, node), local, known, v4, ch);
  }

  lemma OneHealed(t: Table, node: nat, local: seq<IP>, k4: seq<Text>, k6: seq<Text>, v4: bool, ch: AddrChange)
    requires var listens := Listens(t.rows, node);
             AllCanonical(listens) && ch in FamilyPlan(listens, local, k4 + k6, v4) && FamilyPlan(listens, local, k4 + k6, !v4) == []
    requires !Collides(MovedRows(t.rows, node, ch))
    ensures Plan(Listens(ApplyChange(t, node, ch).rows, node), local, Swapped(k4, ch) + Swapped(k6, ch)) == []
  {
    ChangeApplied(t, node, ch);
    ChangeSettles(Listens(t.rows, node), local, k4, k6, v4, ch);
  }

  lemma TwoHealed(t: Table, node: nat, local: seq<IP>, k4: seq<Text>, k6: seq<Text>, c4: AddrChange, c6: AddrChange)
    requires var listens := Listens(t.rows, node);
             AllCanonical(listens) && c4 in FamilyPlan(listens, local, k4 + k6, true) && c6 in FamilyPlan(listens, local, k4 + k6, false)
    requires !Collides(MovedRows(t.rows, node, c4)) && !Collides(MovedRows(ApplyChange(t, node, c4).rows, node, c6))
    ensures Plan(Listens(ApplyChange(ApplyChange(t, node, c4), node, c6).rows, node), local,
                 Swapped(Swapped(k4, c4), c6) + Swapped(Swapped(k6, c4), c6)) == []
  {
    ChangeApplied(t, node, c4);
    ChangeSettles(Listens(t.rows, node), local, k4, k6, true, c4);
    OneHealed(ApplyChange(t, node, c4), node, local, Swapped(k4, c4), Swapped(k6, c4), false, c6);
  }

  /** With every listen address in canonical spelling and no clash of sockets, one heal
      is enough: with the host's list rewritten alongside, nothing is left to plan. */
  lemma HealSettles(t: Table, node: nat, local: seq<IP>, k4: seq<Text>, k6: seq<Text>)
    requires AllCanonical(Listens(t.rows, node))
    requires var chs := Plan(Listens(t.rows, node), local, k4 + k6);
             forall n :: 0 <= n < |chs| ==> !Collides(MovedRows(ApplyChanges(t, node, chs[..n]).rows, node, chs[n]))
    ensures var chs := Plan(Listens(t.rows, node), local, k4 + k6);
            Plan(Listens(Heal(t, node, local, k4 + k6).rows, node), local, SwappedAll(k4, chs) + SwappedAll(k6, chs)) == []
  {
    var listens := Listens(t.rows, node);
    var p4, p6 := FamilyPlan(listens, local, k4 + k6, true), FamilyPlan(listens, local, k4 + k6, false);
    var chs := Plan(listens, local, k4 + k6);
    if |chs| == 1 {
      assert chs[..0] == [] && chs == [chs[0]];
      assert !Collides(MovedRows(ApplyChanges(t, node, chs[..0]).rows, node, chs[0]));
      OneApplied(t, node, chs[0]);
      OneSwapped(k4, chs[0]);
      OneSwapped(k6, chs[0]);
      OneHealed(t, node, local, k4, k6, p6 == [], chs[0]);
    } else if |chs| == 2 {
      var c4, c6 := p4[0], p6[0];
      assert chs == [c4, c6] && chs[..0] == [] && chs[..1] == [c4];
      assert !Collides(MovedRows(ApplyChanges(t, node, chs[..0]).rows, node, chs[0]));
      assert !Collides(MovedRows(ApplyChanges(t, node, chs[..1]).rows, node, chs[1]));
      OneApplied(t, node, c4);
      TwoApplied(t, node, c4, c6);
      TwoSwapped(k4, c4, c6);
      TwoSwapped(k6, c4, c6);
      TwoHealed(t, node, local, k4, k6, c4, c6);
    }
  }

  lemma OneApplied(t: Table, node: nat, ch: AddrChange)
    ensures ApplyChanges(t, node, [ch]) == ApplyChange(t, node, ch)
  {
    assert [ch][1..] == [];
  }

  lemma TwoApplied(t: Table, node: nat, c: AddrChange, d: AddrChange)
    ensures ApplyChanges(t, node, [c, d]) == ApplyChange(ApplyChange(t, node, c), node, d)
  {
    assert [c, d][1..] == [d];
    OneApplied(ApplyChange(t, node, c), node, d);
  }

  lemma OneSwapped(list: seq<Text>, ch: AddrChange)
    ensures SwappedAll(list, [ch]) == Swapped(list, ch)
  {
    assert [ch][1..] == [];
  }

  lemma TwoSwapped(list: seq<Text>, c: AddrChange, d: AddrChange)
    ensures SwappedAll(list, [c, d]) == Swapped(Swapped(list, c), d)
  {
    assert [c, d][1..] == [d];
    OneSwapped(Swapped(list, c), d);
  }
}
