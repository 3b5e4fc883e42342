/** What the operations leave alone, and what one undoes of another. */
module InboundEffects {
  import opened Common
  import opened Addresses
  import opened Settings
  import opened Model
  import opened InboundTable
  import InboundRuns
  import InboundResults
  import SettingsLaws
  import AddressChange
  import Quota
  import QuotaLaws

  /** The row after is the row before with what the request names written over it. */
  predicate Writes(req: UpdateRequest, was: Inbound, now: Inbound) {
    && now.id == was.id && now.nodeId == was.nodeId && now.tag == was.tag && now.typ == was.typ
    && now.subscriptionHost == was.subscriptionHost && now.clients == was.clients
    && now.listen == req.listen.GetOr(was.listen) && now.port == req.port.GetOr(was.port)
    && now.network == req.network.GetOr(was.network) && now.remark == req.remark.GetOr(was.remark)
    && now.enabled == req.enabled.GetOr(was.enabled)
    && (req.advanced.None? && req.settings.None? ==> now.settings == was.settings)
  }

  lemma CandidateWrites(rows: seq<Inbound>, row: Inbound, req: UpdateRequest, certs: Certs, m: Mint)
    requires Candidate(rows, row, req, certs, m).Ok?
    ensures Writes(req, row, Candidate(rows, row, req, certs, m).value)
  {
    var patched := Patched(row, req);
    assert Writes(req.(advanced := None, settings := None), row, patched);
  }

  lemma SavedTouchesOne(t: Table, saved: Inbound, i: nat)
    requires InboundRuns.Keyed(t) && Exists(t.rows, saved.id) && i < |t.rows|
    ensures Saved(t.rows, saved)[i] == if t.rows[i] == Row(t.rows, saved.id) then saved else t.rows[i]
    ensures t.rows[i] == Row(t.rows, saved.id) <==> t.rows[i].id == saved.id
  {
    if t.rows[i].id == saved.id {
      InboundRuns.RowIs(t, i);
    }
  }

  /** An accepted update writes what it was asked to, keeps the row's identity and users,
      and touches no other row. */
  lemma UpdateTouchesOneRow(t: Table, id: nat, req: UpdateRequest, certs: Certs, m: Mint, i: nat)
    requires InboundRuns.Keyed(t) && Update(t, id, req, certs, m).1 == "" && i < |t.rows|
    ensures var after := Update(t, id, req, certs, m).0;
            && |after.rows| == |t.rows| && after.nextId == t.nextId && after.nextClient == t.nextClient
            && (if t.rows[i].id == id then Writes(req, t.rows[i], after.rows[i]) else after.rows[i] == t.rows[i])
  {
    InboundRuns.UpdateSaves(t, id, req, certs, m);
    CandidateWrites(t.rows, Row(t.rows, id), req, certs, m);
    SavedTouchesOne(t, Candidate(t.rows, Row(t.rows, id), req, certs, m).value, i);
  }

  lemma ChoiceKeepsSecrets(s: Fields, choice: string, certs: Certs, k: Key)
    requires k in SECRETS && WithCert(s, choice, certs).Ok?
    ensures Get(WithCert(s, choice, certs).value, k) == Get(s, k)
  {
  }

  lemma CertKeepsSecrets(typ: Protocol, req: UpdateRequest, existing: Fields, certs: Certs, m: Mint, k: Key)
    requires req.advanced.Some? && k in SECRETS && UpdateSettings(typ, req, existing, certs, m).Ok?
    ensures UpdatedSettings(typ, req.advanced.value, existing, m).Ok?
    ensures Get(UpdateSettings(typ, req, existing, certs, m).value, k) == Get(UpdatedSettings(typ, req.advanced.value, existing, m).value, k)
  {
    var filled := UpdatedSettings(typ, req.advanced.value, existing, m);
    if filled.Ok? && CertSelectable(typ) && Get(req.advanced.value, CertDomain).Str? {
      ChoiceKeepsSecrets(filled.value, req.advanced.value[CertDomain].s, certs, k);
    }
  }

  lemma CandidateKeepsSecrets(rows: seq<Inbound>, row: Inbound, req: UpdateRequest, certs: Certs, m: Mint, k: Key)
    requires Candidate(rows, row, req, certs, m).Ok? && req.advanced.Some? && !row.typ.OtherProtocol?
    requires k in SECRETS && SettingsLaws.Full(row.Fields(), k)
    ensures Get(Candidate(rows, row, req, certs, m).value.Fields(), k) == row.Fields()[k]
  {
    assert Patched(row, req).Fields() == row.Fields() && Patched(row, req).typ == row.typ;
    CertKeepsSecrets(row.typ, req, row.Fields(), certs, m, k);
    SettingsLaws.SecretsSurviveEdits(row.typ, req.advanced.value, row.Fields(), m, k);
    assert Candidate(rows, row, req, certs, m).value.settings == Json(UpdateSettings(row.typ, req, row.Fields(), certs, m).value);
  }

  /** No accepted edit of the form alters a secret the row holds. */
  lemma UpdateKeepsSecrets(t: Table, id: nat, req: UpdateRequest, certs: Certs, m: Mint, k: Key)
    requires InboundRuns.Keyed(t) && Update(t, id, req, certs, m).1 == "" && req.advanced.Some?
    requires !Row(t.rows, id).typ.OtherProtocol?
    requires k in SECRETS && SettingsLaws.Full(Row(t.rows, id).Fields(), k)
    ensures var after := Update(t, id, req, certs, m).0.rows;
            Exists(after, id) && Get(Row(after, id).Fields(), k) == Row(t.rows, id).Fields()[k]
  {
    InboundRuns.UpdateSaves(t, id, req, certs, m);
    CandidateKeepsSecrets(t.rows, Row(t.rows, id), req, certs, m, k);
    InboundRuns.SavedRow(t, Candidate(t.rows, Row(t.rows, id), req, certs, m).value, id);
  }

  /** Moving the tunnel touches the new origin and the old one only. */
  lemma SwitchTouchesTwoRows(t: Table, node: nat, id: nat, tunnel: Tunnel, done: bool, uuid: nat -> string, i: nat)
    requires i < |t.rows|
    requires t.rows[i].id != id && HolderOf(t.rows, node) != Some(t.rows[i]) && InboundRuns.Inv(t)
    ensures var after := SetOrigin(t, node, id, tunnel, done, uuid).0;
            |after.rows| == |t.rows| && after.rows[i] == t.rows[i]
  {
    var current := HolderOf(t.rows, node);
    if current.Some? && current.value.id == t.rows[i].id {
      InboundRuns.HolderHolds(t, node, current.value);
      InboundRuns.RowIs(t, i);
    }
  }

  lemma LastUndone(t: Table, row: Inbound)
    requires InboundRuns.Keyed(t) && row.id == t.nextId
    ensures Without(t.rows + [row], row.id) == t.rows
  {
    var rows := t.rows + [row];
    assert rows[|t.rows|] == row && forall i :: 0 <= i < |t.rows| ==> rows[i] == t.rows[i];
    InboundRuns.WithoutOne(rows, |t.rows|);
    assert rows[..|t.rows|] + rows[|t.rows| + 1..] == t.rows;
  }

  /** Deleting an inbound just created leaves the rows as they were before. */
  lemma DeleteUndoesCreate(t: Table, node: nat, req: CreateRequest, m: Mint)
    requires InboundRuns.Keyed(t) && Create(t, node, req, m).1 == ""
    ensures Delete(Create(t, node, req, m).0, t.nextId).rows == t.rows
  {
    InboundRuns.CreateGated(t, node, req, m);
    LastUndone(t, NewRow(t, node, req, CreateSettings(req, m).value));
  }

  // ---- Users keep their limits ----

  lemma {:induction false} AllClientsSplit(a: seq<Inbound>, b: seq<Inbound>)
    ensures AllClients(a + b) == AllClients(a) + AllClients(b)
  {
    if b == [] {
      assert a + b == a;
    } else {
      assert (a + b)[..|a + b| - 1] == a + b[..|b| - 1];
      AllClientsSplit(a, b[..|b| - 1]);
    }
  }

  lemma ClientsAround(rows: seq<Inbound>, k: nat, row: Inbound)
    requires k < |rows|
    ensures AllClients(rows[k := row]) == AllClients(rows[..k]) + row.clients + AllClients(rows[k + 1..])
  {
    assert rows[k := row] == rows[..k] + [row] + rows[k + 1..];
    AllClientsSplit(rows[..k] + [row], rows[k + 1..]);
    AllClientsSplit(rows[..k], [row]);
    assert AllClients([row]) == row.clients by { assert [row][..0] == []; }
  }

  lemma SavedAt(t: Table, row: Inbound) returns (k: nat)
    requires InboundRuns.Keyed(t) && Exists(t.rows, row.id)
    ensures k < |t.rows| && t.rows[k] == Row(t.rows, row.id) && Saved(t.rows, row) == t.rows[k := row]
  {
    k := InboundRuns.IndexOfRow(t.rows, row.id);
    InboundRuns.RowIs(t, k);
  }

  /** What a user's credentials among all the rows add up to. */
  function Standing(rows: seq<Inbound>, email: string): Quota.Agg {
    Quota.UserAgg(AllClients(rows), email)
  }

  /** Credentials without traffic and within what their users have already. */
  ghost predicate Within(added: seq<Client>, rows: seq<Inbound>, email: string) {
    var (a, user) := (Quota.UserAgg(added, email), Standing(rows, email));
    a.used == 0 && a.quota <= user.quota && a.expiry <= user.expiry && (a.anyEnabled ==> user.anyEnabled)
  }

  lemma AggAround(a: seq<Client>, mid: seq<Client>, b: seq<Client>, email: string)
    ensures Quota.UserAgg(a + mid + b, email)
         == QuotaLaws.Join(QuotaLaws.Join(Quota.UserAgg(a, email), Quota.UserAgg(mid, email)), Quota.UserAgg(b, email))
  {
    QuotaLaws.AggSplits(a, mid, email);
    QuotaLaws.AggSplits(a + mid, b, email);
  }

  lemma AddingWithin(t: Table, row: Inbound, added: seq<Client>, email: string)
    requires InboundRuns.Keyed(t) && Exists(t.rows, row.id)
    requires row.clients == Row(t.rows, row.id).clients + added && Within(added, t.rows, email)
    ensures Standing(Saved(t.rows, row), email) == Standing(t.rows, email)
  {
    var k := SavedAt(t, row);
    AddingAt(t.rows, k, row, added, email);
  }

  lemma AddingAt(rows: seq<Inbound>, k: nat, row: Inbound, added: seq<Client>, email: string)
    requires k < |rows| && row.clients == rows[k].clients + added && Within(added, rows, email)
    ensures Standing(rows[k := row], email) == Standing(rows, email)
  {
    var (a, b) := (AllClients(rows[..k]), AllClients(rows[k + 1..]));
    ClientsAround(rows, k, row);
    assert AllClients(rows) == a + rows[k].clients + b by {
      ClientsAround(rows, k, rows[k]);
      assert rows[k := rows[k]] == rows;
    }
    AggAround(a, rows[k].clients, b, email);
    AggAround(a, row.clients, b, email);
    QuotaLaws.AggSplits(rows[k].clients, added, email);
    JoinWithin(Quota.UserAgg(a, email), Quota.UserAgg(rows[k].clients, email), Quota.UserAgg(added, email), Quota.UserAgg(b, email));
  }

  lemma JoinWithin(a: Quota.Agg, mid: Quota.Agg, more: Quota.Agg, b: Quota.Agg)
    requires var user := QuotaLaws.Join(QuotaLaws.Join(a, mid), b);
             more.used == 0 && more.quota <= user.quota && more.expiry <= user.expiry && (more.anyEnabled ==> user.anyEnabled)
    ensures QuotaLaws.Join(QuotaLaws.Join(a, QuotaLaws.Join(mid, more)), b) == QuotaLaws.Join(QuotaLaws.Join(a, mid), b)
  {
  }

  lemma {:induction false} NewClientsWithin(rows: seq<Inbound>, target: Inbound, emails: seq<string>, next: nat, uuid: nat -> string, email: string)
    ensures Within(NewClients(rows, target, emails, next, uuid), rows, email)
  {
    QuotaLaws.AggBounds(AllClients(rows), email);
    if emails == [] {
      assert NewClients(rows, target, emails, next, uuid) == [];
    } else {
      var n := |emails| - 1;
      NewClientsWithin(rows, target, emails[..n], next, uuid, email);
      var made := NewClients(rows, target, emails, next, uuid);
      assert made[..n] == NewClients(rows, target, emails[..n], next, uuid);
      assert made[n] == NewClient(rows, target, emails[n], next + n, uuid(n));
    }
  }

  lemma SameUsersSameStanding(t: Table, row: Inbound)
    requires InboundRuns.Keyed(t) && Exists(t.rows, row.id) && row.clients == Row(t.rows, row.id).clients
    ensures AllClients(Saved(t.rows, row)) == AllClients(t.rows)
  {
    var k := SavedAt(t, row);
    ClientsAround(t.rows, k, row);
    ClientsAround(t.rows, k, t.rows[k]);
    assert t.rows[k := t.rows[k]] == t.rows;
  }

  /** Moving the tunnel changes nobody's traffic, cap or expiry, switches no user back on
      and none off: enforcement sees every user as before. */
  lemma SwitchKeepsEveryLimit(t: Table, node: nat, id: nat, tunnel: Tunnel, done: bool, uuid: nat -> string, email: string)
    requires InboundRuns.Inv(t)
    ensures Standing(SetOrigin(t, node, id, tunnel, done, uuid).0.rows, email) == Standing(t.rows, email)
  {
    if SetOrigin(t, node, id, tunnel, done, uuid).0 != t {
      InboundRuns.SwitchCases(t, node, id, tunnel, done, uuid);
      PointingKeepsEveryLimit(t, Row(t.rows, id), HolderOf(t.rows, node), uuid, email);
    }
  }

  lemma PointingKeepsEveryLimit(t: Table, target: Inbound, current: Option<Inbound>, uuid: nat -> string, email: string)
    requires InboundRuns.Inv(t) && Exists(t.rows, target.id) && target == Row(t.rows, target.id)
    requires current == HolderOf(t.rows, target.nodeId)
    ensures Standing(Pointed(t, target, current, uuid).rows, email) == Standing(t.rows, email)
  {
    if current.None? || current.value.id == target.id {
      SameUsersSameStanding(t, AsOrigin(target));
    } else {
      var h := current.value;
      var row := NewOrigin(t, target, h, uuid);
      var added := NewClients(t.rows, target, Missing(h.clients, target.clients), t.nextClient, uuid);
      InboundRuns.HolderHolds(t, target.nodeId, h);
      NewClientsWithin(t.rows, target, Missing(h.clients, target.clients), t.nextClient, uuid, email);
      AddingWithin(t, row, added, email);
      InboundRuns.SavedRow(t, row, h.id);
      SameUsersSameStanding(t.(rows := Saved(t.rows, row)), Released(h));
    }
  }

  lemma {:induction false} AggWithin(cs: seq<Client>, email: string, user: Quota.Agg)
    requires user.quota >= 0 && user.expiry >= 0
    requires forall c :: c in cs && c.email == email ==>
                           && c.trafficUp == 0 && c.trafficDown == 0 && c.quotaBytes <= user.quota && c.expiryAt <= user.expiry
                           && (c.enabled ==> user.anyEnabled)
    ensures var a := Quota.UserAgg(cs, email);
            a.used == 0 && a.quota <= user.quota && a.expiry <= user.expiry && (a.anyEnabled ==> user.anyEnabled)
  {
    if cs != [] {
      AggWithin(cs[..|cs| - 1], email, user);
    }
  }

  lemma {:induction false} AggCovers(cs: seq<Client>, c: Client)
    requires c in cs
    ensures var a := Quota.UserAgg(cs, c.email);
            c.quotaBytes <= a.quota && c.expiryAt <= a.expiry && (c.enabled ==> a.anyEnabled)
  {
    var n := |cs| - 1;
    if c != cs[n] {
      AggCovers(cs[..n], c);
    }
  }

  lemma {:induction false} ClientsOfAreAll(rows: seq<Inbound>, node: nat, c: Client)
    requires c in ClientsOf(rows, node)
    ensures c in AllClients(rows)
  {
    if rows != [] {
      assert rows == [rows[0]] + rows[1..];
      AllClientsSplit([rows[0]], rows[1..]);
      assert AllClients([rows[0]]) == rows[0].clients by { assert [rows[0]][..0] == []; }
      if c !in rows[0].clients {
        ClientsOfAreAll(rows[1..], node, c);
      }
    }
  }

  lemma {:induction false} FirstIsThere(cs: seq<Client>, email: string)
    ensures InboundResults.FirstOf(cs, email).Some? ==>
              InboundResults.FirstOf(cs, email).value in cs && InboundResults.FirstOf(cs, email).value.email == email
  {
    if cs != [] {
      FirstIsThere(cs[1..], email);
    }
  }

  /** The CDN node's set-up gives every user a credential, and nobody a larger cap, a later
      expiry or access a sweep took away. */
  lemma EdgeKeepsEveryLimit(t: Table, node: nat, draw: EdgeDraw, email: string)
    ensures Standing(EnsureEdge(t, node, draw).0.rows, email) == Standing(t.rows, email)
  {
    var after := EnsureEdge(t, node, draw).0;
    if after != t {
      InboundResults.EdgeServesEveryUser(t, node, draw);
      var made := after.rows[|t.rows|].clients;
      EdgeClientsWithin(t, node, draw, email);
      assert after.rows == t.rows + [after.rows[|t.rows|]];
      assert AllClients(after.rows) == AllClients(t.rows) + made by {
        assert after.rows[..|after.rows| - 1] == t.rows;
      }
      QuotaLaws.AggSplits(AllClients(t.rows), made, email);
      QuotaLaws.AggBounds(AllClients(t.rows), email);
    }
  }

  lemma EdgeClientsWithin(t: Table, node: nat, draw: EdgeDraw, email: string)
    requires EnsureEdge(t, node, draw).0 != t
    ensures var after := EnsureEdge(t, node, draw).0;
            |after.rows| > |t.rows| && Within(after.rows[|t.rows|].clients, t.rows, email)
  {
    var cs := ClientsOf(t.rows, node);
    InboundResults.EdgeServesEveryUser(t, node, draw);
    var made := EnsureEdge(t, node, draw).0.rows[|t.rows|].clients;
    QuotaLaws.AggBounds(AllClients(t.rows), email);
    forall c | c in made && c.email == email
      ensures var user := Standing(t.rows, email);
              && c.trafficUp == 0 && c.trafficDown == 0 && c.quotaBytes <= user.quota && c.expiryAt <= user.expiry
              && (c.enabled ==> user.anyEnabled)
    {
      var i :| 0 <= i < |made| && made[i] == c;
      var first := InboundResults.FirstOf(cs, email).value;
      FirstIsThere(cs, email);
      ClientsOfAreAll(t.rows, node, first);
      AggCovers(AllClients(t.rows), first);
    }
    AggWithin(made, email, Standing(t.rows, email));
  }

  // ---- Following an address change ----

  /** A change is followed by all of the node's rows or by none: if no two of the moved rows
      would listen on one socket, the old address is nowhere left on the node and nothing but
      addresses changes; otherwise the table is as it was. */
  lemma ChangeMovesAllOrNone(t: Table, node: nat, ch: AddressChange.AddrChange, i: nat)
    requires ch.oldIP != ch.newIP && i < |t.rows|
    ensures var after := ApplyChange(t, node, ch);
            && after.nextId == t.nextId && after.nextClient == t.nextClient && |after.rows| == |t.rows|
            && (Collides(MovedRows(t.rows, node, ch)) ==> after == t)
            && after.rows[i] == t.rows[i].(listen := after.rows[i].listen, subscriptionHost := after.rows[i].subscriptionHost)
            && (t.rows[i].nodeId != node ==> after.rows[i] == t.rows[i])
            && (t.rows[i].nodeId == node && !Collides(MovedRows(t.rows, node, ch)) ==>
                  Follows(t.rows[i].listen, after.rows[i].listen, ch) && Follows(t.rows[i].subscriptionHost, after.rows[i].subscriptionHost, ch))
  {
  }

  /** Where the text was the old address it is the new one, and only there it changed. */
  predicate Follows(was: Text, now: Text, ch: AddressChange.AddrChange) {
    && now != Canonical(ch.oldIP)
    && (was == Canonical(ch.oldIP) ==> now == Canonical(ch.newIP))
    && (was != Canonical(ch.oldIP) ==> now == was)
  }
}
