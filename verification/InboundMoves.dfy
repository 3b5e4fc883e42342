/** What a user gets on the new origin when the tunnel moves, and that every credential has
    an id of its own. */
module InboundMoves {
  import opened Common
  import opened Addresses
  import AddressChange
  import opened Settings
  import opened Model
  import opened InboundGates
  import opened InboundTable
  import InboundRuns
  import InboundEffects
  import Quota
  import QuotaLaws

  // ---- Credentials by id ----

  function IdsOf(cs: seq<Client>): multiset<nat> {
    if cs == [] then multiset{} else IdsOf(cs[..|cs| - 1]) + multiset{cs[|cs| - 1].id}
  }

  lemma {:induction false} IdsSplit(a: seq<Client>, b: seq<Client>)
    ensures IdsOf(a + b) == IdsOf(a) + IdsOf(b)
    decreases |b|
  {
    if b == [] {
      assert a + b == a;
    } else {
      assert (a + b)[..|a + b| - 1] == a + b[..|b| - 1];
      IdsSplit(a, b[..|b| - 1]);
    }
  }

  lemma {:induction false} IdIsListed(cs: seq<Client>, i: nat)
    requires i < |cs|
    ensures cs[i].id in IdsOf(cs)
  {
    if i < |cs| - 1 {
      IdIsListed(cs[..|cs| - 1], i);
    }
  }

  lemma {:induction false} OnceEachIsDistinct(cs: seq<Client>)
    requires forall id :: IdsOf(cs)[id] <= 1
    ensures QuotaLaws.DistinctIds(cs)
  {
    if cs != [] {
      var n := |cs| - 1;
      assert forall id :: IdsOf(cs[..n])[id] <= IdsOf(cs)[id];
      OnceEachIsDistinct(cs[..n]);
      forall i | 0 <= i < n
        ensures cs[i].id != cs[n].id
      {
        IdIsListed(cs[..n], i);
      }
    }
  }

  /** Ids lo to hi - 1 once each. */
  ghost predicate Numbered(ids: multiset<nat>, lo: nat, hi: nat) {
    forall id: nat :: ids[id] == if lo <= id < hi then 1 else 0
  }

  lemma {:induction false} ConsecutiveIds(cs: seq<Client>, next: nat)
    requires forall i :: 0 <= i < |cs| ==> cs[i].id == next + i
    ensures Numbered(IdsOf(cs), next, next + |cs|)
  {
    if cs != [] {
      ConsecutiveIds(cs[..|cs| - 1], next);
    }
  }

  /** Every credential has an id that was handed out, and no two have the same. */
  ghost predicate OwnIds(t: Table) {
    forall id: nat :: IdsOf(AllClients(t.rows))[id] <= if id < t.nextClient then 1 else 0
  }

  lemma AddedIds(t: Table, after: Table, a: seq<Client>, added: seq<Client>, b: seq<Client>)
    requires OwnIds(t) && AllClients(t.rows) == a + b && AllClients(after.rows) == a + added + b
    requires after.nextClient == t.nextClient + |added|
    requires forall i :: 0 <= i < |added| ==> added[i].id == t.nextClient + i
    ensures OwnIds(after)
  {
    ConsecutiveIds(added, t.nextClient);
    IdsSplit(a, b);
    IdsSplit(a + added, b);
    IdsSplit(a, added);
    assert forall id :: IdsOf(AllClients(after.rows))[id] == IdsOf(AllClients(t.rows))[id] + IdsOf(added)[id];
  }

  lemma {:induction false} SameClientsSameIds(rows: seq<Inbound>, after: seq<Inbound>)
    requires |after| == |rows| && forall i :: 0 <= i < |rows| ==> after[i].clients == rows[i].clients
    ensures AllClients(after) == AllClients(rows)
  {
    if rows != [] {
      SameClientsSameIds(rows[..|rows| - 1], after[..|rows| - 1]);
    }
  }

  lemma AppendOwns(t: Table, after: Table, row: Inbound)
    requires OwnIds(t) && after.rows == t.rows + [row] && after.nextClient == t.nextClient + |row.clients|
    requires forall i :: 0 <= i < |row.clients| ==> row.clients[i].id == t.nextClient + i
    ensures OwnIds(after)
  {
    assert after.rows[..|t.rows|] == t.rows;
    assert AllClients(t.rows) == AllClients(t.rows) + [];
    assert AllClients(after.rows) == AllClients(t.rows) + row.clients + [];
    AddedIds(t, after, AllClients(t.rows), row.clients, []);
  }

  lemma ReplaceOwns(t: Table, after: Table, k: nat, row: Inbound, added: seq<Client>)
    requires OwnIds(t) && k < |t.rows| && after.rows == t.rows[k := row] && row.clients == t.rows[k].clients + added
    requires after.nextClient == t.nextClient + |added|
    requires forall i :: 0 <= i < |added| ==> added[i].id == t.nextClient + i
    ensures OwnIds(after)
  {
    var (a, mid, b) := (AllClients(t.rows[..k]), t.rows[k].clients, AllClients(t.rows[k + 1..]));
    assert AllClients(after.rows) == (a + mid) + added + b by {
      InboundEffects.ClientsAround(t.rows, k, row);
      assert a + (mid + added) + b == (a + mid) + added + b;
    }
    assert AllClients(t.rows) == (a + mid) + b by {
      InboundEffects.ClientsAround(t.rows, k, t.rows[k]);
      assert t.rows[k := t.rows[k]] == t.rows;
    }
    AddedIds(t, after, a + mid, added, b);
  }

  lemma SaveOwns(t: Table, after: Table, row: Inbound, added: seq<Client>)
    requires OwnIds(t) && InboundRuns.Keyed(t) && Exists(t.rows, row.id)
    requires after.rows == Saved(t.rows, row) && row.clients == Row(t.rows, row.id).clients + added
    requires after.nextClient == t.nextClient + |added|
    requires forall i :: 0 <= i < |added| ==> added[i].id == t.nextClient + i
    ensures OwnIds(after)
  {
    var k := InboundEffects.SavedAt(t, row);
    ReplaceOwns(t, after, k, row, added);
  }

  lemma CutOwns(t: Table, k: nat)
    requires OwnIds(t) && k < |t.rows|
    ensures OwnIds(t.(rows := t.rows[..k] + t.rows[k + 1..]))
  {
    var (a, b) := (AllClients(t.rows[..k]), AllClients(t.rows[k + 1..]));
    InboundEffects.ClientsAround(t.rows, k, t.rows[k]);
    assert t.rows[k := t.rows[k]] == t.rows;
    InboundEffects.AllClientsSplit(t.rows[..k], t.rows[k + 1..]);
    IdsSplit(a, t.rows[k].clients);
    IdsSplit(a + t.rows[k].clients, b);
    IdsSplit(a, b);
    assert forall id :: IdsOf(a + b)[id] <= IdsOf(AllClients(t.rows))[id];
  }

  lemma UpdateOwns(t: Table, id: nat, req: UpdateRequest, certs: Certs, m: Mint)
    requires OwnIds(t) && InboundRuns.Inv(t)
    ensures OwnIds(Update(t, id, req, certs, m).0)
  {
    if Update(t, id, req, certs, m).1 == "" {
      InboundRuns.UpdateSaves(t, id, req, certs, m);
      var row := Candidate(t.rows, Row(t.rows, id), req, certs, m).value;
      assert row.clients == Row(t.rows, id).clients + [];
      SaveOwns(t, Update(t, id, req, certs, m).0, row, []);
    }
  }

  lemma DeleteOwns(t: Table, id: nat)
    requires OwnIds(t) && InboundRuns.Inv(t)
    ensures OwnIds(Delete(t, id))
  {
    InboundRuns.DeleteKeeps(t, id);
    if k :| 0 <= k < |t.rows| && t.rows[k].id == id && Delete(t, id).rows == t.rows[..k] + t.rows[k + 1..] {
      CutOwns(t, k);
    }
  }

  lemma MadeNumbered(rows: seq<Inbound>, target: Inbound, emails: seq<string>, next: nat, uuid: nat -> string)
    ensures var made := NewClients(rows, target, emails, next, uuid);
            |made| == |emails| && forall i :: 0 <= i < |made| ==> made[i].id == next + i
  {
    var made := NewClients(rows, target, emails, next, uuid);
    forall i | 0 <= i < |made| ensures made[i].id == next + i {
      assert made[i] == NewClient(rows, target, emails[i], next + i, uuid(i));
    }
  }

  lemma OriginOwns(t: Table, node: nat, id: nat, tunnel: Tunnel, done: bool, uuid: nat -> string)
    requires OwnIds(t) && InboundRuns.Inv(t)
    ensures OwnIds(SetOrigin(t, node, id, tunnel, done, uuid).0)
  {
    if SetOrigin(t, node, id, tunnel, done, uuid).0 != t {
      InboundRuns.SwitchCases(t, node, id, tunnel, done, uuid);
      PointingOwns(t, Row(t.rows, id), HolderOf(t.rows, node), uuid);
    }
  }

  lemma PointingOwns(t: Table, target: Inbound, current: Option<Inbound>, uuid: nat -> string)
    requires OwnIds(t) && InboundRuns.Inv(t) && Exists(t.rows, target.id) && target == Row(t.rows, target.id)
    requires current == HolderOf(t.rows, target.nodeId)
    ensures OwnIds(Pointed(t, target, current, uuid))
  {
    if current.None? || current.value.id == target.id {
      assert AsOrigin(target).clients == target.clients + [];
      SaveOwns(t, Pointed(t, target, current, uuid), AsOrigin(target), []);
    } else {
      SwitchOwns(t, target, current.value, uuid);
    }
  }

  lemma SwitchOwns(t: Table, target: Inbound, h: Inbound, uuid: nat -> string)
    requires OwnIds(t) && InboundRuns.Inv(t) && Exists(t.rows, target.id) && target == Row(t.rows, target.id)
    requires HolderOf(t.rows, target.nodeId) == Some(h) && h.id != target.id
    ensures OwnIds(Switched(t, target, h, uuid))
  {
    var row := NewOrigin(t, target, h, uuid);
    var added := NewClients(t.rows, target, Missing(h.clients, target.clients), t.nextClient, uuid);
    InboundRuns.HolderHolds(t, target.nodeId, h);
    var mid := Table(Saved(t.rows, row), t.nextId, t.nextClient + |added|);
    MadeNumbered(t.rows, target, Missing(h.clients, target.clients), t.nextClient, uuid);
    SaveOwns(t, mid, row, added);
    InboundRuns.SavedRow(t, row, h.id);
    assert Released(h).clients == h.clients + [];
    SaveOwns(mid, Switched(t, target, h, uuid), Released(h), []);
  }

  lemma EdgeOwns(t: Table, node: nat, draw: EdgeDraw)
    requires OwnIds(t)
    ensures OwnIds(EnsureEdge(t, node, draw).0)
  {
    if EnsureEdge(t, node, draw).0 != t {
      AppendOwns(t, EnsureEdge(t, node, draw).0, EdgeRow(t, node, draw));
    }
  }

  lemma {:induction false} ChangesOwn(t: Table, node: nat, chs: seq<AddressChange.AddrChange>)
    requires OwnIds(t)
    ensures OwnIds(ApplyChanges(t, node, chs))
    decreases |chs|
  {
    if chs != [] {
      SameClientsSameIds(t.rows, MovedRows(t.rows, node, chs[0]));
      ChangesOwn(ApplyChange(t, node, chs[0]), node, chs[1..]);
    }
  }

  lemma CreateOwns(t: Table, node: nat, req: CreateRequest, m: Mint)
    requires OwnIds(t)
    ensures OwnIds(Create(t, node, req, m).0)
  {
    if Create(t, node, req, m).1 == "" {
      InboundRuns.CreateGated(t, node, req, m);
      AppendOwns(t, Create(t, node, req, m).0, NewRow(t, node, req, CreateSettings(req, m).value));
    }
  }

  lemma HealOwns(t: Table, node: nat, local: seq<IP>, known: seq<Text>)
    requires OwnIds(t)
    ensures OwnIds(Heal(t, node, local, known))
  {
    ChangesOwn(t, node, AddressChange.Plan(Listens(t.rows, node), local, known));
  }

  lemma StepOwns(t: Table, op: InboundRuns.Op)
    requires OwnIds(t) && InboundRuns.Inv(t)
    ensures OwnIds(InboundRuns.Step(t, op))
  {
    match op {
      case OpCreate(node, req, m) => CreateOwns(t, node, req, m);
      case OpUpdate(id, req, certs, m) => UpdateOwns(t, id, req, certs, m);
      case OpDelete(id) => DeleteOwns(t, id);
      case OpOrigin(node, id, tunnel, done, uuid) => OriginOwns(t, node, id, tunnel, done, uuid);
      case OpEdge(node, draw) => EdgeOwns(t, node, draw);
      case OpHeal(node, local, known) => HealOwns(t, node, local, known);
    }
  }

  /** Over every run from an empty table no two credentials share an id, and none has an id
      yet to be handed out: what the sweep asks of the clients it lists. */
  lemma {:induction false} RunsOwnIds(ops: seq<InboundRuns.Op>)
    ensures OwnIds(InboundRuns.Run(Table([], 1, 1), ops))
    ensures QuotaLaws.DistinctIds(AllClients(InboundRuns.Run(Table([], 1, 1), ops).rows))
  {
    if ops != [] {
      var front := ops[..|ops| - 1];
      RunsOwnIds(front);
      InboundRuns.RunsAreSound(front);
      StepOwns(InboundRuns.Run(Table([], 1, 1), front), ops[|ops| - 1]);
    }
    OnceEachIsDistinct(AllClients(InboundRuns.Run(Table([], 1, 1), ops).rows));
  }

  // ---- What a moved user gets ----

  /** A credential of the user on some row. */
  ghost predicate Has(rows: seq<Inbound>, email: string, c: Client) {
    c.email == email && exists i :: 0 <= i < |rows| && c in rows[i].clients
  }

  lemma {:induction false} AllClientsExactly(rows: seq<Inbound>, c: Client)
    ensures c in AllClients(rows) <==> exists i :: 0 <= i < |rows| && c in rows[i].clients
  {
    if rows != [] {
      var n := |rows| - 1;
      AllClientsExactly(rows[..n], c);
      assert forall i :: 0 <= i < n ==> rows[..n][i] == rows[i];
    }
  }

  /** The least value from 0 that no credential of the user exceeds. */
  ghost predicate Largest(rows: seq<Inbound>, email: string, cap: int, ofExpiry: bool) {
    && 0 <= cap
    && (forall c :: Has(rows, email, c) ==> (if ofExpiry then c.expiryAt else c.quotaBytes) <= cap)
    && (cap == 0 || exists c :: Has(rows, email, c) && (if ofExpiry then c.expiryAt else c.quotaBytes) == cap)
  }

  lemma {:induction false} LargestIsHeld(cs: seq<Client>, email: string)
    ensures var a := Quota.UserAgg(cs, email);
            && (a.quota == 0 || exists c :: c in cs && c.email == email && c.quotaBytes == a.quota)
            && (a.expiry == 0 || exists c :: c in cs && c.email == email && c.expiryAt == a.expiry)
  {
    if cs != [] {
      var n := |cs| - 1;
      LargestIsHeld(cs[..n], email);
      assert forall c :: c in cs <==> c in cs[..n] || c == cs[n];
    }
  }

  lemma StandingIsLargest(rows: seq<Inbound>, email: string)
    ensures var a := Quota.UserAgg(AllClients(rows), email);
            && Largest(rows, email, a.quota, false) && Largest(rows, email, a.expiry, true)
            && (a.anyEnabled <==> exists c :: Has(rows, email, c) && c.enabled)
  {
    var cs := AllClients(rows);
    QuotaLaws.AggBounds(cs, email);
    QuotaLaws.EnabledMember(cs, email);
    LargestIsHeld(cs, email);
    forall c ensures c in cs && c.email == email <==> Has(rows, email, c) {
      AllClientsExactly(rows, c);
    }
    forall c | Has(rows, email, c)
      ensures var a := Quota.UserAgg(cs, email); c.quotaBytes <= a.quota && c.expiryAt <= a.expiry && (c.enabled ==> a.anyEnabled)
    {
      InboundEffects.AggCovers(cs, c);
    }
  }

  /** The credential is what a user of the rows is owed on one more inbound. */
  ghost predicate Owed(c: Client, rows: seq<Inbound>, target: Inbound, drawn: string) {
    && (c.enabled <==> exists d :: Has(rows, c.email, d) && d.enabled)
    && Largest(rows, c.email, c.quotaBytes, false) && Largest(rows, c.email, c.expiryAt, true)
    && c.trafficUp == 0 && c.trafficDown == 0
    && c.uuid == if target.clients == [] || target.clients[0].uuid != "" then drawn else ""
  }

  lemma NewClientIsOwed(rows: seq<Inbound>, target: Inbound, email: string, id: nat, drawn: string)
    ensures Owed(NewClient(rows, target, email, id, drawn), rows, target, drawn)
  {
    StandingIsLargest(rows, email);
  }

  /** No credential of the rows has the id. */
  ghost predicate Unused(rows: seq<Inbound>, id: nat) {
    forall c, i :: 0 <= i < |rows| && c in rows[i].clients ==> c.id != id
  }

  lemma HigherIsUnused(t: Table, id: nat)
    requires OwnIds(t) && id >= t.nextClient
    ensures Unused(t.rows, id)
  {
    forall c, i | 0 <= i < |t.rows| && c in t.rows[i].clients
      ensures c.id != id
    {
      AllClientsExactly(t.rows, c);
      var k :| 0 <= k < |AllClients(t.rows)| && AllClients(t.rows)[k] == c;
      IdIsListed(AllClients(t.rows), k);
    }
  }

  /** Which users the switch brings to the target. */
  ghost predicate Joins(target: Inbound, h: Inbound, email: string) {
    email != "" && email in Emails(h.clients) && email !in Emails(target.clients)
  }

  lemma MissingJoins(target: Inbound, h: Inbound, email: string)
    ensures email in Missing(h.clients, target.clients) <==> Joins(target, h, email)
  {
    InboundRuns.MissingCovers(h.clients, target.clients);
  }

  /** Credential k of the new origin's list now is one the switch owed somebody. */
  ghost predicate GivenRightly(t: Table, target: Inbound, h: Inbound, uuid: nat -> string, now: seq<Client>, k: nat)
    requires |target.clients| <= k < |now|
  {
    && Joins(target, h, now[k].email)
    && Owed(now[k], t.rows, target, uuid(k - |target.clients|))
    && Unused(t.rows, now[k].id)
  }

  lemma NewOriginGives(t: Table, target: Inbound, h: Inbound, uuid: nat -> string, k: nat)
    requires OwnIds(t) && |target.clients| <= k < |NewOrigin(t, target, h, uuid).clients|
    ensures GivenRightly(t, target, h, uuid, NewOrigin(t, target, h, uuid).clients, k)
  {
    var emails := Missing(h.clients, target.clients);
    var i := k - |target.clients|;
    var made := NewClients(t.rows, target, emails, t.nextClient, uuid);
    assert NewOrigin(t, target, h, uuid).clients == target.clients + made;
    assert made[i] == NewClient(t.rows, target, emails[i], t.nextClient + i, uuid(i));
    NewClientIsOwed(t.rows, target, emails[i], t.nextClient + i, uuid(i));
    MissingJoins(target, h, emails[i]);
    HigherIsUnused(t, t.nextClient + i);
  }

  /** A switch of the tunnel leaves the target's credentials and adds one after the other:
      each for a named user of the old holder whom the target lacked, under an id nobody
      has, and as that user is owed - switched on exactly if the user is switched on
      somewhere, under the largest cap and expiry the user has. */
  lemma SwitchGivesWhatIsOwed(t: Table, node: nat, id: nat, tunnel: Tunnel, done: bool, uuid: nat -> string, k: nat)
    requires InboundRuns.Inv(t) && OwnIds(t) && SetOrigin(t, node, id, tunnel, done, uuid).1 == ""
    requires HolderOf(t.rows, node).Some? && HolderOf(t.rows, node).value.id != id
    ensures var after := SetOrigin(t, node, id, tunnel, done, uuid).0;
            && Exists(t.rows, id) && Exists(after.rows, id)
            && var (target, now) := (Row(t.rows, id), Row(after.rows, id).clients);
            && target.clients <= now
            && (|target.clients| <= k < |now| ==> GivenRightly(t, target, HolderOf(t.rows, node).value, uuid, now, k))
  {
    InboundRuns.SwitchLeaves(t, node, id, tunnel, done, uuid);
    var (target, h) := (Row(t.rows, id), HolderOf(t.rows, node).value);
    if |target.clients| <= k < |NewOrigin(t, target, h, uuid).clients| {
      NewOriginGives(t, target, h, uuid, k);
    }
  }

  /** And each such user gets exactly one credential there. */
  lemma SwitchServesEachOnce(t: Table, node: nat, id: nat, tunnel: Tunnel, done: bool, uuid: nat -> string, email: string)
    returns (k: nat)
    requires InboundRuns.Inv(t) && SetOrigin(t, node, id, tunnel, done, uuid).1 == ""
    requires HolderOf(t.rows, node).Some? && HolderOf(t.rows, node).value.id != id
    requires Exists(t.rows, id) && Joins(Row(t.rows, id), HolderOf(t.rows, node).value, email)
    ensures var after := SetOrigin(t, node, id, tunnel, done, uuid).0;
            && Exists(after.rows, id)
            && var now := Row(after.rows, id).clients;
            && |Row(t.rows, id).clients| <= k < |now| && now[k].email == email
            && forall m :: 0 <= m < |now| && now[m].email == email ==> m == k
  {
    InboundRuns.SwitchLeaves(t, node, id, tunnel, done, uuid);
    var (target, h) := (Row(t.rows, id), HolderOf(t.rows, node).value);
    k := JoinsOnce(t, target, h, uuid, email);
  }

  lemma JoinsOnce(t: Table, target: Inbound, h: Inbound, uuid: nat -> string, email: string) returns (k: nat)
    requires Joins(target, h, email)
    ensures var now := NewOrigin(t, target, h, uuid).clients;
            && |target.clients| <= k < |now| && now[k].email == email
            && forall m :: 0 <= m < |now| && now[m].email == email ==> m == k
  {
    var emails := Missing(h.clients, target.clients);
    var now := NewOrigin(t, target, h, uuid).clients;
    MissingJoins(target, h, email);
    InboundRuns.MissingCovers(h.clients, target.clients);
    InboundRuns.NewClientsNamed(t.rows, target, emails, t.nextClient, uuid);
    var i :| 0 <= i < |emails| && emails[i] == email;
    var made := NewClients(t.rows, target, emails, t.nextClient, uuid);
    assert now == target.clients + made;
    k := |target.clients| + i;
    assert forall m :: 0 <= m < |target.clients| ==> target.clients[m].email in Emails(target.clients);
    assert forall m :: 0 <= m < |made| && made[m].email == email ==> m == i;
    assert forall m :: |target.clients| <= m < |now| ==> now[m] == made[m - |target.clients|];
  }
}
