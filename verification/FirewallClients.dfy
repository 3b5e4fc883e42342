/** Whom the rendered listeners let in, and that a sweep reaches them. */
module FirewallClients {
  import opened Common
  import opened Addresses
  import opened Settings
  import opened Model
  import opened Antiblock
  import opened Firewall
  import InboundTable
  import Quota
  import QuotaLaws

  /** Positions of a list of length n, from first to last. */
  ghost predicate Rising(at: seq<nat>, n: nat) {
    && (forall k :: 0 <= k < |at| ==> at[k] < n)
    && (forall k, m :: 0 <= k < m < |at| ==> at[k] < at[m])
  }

  /** out is what cs holds at the positions, in order. */
  ghost predicate Picks(at: seq<nat>, out: seq<Client>, cs: seq<Client>) {
    Rising(at, |cs|) && |at| == |out| && forall k :: 0 <= k < |out| ==> out[k] == cs[at[k]]
  }

  /** Each enabled client of cs is in out as often as in cs, no other is, and they keep
      their order. */
  ghost predicate LetsInEnabled(out: seq<Client>, cs: seq<Client>) {
    && (forall c :: multiset(out)[c] == if c.enabled then multiset(cs)[c] else 0)
    && exists at: seq<nat> :: Picks(at, out, cs)
  }

  lemma PicksStep(at: seq<nat>, out: seq<Client>, cs: seq<Client>, c: Client)
    requires Picks(at, out, cs)
    ensures Picks(at, out, cs + [c]) && Picks(at + [|cs|], out + [c], cs + [c])
  {
  }

  lemma {:induction false} EnabledKeepOrder(cs: seq<Client>) returns (at: seq<nat>)
    ensures Picks(at, EnabledClients(cs), cs)
  {
    at := [];
    if cs != [] {
      var n := |cs| - 1;
      at := EnabledKeepOrder(cs[..n]);
      PicksStep(at, EnabledClients(cs[..n]), cs[..n], cs[n]);
      assert cs[..n] + [cs[n]] == cs;
      if cs[n].enabled {
        at := at + [n];
      }
    }
  }

  lemma {:induction false} EnabledCount(cs: seq<Client>, c: Client)
    ensures multiset(EnabledClients(cs))[c] == if c.enabled then multiset(cs)[c] else 0
  {
    if cs != [] {
      var n := |cs| - 1;
      EnabledCount(cs[..n], c);
      assert cs == cs[..n] + [cs[n]];
    }
  }

  lemma EnabledAreLetIn(cs: seq<Client>)
    ensures LetsInEnabled(EnabledClients(cs), cs)
  {
    var at := EnabledKeepOrder(cs);
    forall c ensures multiset(EnabledClients(cs))[c] == if c.enabled then multiset(cs)[c] else 0 {
      EnabledCount(cs, c);
    }
  }

  // ---- Which rows are rendered, and as what ----

  /** An enabled row, and in low-profile mode one behind the edge or the tunnel. */
  predicate Served(row: Inbound, p: Config) {
    row.enabled && (!p.stealth || row.Flag(EdgeBound) || row.Flag(ArgoBound))
  }

  /** The listener is the row: its own socket, unless it is shielded, its settings, and its
      enabled clients. */
  ghost predicate Stands(l: Listener, row: Inbound) {
    && l.tag == row.tag && l.typ == row.typ && l.port == row.port && l.network == row.network
    && l.settings == row.Fields()
    && l.listen == (if row.Flag(EdgeBound) || row.Flag(ArgoBound) then LOOPBACK_TEXT else row.listen)
    && LetsInEnabled(l.clients, row.clients)
  }

  lemma RenderedStands(row: Inbound)
    ensures Rendered(row).Ok? <==> row.settings != Malformed
    ensures Rendered(row).Ok? ==> Stands(Rendered(row).value, row)
  {
    EnabledAreLetIn(row.clients);
  }

  function ListenersOf(rows: seq<Inbound>, p: Config): Result<seq<Listener>> {
    RenderedAll(Running(rows, p))
  }

  lemma ListenersStep(rows: seq<Inbound>, p: Config)
    requires rows != []
    ensures var (before, row) := (ListenersOf(rows[..|rows| - 1], p), rows[|rows| - 1]);
            ListenersOf(rows, p)
            == if before.Err? || !Served(row, p) then before
            else if Rendered(row).Err? then Err(Rendered(row).error)
            else Ok(before.value + [Rendered(row).value])
  {
    var (front, row) := (Running(rows[..|rows| - 1], p), rows[|rows| - 1]);
    if Runs(p, row.Fields()) {
      assert (front + [row])[..|front|] == front;
    }
  }

  /** The listeners are the served rows, one for one and in order. */
  ghost predicate Stand(at: seq<nat>, ls: seq<Listener>, rows: seq<Inbound>, p: Config) {
    && |at| == |ls| && Rising(at, |rows|)
    && (forall i :: 0 <= i < |rows| ==> (i in at <==> Served(rows[i], p)))
    && (forall k :: 0 <= k < |ls| ==> Stands(ls[k], rows[at[k]]))
  }

  lemma StandStep(at: seq<nat>, ls: seq<Listener>, rows: seq<Inbound>, row: Inbound, p: Config)
    requires Stand(at, ls, rows, p)
    ensures !Served(row, p) ==> Stand(at, ls, rows + [row], p)
    ensures Served(row, p) && Rendered(row).Ok? ==> Stand(at + [|rows|], ls + [Rendered(row).value], rows + [row], p)
  {
    RenderedStands(row);
    var more := rows + [row];
    assert more[|rows|] == row && forall i :: 0 <= i < |rows| ==> more[i] == rows[i];
    forall i | 0 <= i < |more|
      ensures i in at + [|rows|] <==> i == |rows| || Served(rows[i], p)
    {
    }
  }

  /** The engine gets a configuration unless a served row's settings cannot be read. */
  lemma {:induction false} RenderedUnlessMalformed(rows: seq<Inbound>, p: Config)
    ensures ListenersOf(rows, p).Err? <==> exists i :: 0 <= i < |rows| && Served(rows[i], p) && rows[i].settings == Malformed
  {
    if rows != [] {
      var n := |rows| - 1;
      ListenersStep(rows, p);
      RenderedStands(rows[n]);
      RenderedUnlessMalformed(rows[..n], p);
      assert forall i :: 0 <= i < n ==> rows[..n][i] == rows[i];
    }
  }

  /** Whenever the engine gets a configuration, each listener stands for its row and lets in
      exactly that row's enabled clients; every served row has one. */
  lemma {:induction false} ListenersAreServedRows(rows: seq<Inbound>, p: Config) returns (at: seq<nat>)
    requires ListenersOf(rows, p).Ok?
    ensures Stand(at, ListenersOf(rows, p).value, rows, p)
  {
    at := [];
    if rows != [] {
      var n := |rows| - 1;
      ListenersStep(rows, p);
      at := ListenersAreServedRows(rows[..n], p);
      StandStep(at, ListenersOf(rows[..n], p).value, rows[..n], rows[n], p);
      assert rows[..n] + [rows[n]] == rows;
      if Served(rows[n], p) {
        at := at + [n];
      }
    }
  }

  lemma LetInMember(out: seq<Client>, cs: seq<Client>, c: Client)
    requires LetsInEnabled(out, cs)
    ensures c in out <==> c in cs && c.enabled
  {
    assert c in out <==> multiset(out)[c] > 0;
    assert c in cs <==> multiset(cs)[c] > 0;
  }

  /** What BuildDesired hands the engine, so read. */
  lemma DesiredLetsIn(db: Inputs, l: Listener, c: Client)
    requires ListenersOf(db.rows, db.posture).Ok? && l in ListenersOf(db.rows, db.posture).value
    ensures exists i :: 0 <= i < |db.rows| && Served(db.rows[i], db.posture) && Stands(l, db.rows[i])
                        && (c in l.clients <==> c in db.rows[i].clients && c.enabled)
  {
    var at := ListenersAreServedRows(db.rows, db.posture);
    var ls := ListenersOf(db.rows, db.posture).value;
    var k :| 0 <= k < |ls| && ls[k] == l;
    var i := at[k];
    assert i in at;
    LetInMember(l.clients, db.rows[i].clients, c);
  }

  // ---- A sweep reaches the engine ----

  /** The rows once the store has disabled what a sweep decided. */
  function Enforced(rows: seq<Inbound>, ds: seq<Quota.Decision>): seq<Inbound> {
    seq(|rows|, i requires 0 <= i < |rows| => rows[i].(clients := Quota.DisableAll(rows[i].clients, ds)))
  }

  lemma {:induction false} DisablingSplits(a: seq<Client>, b: seq<Client>, ds: seq<Quota.Decision>)
    ensures Quota.DisableAll(a + b, ds) == Quota.DisableAll(a, ds) + Quota.DisableAll(b, ds)
  {
    forall i | 0 <= i < |a + b|
      ensures |Quota.DisableAll(a, ds)| == |a| && |Quota.DisableAll(b, ds)| == |b|
      ensures |Quota.DisableAll(a + b, ds)| == |a + b|
      ensures Quota.DisableAll(a + b, ds)[i] == (Quota.DisableAll(a, ds) + Quota.DisableAll(b, ds))[i]
    {
      DisabledLength(a, ds);
      DisabledLength(b, ds);
      QuotaLaws.DisabledRow(a + b, ds, i);
      if i < |a| {
        QuotaLaws.DisabledRow(a, ds, i);
      } else {
        QuotaLaws.DisabledRow(b, ds, i - |a|);
      }
    }
    DisabledLength(a, ds);
    DisabledLength(b, ds);
    DisabledLength(a + b, ds);
  }

  lemma {:induction false} DisabledLength(cs: seq<Client>, ds: seq<Quota.Decision>)
    ensures |Quota.DisableAll(cs, ds)| == |cs|
  {
    if ds != [] {
      DisabledLength(cs, ds[..|ds| - 1]);
    }
  }

  /** Disabling in the clients' table is disabling in each row. */
  lemma {:induction false} EnforcedClients(rows: seq<Inbound>, ds: seq<Quota.Decision>)
    ensures InboundTable.AllClients(Enforced(rows, ds)) == Quota.DisableAll(InboundTable.AllClients(rows), ds)
  {
    if rows == [] {
      DisabledLength([], ds);
    } else {
      var n := |rows| - 1;
      EnforcedClients(rows[..n], ds);
      assert Enforced(rows, ds)[..n] == Enforced(rows[..n], ds);
      DisablingSplits(InboundTable.AllClients(rows[..n]), rows[n].clients, ds);
    }
  }

  /** The rows after the sweep at an instant. */
  function SweptRows(rows: seq<Inbound>, now: int): seq<Inbound> {
    Enforced(rows, Quota.ByUser(InboundTable.AllClients(rows), now))
  }

  lemma {:induction false} RowClientsAreAll(rows: seq<Inbound>, i: nat, c: Client)
    requires i < |rows| && c in rows[i].clients
    ensures c in InboundTable.AllClients(rows)
  {
    var n := |rows| - 1;
    if i < n {
      RowClientsAreAll(rows[..n], i, c);
    }
  }

  /** In the swept table no user past its cap or its expiry has a client on any listener. */
  lemma SweptUsersAreShutOut(db: Inputs, now: int, l: Listener, c: Client)
    requires QuotaLaws.DistinctIds(InboundTable.AllClients(db.rows))
    requires ListenersOf(SweptRows(db.rows, now), db.posture).Ok?
    requires l in ListenersOf(SweptRows(db.rows, now), db.posture).value && c in l.clients
    ensures !Quota.Over(InboundTable.AllClients(SweptRows(db.rows, now)), c.email, now)
  {
    var rows := SweptRows(db.rows, now);
    var cs := InboundTable.AllClients(db.rows);
    DesiredLetsIn(db.(rows := rows), l, c);
    var i :| 0 <= i < |rows| && c in rows[i].clients && c.enabled;
    RowClientsAreAll(rows, i, c);
    EnforcedClients(db.rows, Quota.ByUser(cs, now));
    var after := QuotaLaws.AfterSweep(cs, now);
    var k :| 0 <= k < |after| && after[k] == c;
    QuotaLaws.EnabledMember(after, c.email);
    QuotaLaws.SweepLeavesNobody(cs, now, c.email);
  }

  lemma SweptClient(rows: seq<Inbound>, now: int, i: nat, j: nat)
    requires QuotaLaws.DistinctIds(InboundTable.AllClients(rows)) && i < |rows| && j < |rows[i].clients|
    ensures |SweptRows(rows, now)[i].clients| == |rows[i].clients|
    ensures var (c, cs) := (rows[i].clients[j], InboundTable.AllClients(rows));
            SweptRows(rows, now)[i].clients[j] == if QuotaLaws.Caught(cs, c, now) then c.(enabled := false) else c
  {
    var (c, cs) := (rows[i].clients[j], InboundTable.AllClients(rows));
    var ds := Quota.ByUser(cs, now);
    DisabledLength(rows[i].clients, ds);
    QuotaLaws.DisabledRow(rows[i].clients, ds, j);
    RowClientsAreAll(rows, i, c);
    var k :| 0 <= k < |cs| && cs[k] == c;
    QuotaLaws.SweepDisablesExactly(cs, now, k);
    QuotaLaws.DisabledRow(cs, ds, k);
  }

  /** What the sweep changes at a listener: it lets in those it did, without the users past
      their cap or expiry, and nobody else loses access. */
  lemma SweepReachesTheEngine(rows: seq<Inbound>, now: int, i: nat, c: Client)
    requires QuotaLaws.DistinctIds(InboundTable.AllClients(rows)) && i < |rows|
    ensures Rendered(SweptRows(rows, now)[i]).Ok? <==> Rendered(rows[i]).Ok?
    ensures Rendered(rows[i]).Ok? ==>
              (c in Rendered(SweptRows(rows, now)[i]).value.clients
               <==> c in Rendered(rows[i]).value.clients && !Quota.Over(InboundTable.AllClients(rows), c.email, now))
  {
    var cs := InboundTable.AllClients(rows);
    var row := SweptRows(rows, now)[i];
    RenderedStands(rows[i]);
    RenderedStands(row);
    if Rendered(rows[i]).Ok? {
      LetInMember(Rendered(rows[i]).value.clients, rows[i].clients, c);
      LetInMember(Rendered(row).value.clients, row.clients, c);
      if c.enabled {
        SweptMember(rows, now, i, c);
      }
    }
  }

  lemma SweptMember(rows: seq<Inbound>, now: int, i: nat, c: Client)
    requires QuotaLaws.DistinctIds(InboundTable.AllClients(rows)) && i < |rows| && c.enabled
    ensures c in SweptRows(rows, now)[i].clients
       <==> c in rows[i].clients && !Quota.Over(InboundTable.AllClients(rows), c.email, now)
  {
    var (was, later) := (rows[i].clients, SweptRows(rows, now)[i].clients);
    DisabledLength(was, Quota.ByUser(InboundTable.AllClients(rows), now));
    if c in was {
      var j :| 0 <= j < |was| && was[j] == c;
      SweptClient(rows, now, i, j);
      assert later[j] == if Quota.Over(InboundTable.AllClients(rows), c.email, now) then c.(enabled := false) else c;
    }
    if c in later {
      var j :| 0 <= j < |later| && later[j] == c;
      SweptClient(rows, now, i, j);
    }
  }
}
