/** No two inbounds share a tag or a socket, whatever is done to the table. */
module InboundUnique {
  import opened Common
  import opened Addresses
  import AddressChange
  import opened Settings
  import opened Model
  import opened InboundGates
  import opened InboundTable
  import InboundRuns

  predicate Apart(a: Inbound, b: Inbound) {
    a.tag != b.tag && (a.listen != b.listen || a.port != b.port)
  }

  ghost predicate Unique(rows: seq<Inbound>) {
    forall i, j :: 0 <= i < j < |rows| ==> Apart(rows[i], rows[j])
  }

  /** The unique indexes let a new row in exactly when it is apart from every other. */
  lemma ConflictsExactly(t: Table, row: Inbound)
    requires InboundRuns.Keyed(t) && row.id == t.nextId && Unique(t.rows)
    ensures !Conflict(t.rows, row.id, row.tag, row.listen, row.port) <==> Unique(t.rows + [row])
  {
    var rows := t.rows + [row];
    assert rows[|t.rows|] == row && forall i :: 0 <= i < |t.rows| ==> rows[i] == t.rows[i];
    if Unique(rows) {
      forall i | 0 <= i < |t.rows| ensures Apart(t.rows[i], row) {
        assert Apart(rows[i], rows[|t.rows|]);
      }
    }
  }

  /** And a changed row in its old place exactly when it stays apart from the others. */
  lemma SaveConflictsExactly(t: Table, row: Inbound)
    requires InboundRuns.Keyed(t) && Exists(t.rows, row.id) && Unique(t.rows)
    ensures !Conflict(t.rows, row.id, row.tag, row.listen, row.port) <==> Unique(Saved(t.rows, row))
  {
    var rows := Saved(t.rows, row);
    var k := InboundRuns.IndexOfRow(t.rows, row.id);
    assert rows[k] == row;
    assert forall i :: 0 <= i < |t.rows| && i != k ==> t.rows[i].id != row.id && rows[i] == t.rows[i];
    if Unique(rows) {
      forall i | 0 <= i < |t.rows| && i != k ensures Apart(t.rows[i], row) {
        assert if i < k then Apart(rows[i], rows[k]) else Apart(rows[k], rows[i]);
      }
    }
    if !Conflict(t.rows, row.id, row.tag, row.listen, row.port) {
      forall i, j | 0 <= i < j < |rows| ensures Apart(rows[i], rows[j]) {
        assert i != k && j != k ==> Apart(t.rows[i], t.rows[j]);
      }
    }
  }

  /** A well-formed request is accepted exactly when the table with the new row keeps both the
      rules of the gates and the unique indexes. */
  lemma CreateAcceptedExactly(t: Table, node: nat, req: CreateRequest, m: Mint)
    requires InboundRuns.Inv(t) && Unique(t.rows)
    requires req.tag != "" && req.typ != OtherProtocol("") && req.port > 0 && CreateSettings(req, m).Ok?
    ensures var after := t.(rows := t.rows + [NewRow(t, node, req, CreateSettings(req, m).value)], nextId := t.nextId + 1);
            Create(t, node, req, m).1 == "" <==> InboundRuns.Inv(after) && Unique(after.rows)
  {
    var row := NewRow(t, node, req, CreateSettings(req, m).value);
    ConflictsExactly(t, row);
    if !Conflict(t.rows, t.nextId, req.tag, req.listen, req.port) {
      InboundRuns.CreateRefusesExactly(t, node, req, m);
    }
  }

  // ---- Every operation keeps it ----

  lemma SameSockets(rows: seq<Inbound>, after: seq<Inbound>)
    requires Unique(rows) && |after| == |rows|
    requires forall i :: 0 <= i < |rows| ==>
                           after[i].tag == rows[i].tag && after[i].listen == rows[i].listen && after[i].port == rows[i].port
    ensures Unique(after)
  {
    forall i, j | 0 <= i < j < |after| ensures Apart(after[i], after[j]) {
      assert Apart(rows[i], rows[j]);
    }
  }

  lemma SavedSockets(t: Table, row: Inbound)
    requires InboundRuns.Keyed(t) && Unique(t.rows) && Exists(t.rows, row.id)
    requires var was := Row(t.rows, row.id); row.tag == was.tag && row.listen == was.listen && row.port == was.port
    ensures Unique(Saved(t.rows, row))
  {
    forall i | 0 <= i < |t.rows| && t.rows[i].id == row.id ensures t.rows[i] == Row(t.rows, row.id) {
      InboundRuns.RowIs(t, i);
    }
    SameSockets(t.rows, Saved(t.rows, row));
  }

  lemma UpdateStaysUnique(t: Table, id: nat, req: UpdateRequest, certs: Certs, m: Mint)
    requires InboundRuns.Inv(t) && Unique(t.rows)
    ensures Unique(Update(t, id, req, certs, m).0.rows)
  {
    if Update(t, id, req, certs, m).1 == "" {
      InboundRuns.UpdateSaves(t, id, req, certs, m);
      SaveConflictsExactly(t, Candidate(t.rows, Row(t.rows, id), req, certs, m).value);
    }
  }

  /** An update that passes its gates is turned down by the store exactly when the row would
      share a tag or a socket. */
  lemma UpdateAcceptedExactly(t: Table, id: nat, req: UpdateRequest, certs: Certs, m: Mint)
    requires InboundRuns.Inv(t) && Unique(t.rows) && Exists(t.rows, id)
    requires Candidate(t.rows, Row(t.rows, id), req, certs, m).Ok?
    ensures Update(t, id, req, certs, m).1 == "" <==> Unique(Saved(t.rows, Candidate(t.rows, Row(t.rows, id), req, certs, m).value))
  {
    InboundRuns.CandidateIsSound(t, id, req, certs, m);
    SaveConflictsExactly(t, Candidate(t.rows, Row(t.rows, id), req, certs, m).value);
  }

  lemma CutStaysUnique(rows: seq<Inbound>, k: nat)
    requires Unique(rows) && k < |rows|
    ensures Unique(rows[..k] + rows[k + 1..])
  {
    var after := rows[..k] + rows[k + 1..];
    forall i, j | 0 <= i < j < |after| ensures Apart(after[i], after[j]) {
      assert Apart(rows[if i < k then i else i + 1], rows[if j < k then j else j + 1]);
    }
  }

  lemma DeleteStaysUnique(t: Table, id: nat)
    requires InboundRuns.Inv(t) && Unique(t.rows)
    ensures Unique(Delete(t, id).rows)
  {
    InboundRuns.DeleteKeeps(t, id);
    if k :| 0 <= k < |t.rows| && t.rows[k].id == id && Delete(t, id).rows == t.rows[..k] + t.rows[k + 1..] {
      CutStaysUnique(t.rows, k);
    }
  }

  lemma OriginStaysUnique(t: Table, node: nat, id: nat, tunnel: Tunnel, done: bool, uuid: nat -> string)
    requires InboundRuns.Inv(t) && Unique(t.rows)
    ensures Unique(SetOrigin(t, node, id, tunnel, done, uuid).0.rows)
  {
    if SetOrigin(t, node, id, tunnel, done, uuid).0 != t {
      InboundRuns.SwitchCases(t, node, id, tunnel, done, uuid);
      var (target, current) := (Row(t.rows, id), HolderOf(t.rows, node));
      if current.None? || current.value.id == id {
        SavedSockets(t, AsOrigin(target));
      } else {
        InboundRuns.HolderHolds(t, node, current.value);
        var row := NewOrigin(t, target, current.value, uuid);
        SavedSockets(t, row);
        InboundRuns.SavedRow(t, row, current.value.id);
        SavedSockets(t.(rows := Saved(t.rows, row)), Released(current.value));
      }
    }
  }

  lemma {:induction false} ChangesStayUnique(t: Table, node: nat, chs: seq<AddressChange.AddrChange>)
    requires Unique(t.rows)
    ensures Unique(ApplyChanges(t, node, chs).rows)
    decreases |chs|
  {
    if chs != [] {
      var rows := MovedRows(t.rows, node, chs[0]);
      if !Collides(rows) {
        forall i, j | 0 <= i < j < |rows| ensures Apart(rows[i], rows[j]) {
          assert Apart(t.rows[i], t.rows[j]);
        }
      }
      ChangesStayUnique(ApplyChange(t, node, chs[0]), node, chs[1..]);
    }
  }

  lemma CreateStaysUnique(t: Table, node: nat, req: CreateRequest, m: Mint)
    requires InboundRuns.Inv(t) && Unique(t.rows)
    ensures Unique(Create(t, node, req, m).0.rows)
  {
    if Create(t, node, req, m).1 == "" {
      InboundRuns.CreateGated(t, node, req, m);
      ConflictsExactly(t, NewRow(t, node, req, CreateSettings(req, m).value));
    }
  }

  lemma EdgeStaysUnique(t: Table, node: nat, draw: EdgeDraw)
    requires InboundRuns.Inv(t) && Unique(t.rows)
    ensures Unique(EnsureEdge(t, node, draw).0.rows)
  {
    if EnsureEdge(t, node, draw).0 != t {
      ConflictsExactly(t, EdgeRow(t, node, draw));
    }
  }

  lemma HealStaysUnique(t: Table, node: nat, local: seq<IP>, known: seq<Text>)
    requires Unique(t.rows)
    ensures Unique(Heal(t, node, local, known).rows)
  {
    ChangesStayUnique(t, node, AddressChange.Plan(Listens(t.rows, node), local, known));
  }

  lemma StepStaysUnique(t: Table, op: InboundRuns.Op)
    requires InboundRuns.Inv(t) && Unique(t.rows)
    ensures Unique(InboundRuns.Step(t, op).rows)
  {
    match op {
      case OpCreate(node, req, m) => CreateStaysUnique(t, node, req, m);
      case OpUpdate(id, req, certs, m) => UpdateStaysUnique(t, id, req, certs, m);
      case OpDelete(id) => DeleteStaysUnique(t, id);
      case OpOrigin(node, id, tunnel, done, uuid) => OriginStaysUnique(t, node, id, tunnel, done, uuid);
      case OpEdge(node, draw) => EdgeStaysUnique(t, node, draw);
      case OpHeal(node, local, known) => HealStaysUnique(t, node, local, known);
    }
  }

  /** Over every run from an empty table, no two inbounds have the same tag, and no two the
      same listen address and port: neither the switch of the tunnel nor following an address
      change ever has to break an index. */
  lemma {:induction false} RunsStayUnique(ops: seq<InboundRuns.Op>)
    ensures Unique(InboundRuns.Run(Table([], 1, 1), ops).rows)
  {
    if ops != [] {
      var front := ops[..|ops| - 1];
      RunsStayUnique(front);
      InboundRuns.RunsAreSound(front);
      StepStaysUnique(InboundRuns.Run(Table([], 1, 1), front), ops[|ops| - 1]);
    }
  }

  // ---- Which switches are accepted ----

  /** A tunnel can be pointed at the row, and its origin is one cloudflared can reach. */
  predicate FitsTunnel(row: Inbound) {
    && (row.Flag(ArgoBound) || row.Flag(EdgeBound) || row.Flag(ArgoStandby))
    && CdnFrontable(row.typ) && Settings.Text(Get(row.Fields(), TlsCertPath)) == "" && IsLoopbackListen(row.listen)
  }

  /** The tunnel is pointed at an inbound exactly when that is one of the node's, fits, and
      either holds the tunnel already and runs, or the tunnel's ingress follows: of itself, by
      the panel, or by hand. */
  lemma SwitchAcceptedExactly(t: Table, node: nat, id: nat, tunnel: Tunnel, done: bool, uuid: nat -> string)
    requires InboundRuns.Inv(t)
    ensures SetOrigin(t, node, id, tunnel, done, uuid).1 == ""
       <==> && Exists(t.rows, id) && Row(t.rows, id).nodeId == node && FitsTunnel(Row(t.rows, id))
            && ((Row(t.rows, id).Flag(ArgoBound) && Row(t.rows, id).enabled) || tunnel != Fixed(false) || done)
  {
    if Exists(t.rows, id) && Row(t.rows, id).nodeId == node {
      var row := Row(t.rows, id);
      InboundRuns.RowSound(t, id);
      assert Get(row.Fields()[ArgoBound := Str("true")], TlsCertPath) == Get(row.Fields(), TlsCertPath);
      if row.Flag(ArgoBound) {
        InboundRuns.HolderAfter(t, node, id);
      } else if HolderOf(t.rows, node).Some? {
        InboundRuns.HolderHolds(t, node, HolderOf(t.rows, node).value);
      }
    }
  }
}
