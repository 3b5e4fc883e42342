/** What holds of the inbound table after any run of operations. */
module InboundRuns {
  import opened Common
  import opened Addresses
  import AddressChange
  import opened Settings
  import opened Model
  import opened InboundGates
  import opened InboundTable

  datatype Op =
    | OpCreate(node: nat, create: CreateRequest, m: Mint)
    | OpUpdate(id: nat, update: UpdateRequest, certs: Certs, m: Mint)
    | OpDelete(id: nat)
    | OpOrigin(node: nat, id: nat, tunnel: Tunnel, ingressDone: bool, uuid: nat -> string)
    | OpEdge(node: nat, draw: EdgeDraw)
    | OpHeal(node: nat, local: seq<IP>, known: seq<Text>)

  function Step(t: Table, op: Op): Table {
    match op
    case OpCreate(node, req, m) => Create(t, node, req, m).0
    case OpUpdate(id, req, certs, m) => Update(t, id, req, certs, m).0
    case OpDelete(id) => Delete(t, id)
    case OpOrigin(node, id, tunnel, done, uuid) => SetOrigin(t, node, id, tunnel, done, uuid).0
    case OpEdge(node, draw) => EnsureEdge(t, node, draw).0
    case OpHeal(node, local, known) => Heal(t, node, local, known)
  }

  function Run(t: Table, ops: seq<Op>): Table {
    if ops == [] then t else Step(Run(t, ops[..|ops| - 1]), ops[|ops| - 1])
  }

  ghost predicate SoundRow(row: Inbound) {
    Sound(row.typ, row.listen, row.port, row.Fields())
  }

  /** A node runs one tunnel, so at most one of its inbounds holds it. */
  ghost predicate OneTunnel(rows: seq<Inbound>) {
    forall i, j :: 0 <= i < j < |rows| && rows[i].nodeId == rows[j].nodeId ==> !(rows[i].Flag(ArgoBound) && rows[j].Flag(ArgoBound))
  }

  ghost predicate Keyed(t: Table) {
    && 0 < t.nextId
    && (forall i :: 0 <= i < |t.rows| ==> 0 < t.rows[i].id < t.nextId)
    && (forall i, j :: 0 <= i < j < |t.rows| ==> t.rows[i].id != t.rows[j].id)
  }

  ghost predicate Inv(t: Table) {
    && Keyed(t) && OneTunnel(t.rows)
    && forall i :: 0 <= i < |t.rows| ==> SoundRow(t.rows[i])
  }

  // ---- Each operation keeps it ----

  lemma AppendKeeps(t: Table, row: Inbound, nextClient: nat)
    requires Inv(t) && row.id == t.nextId && SoundRow(row)
    requires row.Flag(ArgoBound) ==> !TunnelTaken(t.rows, row.nodeId, 0)
    ensures Inv(Table(t.rows + [row], t.nextId + 1, nextClient))
  {
    var rows := t.rows + [row];
    forall i, j | 0 <= i < j < |rows| && rows[i].nodeId == rows[j].nodeId
      ensures !(rows[i].Flag(ArgoBound) && rows[j].Flag(ArgoBound))
    {
      if j == |t.rows| && row.Flag(ArgoBound) {
        assert t.rows[i].id != 0;
      }
    }
  }

  lemma NoSilentFailure(req: CreateRequest, m: Mint)
    requires CreateSettings(req, m).Err?
    ensures CreateSettings(req, m).error != ""
  {
    if req.advanced.Some? {
      AutofillFailureHasCode(req.typ, Merged(req.typ, map[], req.advanced.value), map[], m);
    } else {
      AutofillFailureHasCode(req.typ, if req.settings.Some? then req.settings.value else map[], map[], m);
    }
  }

  lemma AutofillFailureHasCode(typ: Protocol, s: Fields, existing: Fields, m: Mint)
    requires Autofilled(typ, s, existing, m).Err?
    ensures Autofilled(typ, s, existing, m).error != ""
  {
  }

  /** What an accepted creation appends passed every gate. */
  lemma CreateGated(t: Table, node: nat, req: CreateRequest, m: Mint)
    requires Create(t, node, req, m).1 == ""
    ensures CreateSettings(req, m).Ok?
    ensures var row := NewRow(t, node, req, CreateSettings(req, m).value);
            && Create(t, node, req, m).0 == Table(t.rows + [row], t.nextId + 1, t.nextClient)
            && SoundRow(row) && (row.Flag(ArgoBound) ==> !TunnelTaken(t.rows, node, 0))
  {
    if CreateSettings(req, m).Err? {
      NoSilentFailure(req, m);
    } else {
      GatesAreExact(req.typ, req.listen, req.port, CreateSettings(req, m).value);
    }
  }

  lemma CreateKeeps(t: Table, node: nat, req: CreateRequest, m: Mint)
    requires Inv(t)
    ensures Inv(Create(t, node, req, m).0)
  {
    if Create(t, node, req, m).1 == "" {
      CreateGated(t, node, req, m);
      AppendKeeps(t, NewRow(t, node, req, CreateSettings(req, m).value), t.nextClient);
    }
  }

  /** A well-formed request that fits the unique indexes is refused by the gates
      exactly when saving it would break the invariant. */
  lemma CreateRefusesExactly(t: Table, node: nat, req: CreateRequest, m: Mint)
    requires Inv(t)
    requires req.tag != "" && req.typ != OtherProtocol("") && req.port > 0 && CreateSettings(req, m).Ok?
    requires !Conflict(t.rows, t.nextId, req.tag, req.listen, req.port)
    ensures Create(t, node, req, m).1 == ""
       <==> Inv(t.(rows := t.rows + [NewRow(t, node, req, CreateSettings(req, m).value)], nextId := t.nextId + 1))
  {
    var filled := CreateSettings(req, m).value;
    var row := NewRow(t, node, req, filled);
    var rows := t.rows + [row];
    GatesAreExact(req.typ, req.listen, req.port, filled);
    if Create(t, node, req, m).1 == "" {
      CreateKeeps(t, node, req, m);
    } else if Inv(t.(rows := rows, nextId := t.nextId + 1)) {
      assert SoundRow(rows[|t.rows|]);
      var i :| 0 <= i < |t.rows| && t.rows[i].nodeId == node && t.rows[i].Flag(ArgoBound);
      assert rows[i].Flag(ArgoBound) && rows[|t.rows|].Flag(ArgoBound);
      assert false;
    }
  }

  lemma SaveKeeps(t: Table, row: Inbound, nextClient: nat)
    requires Inv(t) && Exists(t.rows, row.id) && SoundRow(row) && row.nodeId == Row(t.rows, row.id).nodeId
    requires row.Flag(ArgoBound) ==> !TunnelTaken(t.rows, row.nodeId, row.id)
    ensures Inv(Table(Saved(t.rows, row), t.nextId, nextClient))
  {
    var rows := Saved(t.rows, row);
    forall i | 0 <= i < |rows|
      ensures rows[i].id == t.rows[i].id && rows[i].nodeId == t.rows[i].nodeId && SoundRow(rows[i])
    {
      if t.rows[i].id == row.id {
        RowIs(t, i);
      }
    }
    forall i, j | 0 <= i < j < |rows| && rows[i].nodeId == rows[j].nodeId
      ensures !(rows[i].Flag(ArgoBound) && rows[j].Flag(ArgoBound))
    {
      assert t.rows[i].id != t.rows[j].id;
    }
  }

  lemma RowIs(t: Table, i: nat)
    requires Keyed(t) && i < |t.rows|
    ensures Row(t.rows, t.rows[i].id) == t.rows[i]
  {
    var r := Row(t.rows, t.rows[i].id);
    var j :| 0 <= j < |t.rows| && t.rows[j] == r;
  }

  lemma RowSound(t: Table, id: nat)
    requires Inv(t) && Exists(t.rows, id)
    ensures SoundRow(Row(t.rows, id)) && 0 < id
    ensures Row(t.rows, id).Flag(ArgoBound) ==> !TunnelTaken(t.rows, Row(t.rows, id).nodeId, id)
  {
    var k :| 0 <= k < |t.rows| && t.rows[k].id == id;
    RowIs(t, k);
  }

  /** An update that passes its gates is sound, also when only the port or the listen
      address changes; one that touches neither cannot become unsound. */
  lemma CandidateIsSound(t: Table, id: nat, req: UpdateRequest, certs: Certs, m: Mint)
    requires Inv(t) && Exists(t.rows, id)
    requires Candidate(t.rows, Row(t.rows, id), req, certs, m).Ok?
    ensures var row := Candidate(t.rows, Row(t.rows, id), req, certs, m).value;
            && row.id == id && row.nodeId == Row(t.rows, id).nodeId && SoundRow(row)
            && (row.Flag(ArgoBound) ==> !TunnelTaken(t.rows, row.nodeId, id))
  {
    RowSound(t, id);
    var row := Patched(Row(t.rows, id), req);
    if req.advanced.None? && req.settings.None? {
      GatesAreExact(row.typ, row.listen, row.port, row.Fields());
    } else {
      GatesAreExact(row.typ, row.listen, row.port, UpdateSettings(row.typ, req, row.Fields(), certs, m).value);
    }
  }

  lemma RefusalHasCode(rows: seq<Inbound>, row: Inbound, req: UpdateRequest, certs: Certs, m: Mint)
    requires Candidate(rows, row, req, certs, m).Err?
    ensures Candidate(rows, row, req, certs, m).error != ""
  {
    var patched := Patched(row, req);
    if req.advanced.Some? || req.settings.Some? {
      if UpdateSettings(patched.typ, req, patched.Fields(), certs, m).Err? {
        UpdateFailureHasCode(patched.typ, req, patched.Fields(), certs, m);
      }
    }
  }

  lemma UpdateFailureHasCode(typ: Protocol, req: UpdateRequest, existing: Fields, certs: Certs, m: Mint)
    requires req.advanced.Some? || req.settings.Some?
    requires UpdateSettings(typ, req, existing, certs, m).Err?
    ensures UpdateSettings(typ, req, existing, certs, m).error != ""
  {
    if req.advanced.None? {
      AutofillFailureHasCode(typ, req.settings.value, existing, m);
    } else if UpdatedSettings(typ, req.advanced.value, existing, m).Err? {
      AutofillFailureHasCode(typ, Merged(typ, existing, req.advanced.value), existing, m);
    }
  }

  lemma UpdateSaves(t: Table, id: nat, req: UpdateRequest, certs: Certs, m: Mint)
    requires Update(t, id, req, certs, m).1 == ""
    ensures Exists(t.rows, id) && Candidate(t.rows, Row(t.rows, id), req, certs, m).Ok?
    ensures var saved := Candidate(t.rows, Row(t.rows, id), req, certs, m).value;
            saved.id == id && Update(t, id, req, certs, m).0 == t.(rows := Saved(t.rows, saved))
  {
    if Candidate(t.rows, Row(t.rows, id), req, certs, m).Err? {
      RefusalHasCode(t.rows, Row(t.rows, id), req, certs, m);
    }
  }

  lemma UpdateKeeps(t: Table, id: nat, req: UpdateRequest, certs: Certs, m: Mint)
    requires Inv(t)
    ensures Inv(Update(t, id, req, certs, m).0)
  {
    if Update(t, id, req, certs, m).1 == "" {
      UpdateSaves(t, id, req, certs, m);
      CandidateIsSound(t, id, req, certs, m);
      SaveKeeps(t, Candidate(t.rows, Row(t.rows, id), req, certs, m).value, t.nextClient);
    }
  }

  lemma {:induction false} WithoutAbsent(rows: seq<Inbound>, id: nat)
    requires forall i :: 0 <= i < |rows| ==> rows[i].id != id
    ensures Without(rows, id) == rows
  {
    if rows != [] {
      WithoutAbsent(rows[1..], id);
    }
  }

  lemma {:induction false} WithoutOne(rows: seq<Inbound>, k: nat)
    requires k < |rows| && forall i :: 0 <= i < |rows| && i != k ==> rows[i].id != rows[k].id
    ensures Without(rows, rows[k].id) == rows[..k] + rows[k + 1..]
  {
    if k == 0 {
      WithoutAbsent(rows[1..], rows[0].id);
    } else {
      assert rows[1..][k - 1] == rows[k];
      WithoutOne(rows[1..], k - 1);
      assert [rows[0]] + (rows[1..][..k - 1] + rows[1..][k..]) == rows[..k] + rows[k + 1..];
    }
  }

  lemma CutKeeps(t: Table, k: nat)
    requires Inv(t) && k < |t.rows|
    ensures Inv(t.(rows := t.rows[..k] + t.rows[k + 1..])) && !Exists(t.rows[..k] + t.rows[k + 1..], t.rows[k].id)
  {
    var rows := t.rows[..k] + t.rows[k + 1..];
    assert forall i :: 0 <= i < |rows| ==> rows[i] == if i < k then t.rows[i] else t.rows[i + 1];
  }

  /** Deleting removes the row and nothing else. */
  lemma DeleteKeeps(t: Table, id: nat)
    requires Inv(t)
    ensures Inv(Delete(t, id)) && !Exists(Delete(t, id).rows, id)
    ensures Delete(t, id).rows == t.rows
            || exists k :: 0 <= k < |t.rows| && t.rows[k].id == id && Delete(t, id).rows == t.rows[..k] + t.rows[k + 1..]
  {
    if k :| 0 <= k < |t.rows| && t.rows[k].id == id {
      WithoutOne(t.rows, k);
      CutKeeps(t, k);
    } else {
      WithoutAbsent(t.rows, id);
    }
  }

  lemma {:induction false} HolderIsOne(rows: seq<Inbound>, node: nat)
    ensures HolderOf(rows, node).Some? <==> exists i :: 0 <= i < |rows| && rows[i].nodeId == node && rows[i].Flag(ArgoBound)
    ensures HolderOf(rows, node).Some? ==>
              var h := HolderOf(rows, node).value; h in rows && h.nodeId == node && h.Flag(ArgoBound)
  {
    if rows != [] {
      HolderIsOne(rows[1..], node);
      if i :| 0 <= i < |rows| && rows[i].nodeId == node && rows[i].Flag(ArgoBound) {
        if i > 0 {
          assert rows[1..][i - 1] == rows[i];
        }
      }
    }
  }

  lemma HolderHolds(t: Table, node: nat, h: Inbound)
    requires Inv(t) && HolderOf(t.rows, node) == Some(h)
    ensures Exists(t.rows, h.id) && Row(t.rows, h.id) == h && h.nodeId == node && h.Flag(ArgoBound)
    ensures !TunnelTaken(t.rows, node, h.id)
  {
    HolderIsOne(t.rows, node);
    var i :| 0 <= i < |t.rows| && t.rows[i] == h;
    RowIs(t, i);
    RowSound(t, h.id);
  }

  lemma OriginIsSound(row: Inbound)
    requires SoundRow(row) && OriginProblem(row) == ""
    ensures SoundRow(AsOrigin(row)) && AsOrigin(row).Flag(ArgoBound)
  {
    var before, after := row.Fields(), AsOrigin(row).Fields();
    assert Get(before[ArgoBound := Str("true")], TlsCertPath) == Get(before, TlsCertPath);
    assert Get(after, EdgeBound) == Get(before, EdgeBound) && Get(after, CdnMode) == Get(before, CdnMode);
  }

  lemma ReleasedIsSound(row: Inbound)
    requires SoundRow(row)
    ensures SoundRow(Released(row)) && !Released(row).Flag(ArgoBound)
  {
    var before, after := row.Fields(), Released(row).Fields();
    assert Get(after, EdgeBound) == Get(before, EdgeBound) && Get(after, CdnMode) == Get(before, CdnMode);
    assert Get(after, TlsCertPath) == Get(before, TlsCertPath);
  }

  lemma SavedIds(t: Table, row: Inbound)
    requires Keyed(t)
    ensures Keyed(t.(rows := Saved(t.rows, row)))
    ensures forall i :: 0 <= i < |t.rows| ==> Saved(t.rows, row)[i].id == t.rows[i].id
  {
    var rows := Saved(t.rows, row);
    assert forall i :: 0 <= i < |t.rows| ==> rows[i].id == t.rows[i].id;
  }

  lemma IndexOfRow(rows: seq<Inbound>, id: nat) returns (k: nat)
    requires Exists(rows, id)
    ensures k < |rows| && rows[k].id == id
  {
    k :| 0 <= k < |rows| && rows[k].id == id;
  }

  lemma SavedRow(t: Table, row: Inbound, id: nat)
    requires Keyed(t) && Exists(t.rows, id) && Exists(t.rows, row.id)
    ensures Exists(Saved(t.rows, row), id)
    ensures Row(Saved(t.rows, row), id) == if id == row.id then row else Row(t.rows, id)
    ensures Keyed(t.(rows := Saved(t.rows, row)))
  {
    SavedIds(t, row);
    var k := IndexOfRow(t.rows, id);
    var rows := Saved(t.rows, row);
    assert rows[k] == (if id == row.id then row else t.rows[k]) && rows[k].id == id;
    RowIs(t, k);
    RowIs(t.(rows := rows), k);
  }

  /** Saving the released holder first or the new origin first gives the same rows. */
  lemma SavesCommute(rows: seq<Inbound>, a: Inbound, b: Inbound)
    requires a.id != b.id
    ensures Saved(Saved(rows, a), b) == Saved(Saved(rows, b), a)
  {
  }

  /** The switch, seen with the old holder released first: the tunnel is free in between. */
  lemma SwitchKeeps(t: Table, target: Inbound, h: Inbound, uuid: nat -> string)
    requires Inv(t) && HolderOf(t.rows, target.nodeId) == Some(h) && h.id != target.id
    requires Exists(t.rows, target.id) && target == Row(t.rows, target.id) && OriginProblem(target) == ""
    ensures Inv(Switched(t, target, h, uuid))
  {
    var row := NewOrigin(t, target, h, uuid);
    HolderHolds(t, row.nodeId, h);
    RowSound(t, h.id);
    RowSound(t, target.id);
    OriginIsSound(target);
    ReleasedIsSound(h);
    SaveKeeps(t, Released(h), t.nextClient);
    var t1 := t.(rows := Saved(t.rows, Released(h)));
    SavedRow(t, Released(h), row.id);
    forall i | 0 <= i < |t1.rows| && t1.rows[i].nodeId == row.nodeId && t1.rows[i].id != row.id
      ensures !t1.rows[i].Flag(ArgoBound)
    {
      assert t1.rows[i] == if t.rows[i].id == h.id then Released(h) else t.rows[i];
    }
    SaveKeeps(t1, row, Switched(t, target, h, uuid).nextClient);
    SavesCommute(t.rows, row, Released(h));
  }

  /** After the switch the target's row is the new origin, the holder's is released. */
  lemma SwitchRows(t: Table, target: Inbound, h: Inbound, uuid: nat -> string)
    requires Keyed(t) && h.id != target.id && Exists(t.rows, target.id) && Exists(t.rows, h.id)
    ensures var rows := Switched(t, target, h, uuid).rows;
            && Exists(rows, target.id) && Row(rows, target.id) == NewOrigin(t, target, h, uuid)
            && Exists(rows, h.id) && Row(rows, h.id) == Released(h)
  {
    var row := NewOrigin(t, target, h, uuid);
    SavedRow(t, row, target.id);
    SavedRow(t, row, h.id);
    SavedRow(t.(rows := Saved(t.rows, row)), Released(h), target.id);
    SavedRow(t.(rows := Saved(t.rows, row)), Released(h), h.id);
  }

  lemma OriginKeeps(t: Table, node: nat, id: nat, tunnel: Tunnel, done: bool, uuid: nat -> string)
    requires Inv(t)
    ensures Inv(SetOrigin(t, node, id, tunnel, done, uuid).0)
  {
    var (after, code) := SetOrigin(t, node, id, tunnel, done, uuid);
    if after != t {
      var target := Row(t.rows, id);
      var current := HolderOf(t.rows, node);
      RowSound(t, id);
      OriginIsSound(target);
      if current.None? || current.value.id == id {
        if TunnelTaken(t.rows, node, id) {
          HolderIsOne(t.rows, node);
          HolderHolds(t, node, current.value);
        }
        SaveKeeps(t, AsOrigin(target), t.nextClient);
      } else {
        SwitchKeeps(t, target, current.value, uuid);
      }
    }
  }

  lemma EdgeKeeps(t: Table, node: nat, draw: EdgeDraw)
    requires Inv(t)
    ensures Inv(EnsureEdge(t, node, draw).0)
  {
    if EnsureEdge(t, node, draw).0 != t {
      var row := EdgeRow(t, node, draw);
      AppendKeeps(t, row, t.nextClient + |row.clients|);
    }
  }

  lemma ApplyChangeKeeps(t: Table, node: nat, ch: AddressChange.AddrChange)
    requires Inv(t) && !IsLoopback(ch.oldIP)
    ensures Inv(ApplyChange(t, node, ch))
  {
    var rows := MovedRows(t.rows, node, ch);
    forall i | 0 <= i < |rows|
      ensures rows[i] == t.rows[i].(listen := rows[i].listen, subscriptionHost := rows[i].subscriptionHost) && SoundRow(rows[i])
    {
      assert rows[i] == Moved(t.rows[i], node, ch);
      assert IsLoopbackListen(t.rows[i].listen) ==> rows[i].listen == t.rows[i].listen;
    }
  }

  lemma {:induction false} ApplyChangesKeeps(t: Table, node: nat, chs: seq<AddressChange.AddrChange>)
    requires Inv(t) && forall i :: 0 <= i < |chs| ==> !IsLoopback(chs[i].oldIP)
    ensures Inv(ApplyChanges(t, node, chs))
    decreases |chs|
  {
    if chs != [] {
      ApplyChangeKeeps(t, node, chs[0]);
      ApplyChangesKeeps(ApplyChange(t, node, chs[0]), node, chs[1..]);
    }
  }

  /** No heal touches a loopback address. */
  lemma PlannedIsNoLoopback(listens: seq<Text>, local: seq<IP>, known: seq<Text>)
    ensures forall i :: 0 <= i < |AddressChange.Plan(listens, local, known)| ==>
                          !IsLoopback(AddressChange.Plan(listens, local, known)[i].oldIP)
  {
    var chs := AddressChange.Plan(listens, local, known);
    forall i | 0 <= i < |chs|
      ensures !IsLoopback(chs[i].oldIP)
    {
      var v4 := chs[i] in AddressChange.FamilyPlan(listens, local, known, true);
      AddressChange.PlannedChangeIsSound(listens, local, known, v4, chs[i]);
    }
  }

  lemma StepKeeps(t: Table, op: Op)
    requires Inv(t)
    ensures Inv(Step(t, op))
  {
    match op {
      case OpCreate(node, req, m) => CreateKeeps(t, node, req, m);
      case OpUpdate(id, req, certs, m) => UpdateKeeps(t, id, req, certs, m);
      case OpDelete(id) => DeleteKeeps(t, id);
      case OpOrigin(node, id, tunnel, done, uuid) => OriginKeeps(t, node, id, tunnel, done, uuid);
      case OpEdge(node, draw) => EdgeKeeps(t, node, draw);
      case OpHeal(node, local, known) =>
        var listens := Listens(t.rows, node);
        PlannedIsNoLoopback(listens, local, known);
        ApplyChangesKeeps(t, node, AddressChange.Plan(listens, local, known));
    }
  }

  /** Over every run from an empty table: at most one inbound of a node holds the
      tunnel, every argo- or edge-bound inbound is a certificate-less loopback origin of
      an allowed type, none at the edge is in CDN mode, and CDN mode is only ever on a
      port Cloudflare proxies. */
  lemma {:induction false} RunsAreSound(ops: seq<Op>)
    ensures Inv(Run(Table([], 1, 1), ops))
  {
    if ops != [] {
      RunsAreSound(ops[..|ops| - 1]);
      StepKeeps(Run(Table([], 1, 1), ops[..|ops| - 1]), ops[|ops| - 1]);
    }
  }

  // ---- What the switch of origin achieves ----

  /** The target's row once the switch is done. */
  function OriginRow(t: Table, target: Inbound, current: Option<Inbound>, uuid: nat -> string): Inbound {
    if current.Some? && current.value.id != target.id then NewOrigin(t, target, current.value, uuid)
    else if current.Some? && target.enabled then target
    else AsOrigin(target)
  }

  lemma SwitchCases(t: Table, node: nat, id: nat, tunnel: Tunnel, done: bool, uuid: nat -> string)
    requires SetOrigin(t, node, id, tunnel, done, uuid).1 == ""
    ensures Exists(t.rows, id) && Row(t.rows, id).nodeId == node && OriginProblem(Row(t.rows, id)) == ""
    ensures var (target, current) := (Row(t.rows, id), HolderOf(t.rows, node));
            SetOrigin(t, node, id, tunnel, done, uuid).0
            == if current.Some? && current.value.id == id && target.enabled then t else Pointed(t, target, current, uuid)
  {
  }

  lemma SwitchLeaves(t: Table, node: nat, id: nat, tunnel: Tunnel, done: bool, uuid: nat -> string)
    requires Inv(t) && SetOrigin(t, node, id, tunnel, done, uuid).1 == ""
    ensures var after := SetOrigin(t, node, id, tunnel, done, uuid).0;
            && Exists(t.rows, id) && Row(t.rows, id).nodeId == node && OriginProblem(Row(t.rows, id)) == ""
            && Exists(after.rows, id) && Row(after.rows, id) == OriginRow(t, Row(t.rows, id), HolderOf(t.rows, node), uuid)
  {
    SwitchCases(t, node, id, tunnel, done, uuid);
    var target := Row(t.rows, id);
    var current := HolderOf(t.rows, node);
    if current.Some? {
      HolderHolds(t, node, current.value);
    }
    if current.Some? && current.value.id != id {
      SwitchRows(t, target, current.value, uuid);
    } else if !(current.Some? && target.enabled) {
      SavedRow(t, AsOrigin(target), id);
    }
  }

  /** A switch that is not refused leaves the target the one holder of the node's tunnel,
      enabled, with its own users kept in place and joined by every user the old holder
      had; the old holder lets go of the tunnel. */
  lemma SwitchMovesTunnel(t: Table, node: nat, id: nat, tunnel: Tunnel, done: bool, uuid: nat -> string)
    requires Inv(t) && SetOrigin(t, node, id, tunnel, done, uuid).1 == ""
    ensures var after := SetOrigin(t, node, id, tunnel, done, uuid).0;
            && Exists(after.rows, id) && Exists(t.rows, id)
            && Row(after.rows, id).enabled && Row(after.rows, id).Flag(ArgoBound)
            && !TunnelTaken(after.rows, node, id)
            && Row(t.rows, id).clients <= Row(after.rows, id).clients
            && (HolderOf(t.rows, node).Some? ==>
                  Emails(HolderOf(t.rows, node).value.clients) - {""} <= Emails(Row(after.rows, id).clients))
  {
    SwitchLeaves(t, node, id, tunnel, done, uuid);
    if HolderOf(t.rows, node).Some? {
      HolderHolds(t, node, HolderOf(t.rows, node).value);
    }
    OriginKeeps(t, node, id, tunnel, done, uuid);
    RowSound(SetOrigin(t, node, id, tunnel, done, uuid).0, id);
    RowSound(t, id);
    OriginRowHolds(t, Row(t.rows, id), HolderOf(t.rows, node), uuid);
  }

  lemma NewOriginJoins(t: Table, target: Inbound, h: Inbound, uuid: nat -> string)
    ensures Emails(h.clients) - {""} <= Emails(NewOrigin(t, target, h, uuid).clients)
    ensures target.clients <= NewOrigin(t, target, h, uuid).clients
  {
    var emails := Missing(h.clients, target.clients);
    var made := NewClients(t.rows, target, emails, t.nextClient, uuid);
    NewClientsNamed(t.rows, target, emails, t.nextClient, uuid);
    EmailsAppended(h.clients, target.clients, made, emails);
    assert NewOrigin(t, target, h, uuid).clients == target.clients + made;
  }

  lemma NewClientsNamed(rows: seq<Inbound>, target: Inbound, emails: seq<string>, next: nat, uuid: nat -> string)
    ensures var made := NewClients(rows, target, emails, next, uuid);
            |made| == |emails| && forall i :: 0 <= i < |emails| ==> made[i].email == emails[i]
  {
    var made := NewClients(rows, target, emails, next, uuid);
    forall i | 0 <= i < |emails| ensures made[i].email == emails[i] {
      assert made[i] == NewClient(rows, target, emails[i], next + i, uuid(i));
    }
  }

  lemma OriginRowHolds(t: Table, target: Inbound, current: Option<Inbound>, uuid: nat -> string)
    requires SoundRow(target) && OriginProblem(target) == ""
    requires current.Some? && current.value.id == target.id ==> current.value == target && target.Flag(ArgoBound)
    ensures var row := OriginRow(t, target, current, uuid);
            && row.enabled && row.Flag(ArgoBound) && row.nodeId == target.nodeId && target.clients <= row.clients
            && (current.Some? ==> Emails(current.value.clients) - {""} <= Emails(row.clients))
  {
    OriginIsSound(target);
    if current.Some? && current.value.id != target.id {
      NewOriginJoins(t, target, current.value, uuid);
    }
  }

  lemma {:induction false} MissingCovers(from: seq<Client>, to: seq<Client>)
    ensures forall e :: e in Missing(from, to) <==> e in Emails(from) && e != "" && e !in Emails(to)
    ensures forall i, j :: 0 <= i < j < |Missing(from, to)| ==> Missing(from, to)[i] != Missing(from, to)[j]
  {
    if from != [] {
      var n := |from| - 1;
      MissingCovers(from[..n], to);
      assert Emails(from) == Emails(from[..n]) + {from[n].email} by {
        assert forall i :: 0 <= i < n ==> from[..n][i] == from[i];
      }
    }
  }

  lemma EmailsAppended(from: seq<Client>, to: seq<Client>, made: seq<Client>, emails: seq<string>)
    requires emails == Missing(from, to)
    requires |made| == |emails| && forall i :: 0 <= i < |emails| ==> made[i].email == emails[i]
    ensures Emails(from) - {""} <= Emails(to + made)
  {
    var joined := to + made;
    MissingCovers(from, to);
    forall e | e in Emails(from) && e != ""
      ensures e in Emails(joined)
    {
      if e in Emails(to) {
        var i :| 0 <= i < |to| && to[i].email == e;
        assert joined[i] == to[i];
      } else {
        assert e in emails;
        var i :| 0 <= i < |emails| && emails[i] == e;
        assert joined[|to| + i] == made[i];
      }
    }
  }

  /** The same row, users aside. */
  predicate SameButUsers(a: Inbound, b: Inbound) {
    a.(clients := []) == b.(clients := [])
  }

  /** A row as the panel itself leaves the holder of the tunnel. */
  predicate TidyHolder(row: Inbound) {
    row.settings.Json? && row.enabled && Get(row.Fields(), ArgoBound) == Str("true") && ArgoStandby !in row.Fields()
  }

  /** A row as the panel itself leaves an inbound that could hold the tunnel: an edge
      inbound in service, or a dedicated one parked. */
  predicate TidyCandidate(row: Inbound) {
    && row.settings.Json? && ArgoBound !in row.Fields()
    && if row.Flag(EdgeBound) then row.enabled && ArgoStandby !in row.Fields()
       else !row.enabled && Get(row.Fields(), ArgoStandby) == Str("true")
  }

  lemma AsOriginRestores(row: Inbound)
    requires row.Flag(ArgoBound)
    ensures AsOrigin(Released(row)) == row <==> TidyHolder(row)
  {
    var s := row.Fields();
    var back := AsOrigin(Released(row)).Fields();
    assert back == s[ArgoBound := Str("true")] - {ArgoStandby};
    assert Get(back, ArgoBound) == Str("true") && ArgoStandby !in back;
    if TidyHolder(row) {
      assert back == s;
    }
  }

  lemma ReleasedRestores(row: Inbound)
    requires CanFeed(row) && !row.Flag(ArgoBound)
    ensures Released(AsOrigin(row)) == row <==> TidyCandidate(row)
  {
    var s := row.Fields();
    var mid := AsOrigin(row).Fields();
    assert mid - {ArgoBound} == s - {ArgoBound, ArgoStandby};
    assert Get(mid - {ArgoBound}, EdgeBound) == Get(s, EdgeBound);
    var back := Released(AsOrigin(row)).Fields();
    if row.Flag(EdgeBound) {
      assert back == s - {ArgoBound, ArgoStandby};
    } else {
      assert back == (s - {ArgoBound, ArgoStandby})[ArgoStandby := Str("true")];
    }
    assert ArgoBound !in back;
    if TidyCandidate(row) && row.Flag(EdgeBound) {
      assert s - {ArgoBound, ArgoStandby} == s;
    } else if TidyCandidate(row) {
      assert (s - {ArgoBound, ArgoStandby})[ArgoStandby := Str("true")] == s;
    }
  }

  lemma SwitchGoesThrough(t: Table, node: nat, target: Inbound, h: Inbound, tunnel: Tunnel, uuid: nat -> string)
    requires Exists(t.rows, target.id) && target == Row(t.rows, target.id) && target.nodeId == node && target.id > 0
    requires CanFeed(target) && OriginProblem(target) == ""
    requires HolderOf(t.rows, node) == Some(h) && h.id != target.id
    ensures SetOrigin(t, node, target.id, tunnel, true, uuid) == (Switched(t, target, h, uuid), "")
  {
  }

  /** Switching to b and back to a really does go through. */
  lemma SwitchBackSucceeds(t: Table, node: nat, a: Inbound, b: Inbound, back: Tunnel, u: nat -> string, v: nat -> string)
    requires Inv(t) && a.id != b.id && a.nodeId == b.nodeId == node && HolderOf(t.rows, node) == Some(a)
    requires Exists(t.rows, b.id) && b == Row(t.rows, b.id) && OriginProblem(b) == ""
    ensures var mid := Switched(t, b, a, u);
            && Inv(mid) && Exists(mid.rows, a.id) && Exists(mid.rows, b.id) && Exists(t.rows, a.id)
            && Row(mid.rows, a.id) == Released(a) && Row(mid.rows, b.id) == NewOrigin(t, b, a, u)
            && SetOrigin(mid, node, a.id, back, true, v) == (Switched(mid, Released(a), NewOrigin(t, b, a, u), v), "")
  {
    HolderHolds(t, node, a);
    RowSound(t, a.id);
    RowSound(t, b.id);
    SwitchKeeps(t, b, a, u);
    SwitchRows(t, b, a, u);
    OriginIsSound(b);
    ReleasedIsSound(a);
    HolderAfter(Switched(t, b, a, u), node, b.id);
    CanFeedBack(a);
    SwitchGoesThrough(Switched(t, b, a, u), node, Released(a), NewOrigin(t, b, a, u), back, v);
  }

  /** Switching the tunnel from a to b and back succeeds, and leaves both rows as they
      were (users aside) exactly when a was a tidy holder and b a tidy candidate. */
  lemma SwitchBackRestores(t: Table, node: nat, a: nat, b: nat, tunnel: Tunnel, back: Tunnel, u: nat -> string, v: nat -> string)
    requires Inv(t) && a != b
    requires Exists(t.rows, a) && HolderOf(t.rows, node) == Some(Row(t.rows, a))
    requires SetOrigin(t, node, b, tunnel, true, u).1 == ""
    ensures var mid := SetOrigin(t, node, b, tunnel, true, u).0;
            var (end, code) := SetOrigin(mid, node, a, back, true, v);
            && code == "" && Exists(end.rows, a) && Exists(end.rows, b) && Exists(t.rows, b)
            && (SameButUsers(Row(end.rows, a), Row(t.rows, a)) && SameButUsers(Row(end.rows, b), Row(t.rows, b))
                <==> TidyHolder(Row(t.rows, a)) && TidyCandidate(Row(t.rows, b)))
  {
    var ra, rb := Row(t.rows, a), Row(t.rows, b);
    HolderHolds(t, node, ra);
    SwitchBackSucceeds(t, node, ra, rb, back, u, v);
    var mid := Switched(t, rb, ra, u);
    SwitchRows(mid, Released(ra), NewOrigin(t, rb, ra, u), v);
    assert !rb.Flag(ArgoBound) by {
      BIsFree(t, node, a, b);
    }
    var (mine, theirs) := (NewOrigin(mid, Released(ra), NewOrigin(t, rb, ra, u), v), NewOrigin(t, rb, ra, u));
    assert SameButUsers(mine, AsOrigin(Released(ra))) && SameButUsers(theirs, AsOrigin(rb));
    BothRestored(ra, rb, mine, theirs);
  }

  lemma BothRestored(a: Inbound, b: Inbound, mine: Inbound, theirs: Inbound)
    requires a.Flag(ArgoBound) && CanFeed(b) && !b.Flag(ArgoBound)
    requires SameButUsers(mine, AsOrigin(Released(a))) && SameButUsers(theirs, AsOrigin(b))
    ensures SameButUsers(mine, a) && SameButUsers(Released(theirs), b) <==> TidyHolder(a) && TidyCandidate(b)
  {
    AsOriginRestores(a);
    ReleasedRestores(b);
    SameUpToUsers(mine, AsOrigin(Released(a)), a);
    ReleasedIgnoresUsers(theirs, AsOrigin(b));
    SameUpToUsers(Released(theirs), Released(AsOrigin(b)), b);
  }

  lemma BIsFree(t: Table, node: nat, a: nat, b: nat)
    requires Inv(t) && a != b && Exists(t.rows, b) && Row(t.rows, b).nodeId == node
    requires Exists(t.rows, a) && HolderOf(t.rows, node) == Some(Row(t.rows, a))
    ensures !Row(t.rows, b).Flag(ArgoBound)
  {
    if Row(t.rows, b).Flag(ArgoBound) {
      HolderAfter(t, node, b);
    }
  }

  lemma SameUpToUsers(x: Inbound, y: Inbound, z: Inbound)
    requires SameButUsers(x, y) && y.clients == z.clients
    ensures SameButUsers(x, z) <==> y == z
  {
  }

  lemma ReleasedIgnoresUsers(x: Inbound, y: Inbound)
    requires SameButUsers(x, y)
    ensures SameButUsers(Released(x), Released(y))
  {
  }

  lemma HolderAfter(t: Table, node: nat, id: nat)
    requires Inv(t) && Exists(t.rows, id) && Row(t.rows, id).nodeId == node && Row(t.rows, id).Flag(ArgoBound)
    ensures HolderOf(t.rows, node) == Some(Row(t.rows, id))
  {
    var r := Row(t.rows, id);
    HolderIsOne(t.rows, node);
    var i :| 0 <= i < |t.rows| && t.rows[i] == r;
    var h := HolderOf(t.rows, node).value;
    var j :| 0 <= j < |t.rows| && t.rows[j] == h;
    assert i == j;
  }

  lemma CanFeedBack(row: Inbound)
    requires SoundRow(row) && row.Flag(ArgoBound)
    ensures CanFeed(Released(row)) && OriginProblem(Released(row)) == ""
  {
    var before, after := row.Fields(), Released(row).Fields();
    assert Get(after, EdgeBound) == Get(before, EdgeBound);
    assert Get(after[ArgoBound := Str("true")], TlsCertPath) == Get(before, TlsCertPath);
  }
}
