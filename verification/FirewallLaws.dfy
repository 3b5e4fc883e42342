/** Listeners and openings agree, the operator is never locked out, and nothing else
    is opened. */
module FirewallLaws {
  import opened Common
  import opened Addresses
  import opened Model
  import opened Antiblock
  import opened Firewall

  // ---- What listens and what is opened ----

  /** What is asked of a listen address: that the orchestrator's test does not know it as
      local, or that it is no loopback address. */
  datatype Test = Untold | Outside

  predicate Passes(l: Text, test: Test, trim: string -> string) {
    if test.Untold? then !LocalOnly(l, trim) else !IsLoopbackListen(l)
  }

  /** The sockets the rows ask for whose listen address passes a test. */
  ghost predicate Asked(rows: seq<Inbound>, key: (int, string), test: Test, trim: string -> string) {
    exists i :: 0 <= i < |rows| && Asks(rows[i], key, test, trim)
  }

  predicate Asks(row: Inbound, key: (int, string), test: Test, trim: string -> string) {
    row.enabled && !Shielded(row.Fields()) && OpeningKey(row) == key && Passes(row.listen, test, trim)
  }

  lemma AskedAppend(rows: seq<Inbound>, key: (int, string), test: Test, trim: string -> string)
    requires rows != []
    ensures Asked(rows, key, test, trim) <==> Asked(rows[..|rows| - 1], key, test, trim) || Asks(rows[|rows| - 1], key, test, trim)
  {
    var n := |rows| - 1;
    assert forall i :: 0 <= i < n ==> rows[..n][i] == rows[i];
    if i :| 0 <= i < |rows| && Asks(rows[i], key, test, trim) {
      assert i < n ==> Asks(rows[..n][i], key, test, trim);
    }
  }

  /** An opening is derived exactly for the sockets of enabled, unshielded rows whose listen
      address the orchestrator's own test does not know as local. */
  lemma {:induction false} OpeningsFollowTheTest(rows: seq<Inbound>, key: (int, string), trim: string -> string)
    ensures Opens(Derived(rows, trim), key) <==> Asked(rows, key, Untold, trim)
  {
    if rows != [] {
      var (front, row) := (rows[..|rows| - 1], rows[|rows| - 1]);
      OpeningsFollowTheTest(front, key, trim);
      AskedAppend(rows, key, Untold, trim);
      OpensAppend(Derived(front, trim), PortRule(row.port, NormaliseProto(row.typ, row.network), "edgenest:" + row.tag), key);
    }
  }

  /** Something rendered listens there on an address the outside can reach. */
  ghost predicate Reachable(ls: seq<Listener>, key: (int, string)) {
    exists i :: 0 <= i < |ls| && Serves(ls[i], key)
  }

  predicate Serves(l: Listener, key: (int, string)) {
    !IsLoopbackListen(l.listen) && (l.port, NormaliseProto(l.typ, l.network)) == key
  }

  lemma ReachableAppend(ls: seq<Listener>, l: Listener, key: (int, string))
    ensures Reachable(ls + [l], key) <==> Reachable(ls, key) || Serves(l, key)
  {
    var more := ls + [l];
    assert more[|ls|] == l;
    if i :| 0 <= i < |ls| && Serves(ls[i], key) {
      assert Serves(more[i], key);
    }
    if i :| 0 <= i < |more| && Serves(more[i], key) {
      assert i < |ls| ==> Serves(ls[i], key);
    }
  }

  /** What is reachable is what enabled, unshielded rows ask for on no loopback address: a
      shielded row is rendered on 127.0.0.1. */
  lemma {:induction false} ReachableIsAsked(rows: seq<Inbound>, key: (int, string), trim: string -> string)
    requires RenderedAll(rows).Ok?
    ensures Reachable(RenderedAll(rows).value, key) <==> Asked(rows, key, Outside, trim)
  {
    if rows != [] {
      var (front, row) := (rows[..|rows| - 1], rows[|rows| - 1]);
      ReachableIsAsked(front, key, trim);
      AskedAppend(rows, key, Outside, trim);
      if row.enabled {
        ReachableAppend(RenderedAll(front).value, Rendered(row).value, key);
      }
    }
  }

  /** The orchestrator's test and the handlers' disagree on the row's listen address. */
  predicate Disputed(row: Inbound, trim: string -> string) {
    row.enabled && !Shielded(row.Fields()) && LocalOnly(row.listen, trim) != IsLoopbackListen(row.listen)
  }

  /** Which addresses the two tests tell apart: loopback addresses other than 127.0.0.1 and
      ::1, those two spelled unusually, and names that only trimming makes local, or unmakes. */
  lemma TestsDisagreeExactly(l: Text, trim: string -> string)
    ensures LocalOnly(l, trim) != IsLoopbackListen(l)
       <==> match l
            case Literal(ip, spelling) => IsLoopback(ip) && (spelling != 0 || (ip != V4(127, 0, 0, 1) && ip != V6([0, 0, 0, 0, 0, 0, 0, 1])))
            case Name(t) => (t == "localhost") != (trim(t) in {"localhost", "127.0.0.1", "::1"})
  {
  }

  /** The dispute over row i does no harm: another enabled, unshielded row asks for the same
      socket and settles it. A port that would be opened for nothing is served by a row on an
      address that is not loopback; one that would be missed is opened for a row the
      orchestrator's test does not call local. */
  ghost predicate Settled(rows: seq<Inbound>, i: nat, trim: string -> string)
    requires i < |rows|
  {
    Asked(rows, OpeningKey(rows[i]), if LocalOnly(rows[i].listen, trim) then Untold else Outside, trim)
  }

  /** For whatever is in the database, once the engine gets a configuration: its reachable
      listeners and the openings made for inbounds are the same sockets exactly when the
      table settles every disputed row. */
  lemma OpeningsMatchListeners(db: Inputs)
    requires RenderedAll(Running(db.rows, db.posture)).Ok?
    ensures var rows := Running(db.rows, db.posture);
            (forall key :: Opens(Derived(rows, db.trim), key) <==> Reachable(RenderedAll(rows).value, key))
            <==> forall i :: 0 <= i < |rows| && Disputed(rows[i], db.trim) ==> Settled(rows, i, db.trim)
  {
    var rows := Running(db.rows, db.posture);
    forall key ensures Opens(Derived(rows, db.trim), key) <==> Asked(rows, key, Untold, db.trim) {
      OpeningsFollowTheTest(rows, key, db.trim);
    }
    forall key ensures Reachable(RenderedAll(rows).value, key) <==> Asked(rows, key, Outside, db.trim) {
      ReachableIsAsked(rows, key, db.trim);
    }
    DisputesDecide(rows, db.trim);
  }

  /** The two tests ask for the same sockets exactly when every dispute is settled. */
  lemma DisputesDecide(rows: seq<Inbound>, trim: string -> string)
    ensures (forall key :: Asked(rows, key, Untold, trim) <==> Asked(rows, key, Outside, trim))
       <==> forall i :: 0 <= i < |rows| && Disputed(rows[i], trim) ==> Settled(rows, i, trim)
  {
    forall i | 0 <= i < |rows| && Disputed(rows[i], trim)
      ensures var key := OpeningKey(rows[i]);
              Settled(rows, i, trim) <==> (Asked(rows, key, Untold, trim) <==> Asked(rows, key, Outside, trim))
    {
      assert Asks(rows[i], OpeningKey(rows[i]), if LocalOnly(rows[i].listen, trim) then Outside else Untold, trim);
    }
    if forall i :: 0 <= i < |rows| && Disputed(rows[i], trim) ==> Settled(rows, i, trim) {
      forall key ensures Asked(rows, key, Untold, trim) <==> Asked(rows, key, Outside, trim) {
        if i :| 0 <= i < |rows| && Asks(rows[i], key, Untold, trim) {
          assert Disputed(rows[i], trim) || Asks(rows[i], key, Outside, trim);
        }
        if i :| 0 <= i < |rows| && Asks(rows[i], key, Outside, trim) {
          assert Disputed(rows[i], trim) || Asks(rows[i], key, Untold, trim);
        }
      }
    }
  }

  /** 127.0.0.2 is a loopback address the orchestrator's test does not know: the port of an
      inbound that listens there is opened, and nothing listens behind it. */
  lemma LoopbackIsOpened(row: Inbound, trim: string -> string)
    requires row.enabled && !Shielded(row.Fields()) && row.listen == Canonical(V4(127, 0, 0, 2)) && Rendered(row).Ok?
    ensures Opens(Derived([row], trim), OpeningKey(row))
    ensures RenderedAll([row]) == Ok([Rendered(row).value]) && !Reachable([Rendered(row).value], OpeningKey(row))
  {
    var rows := [row];
    assert rows[..|rows| - 1] == [];
    assert RenderedAll([]) == Ok([]);
    assert [] + [Rendered(row).value] == [Rendered(row).value];
    assert RenderedAll(rows) == Ok([] + [Rendered(row).value]);
    assert !Serves(Rendered(row).value, OpeningKey(row));
    assert Derived(rows, trim)[0].Key() == OpeningKey(row);
  }

  lemma {:induction false} OnlyShieldedRun(rows: seq<Inbound>, p: Config)
    requires p.stealth
    ensures forall i :: 0 <= i < |Running(rows, p)| ==> Shielded(Running(rows, p)[i].Fields())
  {
    if rows != [] {
      OnlyShieldedRun(rows[..|rows| - 1], p);
    }
  }

  lemma {:induction false} ShieldedStayInside(rows: seq<Inbound>, trim: string -> string)
    requires forall i :: 0 <= i < |rows| ==> Shielded(rows[i].Fields())
    ensures Derived(rows, trim) == []
    ensures RenderedAll(rows).Ok? ==> forall i :: 0 <= i < |RenderedAll(rows).value| ==> RenderedAll(rows).value[i].listen == LOOPBACK_TEXT
  {
    if rows != [] {
      ShieldedStayInside(rows[..|rows| - 1], trim);
    }
  }

  /** In low-profile mode everything rendered is on 127.0.0.1 and no inbound has an
      opening. */
  lemma LowProfileIsDark(db: Inputs)
    requires db.posture.stealth
    ensures Derived(Running(db.rows, db.posture), db.trim) == []
    ensures RenderedAll(Running(db.rows, db.posture)).Ok? ==>
              forall i :: 0 <= i < |RenderedAll(Running(db.rows, db.posture)).value| ==>
                            RenderedAll(Running(db.rows, db.posture)).value[i].listen == LOOPBACK_TEXT
  {
    OnlyShieldedRun(db.rows, db.posture);
    ShieldedStayInside(Running(db.rows, db.posture), db.trim);
  }

  // ---- What is pushed ----

  lemma OpensConcat(a: seq<PortRule>, b: seq<PortRule>, key: (int, string))
    ensures Opens(a + b, key) <==> Opens(a, key) || Opens(b, key)
  {
    var c := a + b;
    if i :| 0 <= i < |a| && a[i].Key() == key {
      assert c[i] == a[i];
    }
    if i :| 0 <= i < |b| && b[i].Key() == key {
      assert c[|a| + i] == b[i];
    }
    if i :| 0 <= i < |c| && c[i].Key() == key {
      assert if i < |a| then a[i] == c[i] else b[i - |a|] == c[i];
    }
  }

  lemma ReserveOpens(allow: seq<PortRule>, port: int, note: string, rules: seq<FirewallRule>, key: (int, string))
    ensures Opens(Reserve(allow, port, note, rules), key)
       <==> Opens(allow, key) || (port > 0 && key == (port, "tcp") && !UserCovers(rules, key))
  {
    OpensAppend(allow, PortRule(port, "tcp", note), key);
  }

  lemma {:induction false} UserRulesOpen(allow: seq<PortRule>, rules: seq<FirewallRule>, key: (int, string))
    ensures Opens(WithUserRules(allow, rules), key) <==> Opens(allow, key) || UserCovers(rules, key)
  {
    if rules != [] {
      var n := |rules| - 1;
      var r := rules[n];
      UserRulesOpen(allow, rules[..n], key);
      OpensAppend(WithUserRules(allow, rules[..n]), PortRule(r.port, r.proto, "user:" + r.note), key);
      if i :| 0 <= i < |rules| && !rules[i].managed && rules[i].Key() == key {
        if i < n {
          assert rules[..n][i] == rules[i];
        }
      }
      if i :| 0 <= i < n && !rules[..n][i].managed && rules[..n][i].Key() == key {
        assert rules[i] == rules[..n][i];
      }
    }
  }

  /** The pushed list opens exactly: what reachable inbounds need, what the built-in
      gateway needs, SSH and the panel where their ports are set, and every rule of the
      operator's. So for any state of the database SSH and the panel stay open. */
  lemma PushedExactly(db: Inputs, key: (int, string))
    ensures Opens(Pushed(db), key)
       <==> || Opens(Derived(Running(db.rows, db.posture), db.trim), key)
            || Opens(GatewayPorts(db.posture), key)
            || (db.sshPort > 0 && key == (db.sshPort, "tcp"))
            || (db.panelPort > 0 && key == (db.panelPort, "tcp"))
            || UserCovers(db.rules, key)
  {
    var derived := Derived(Running(db.rows, db.posture), db.trim);
    OpensConcat(derived, GatewayPorts(db.posture), key);
    var base := derived + GatewayPorts(db.posture);
    ReserveOpens(base, db.sshPort, "edgenest:safe-mode-ssh", db.rules, key);
    ReserveOpens(Reserve(base, db.sshPort, "edgenest:safe-mode-ssh", db.rules), db.panelPort, "edgenest:safe-mode-panel", db.rules, key);
    UserRulesOpen(Managed(db), db.rules, key);
  }

  /** The panel never claims a port for safe mode that the operator has a rule for, so
      syncing cannot touch the operator's note. */
  lemma ManagedExactly(db: Inputs, key: (int, string))
    ensures Opens(Managed(db), key)
       <==> || Opens(Derived(Running(db.rows, db.posture), db.trim), key)
            || Opens(GatewayPorts(db.posture), key)
            || (!UserCovers(db.rules, key) &&
                ((db.sshPort > 0 && key == (db.sshPort, "tcp")) || (db.panelPort > 0 && key == (db.panelPort, "tcp"))))
  {
    var derived := Derived(Running(db.rows, db.posture), db.trim);
    OpensConcat(derived, GatewayPorts(db.posture), key);
    var base := derived + GatewayPorts(db.posture);
    ReserveOpens(base, db.sshPort, "edgenest:safe-mode-ssh", db.rules, key);
    ReserveOpens(Reserve(base, db.sshPort, "edgenest:safe-mode-ssh", db.rules), db.panelPort, "edgenest:safe-mode-panel", db.rules, key);
  }

  // ---- What the notes say ----

  /** The rule is one for an exposed row, by its tag. */
  ghost predicate ForRow(r: PortRule, rows: seq<Inbound>, trim: string -> string) {
    exists i :: 0 <= i < |rows| && Exposed(rows[i], trim) && r.Key() == OpeningKey(rows[i]) && r.note == "edgenest:" + rows[i].tag
  }

  /** The rule is one of the operator's, by its note. */
  ghost predicate ForUser(r: PortRule, rules: seq<FirewallRule>) {
    exists i :: 0 <= i < |rules| && !rules[i].managed && r.Key() == rules[i].Key() && r.note == "user:" + rules[i].note
  }

  lemma {:induction false} DerivedNames(rows: seq<Inbound>, trim: string -> string, r: PortRule)
    requires r in Derived(rows, trim)
    ensures ForRow(r, rows, trim)
  {
    var n := |rows| - 1;
    assert forall i :: 0 <= i < n ==> rows[..n][i] == rows[i];
    if r in Derived(rows[..n], trim) {
      DerivedNames(rows[..n], trim, r);
    } else {
      assert Exposed(rows[n], trim) && r.Key() == OpeningKey(rows[n]);
    }
  }

  lemma {:induction false} UserRulesName(allow: seq<PortRule>, rules: seq<FirewallRule>, r: PortRule)
    requires r in WithUserRules(allow, rules)
    ensures r in allow || ForUser(r, rules)
  {
    if rules != [] {
      var n := |rules| - 1;
      assert forall i :: 0 <= i < n ==> rules[..n][i] == rules[i];
      if r in WithUserRules(allow, rules[..n]) {
        UserRulesName(allow, rules[..n], r);
      } else {
        assert r.Key() == rules[n].Key();
      }
    }
  }

  lemma ReserveNames(allow: seq<PortRule>, port: int, note: string, rules: seq<FirewallRule>, r: PortRule)
    requires r in Reserve(allow, port, note, rules)
    ensures r in allow || r == PortRule(port, "tcp", note)
  {
  }

  /** Every pushed rule says where it comes from: an exposed inbound by its tag, the gateway,
      safe mode, or a rule of the operator's by its own note. */
  lemma NotesNameTheSource(db: Inputs, r: PortRule)
    requires r in Pushed(db)
    ensures || ForRow(r, Running(db.rows, db.posture), db.trim)
            || r in GatewayPorts(db.posture)
            || r == PortRule(db.sshPort, "tcp", "edgenest:safe-mode-ssh")
            || r == PortRule(db.panelPort, "tcp", "edgenest:safe-mode-panel")
            || ForUser(r, db.rules)
  {
    UserRulesName(Managed(db), db.rules, r);
    if !ForUser(r, db.rules) {
      var derived := Derived(Running(db.rows, db.posture), db.trim);
      var base := derived + GatewayPorts(db.posture);
      var withSsh := Reserve(base, db.sshPort, "edgenest:safe-mode-ssh", db.rules);
      ReserveNames(withSsh, db.panelPort, "edgenest:safe-mode-panel", db.rules, r);
      if r in withSsh {
        ReserveNames(base, db.sshPort, "edgenest:safe-mode-ssh", db.rules, r);
      }
      if r in derived {
        DerivedNames(Running(db.rows, db.posture), db.trim, r);
      }
    }
  }
}
