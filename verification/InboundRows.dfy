/** The rows the operations make, and the certificate an update chooses. */
module InboundRows {
  import opened Common
  import opened Addresses
  import opened Settings
  import opened Model
  import opened InboundTable
  import InboundRuns
  import SettingsLaws
  import SettingsValues
  import Firewall

  /** A refused operation leaves the table as it was. */
  lemma RefusalsChangeNothing(t: Table, op: InboundRuns.Op)
    ensures op.OpCreate? && Create(t, op.node, op.create, op.m).1 != "" ==> InboundRuns.Step(t, op) == t
    ensures op.OpUpdate? && Update(t, op.id, op.update, op.certs, op.m).1 != "" ==> InboundRuns.Step(t, op) == t
    ensures op.OpOrigin? && SetOrigin(t, op.node, op.id, op.tunnel, op.ingressDone, op.uuid).1 != "" ==> InboundRuns.Step(t, op) == t
    ensures op.OpEdge? && EnsureEdge(t, op.node, op.draw).1 != "" ==> InboundRuns.Step(t, op) == t
  {
    if op.OpCreate? && CreateSettings(op.create, op.m).Err? {
      InboundRuns.NoSilentFailure(op.create, op.m);
    }
  }

  /** An accepted creation adds one row, as requested: with no users, enabled unless asked
      otherwise, under an id no row has. */
  lemma CreatedAsRequested(t: Table, node: nat, req: CreateRequest, m: Mint)
    requires InboundRuns.Keyed(t) && Create(t, node, req, m).1 == ""
    ensures !Exists(t.rows, t.nextId)
    ensures var rows := Create(t, node, req, m).0.rows;
            && |rows| == |t.rows| + 1 && rows[..|t.rows|] == t.rows
            && var row := rows[|t.rows|];
            && row.id == t.nextId && row.nodeId == node && row.tag == req.tag && row.typ == req.typ
            && row.listen == req.listen && row.port == req.port && row.network == req.network && row.remark == req.remark
            && (row.enabled <==> req.enabled != Some(false)) && row.clients == []
            && row.settings.Json? && CreateSettings(req, m) == Ok(row.Fields())
  {
    InboundRuns.CreateGated(t, node, req, m);
  }

  // ---- The CDN node ----

  /** Another row has the tag or the socket. */
  ghost predicate Clashes(rows: seq<Inbound>, tag: string, listen: Text, port: int) {
    exists i :: 0 <= i < |rows| && (rows[i].tag == tag || (rows[i].listen == listen && rows[i].port == port))
  }

  lemma EdgeSucceedsExactly(t: Table, node: nat, draw: EdgeDraw)
    requires InboundRuns.Keyed(t)
    ensures EnsureEdge(t, node, draw).1 == ""
       <==> HasEdge(t.rows, node) || (draw.port.Some? && !Clashes(t.rows, draw.tag, Canonical(V4(127, 0, 0, 1)), draw.port.value))
  {
    if draw.port.Some? {
      assert Conflict(t.rows, t.nextId, draw.tag, LOOPBACK_TEXT, draw.port.value)
        <==> Clashes(t.rows, draw.tag, Canonical(V4(127, 0, 0, 1)), draw.port.value);
    }
  }

  /** What the set-up makes serves the edge alone: an enabled WebSocket inbound on 127.0.0.1,
      marked as bound to it, on the free port and path drawn, so the engine listens on
      loopback only and no port is opened for it. */
  lemma EdgeIsBound(t: Table, node: nat, draw: EdgeDraw, trim: string -> string)
    requires EnsureEdge(t, node, draw).0 != t
    ensures var rows := EnsureEdge(t, node, draw).0.rows;
            && |rows| == |t.rows| + 1 && rows[..|t.rows|] == t.rows
            && var row := rows[|t.rows|];
            && row.id == t.nextId && row.nodeId == node && row.enabled && row.typ == VlessWs && row.tag == draw.tag
            && row.Flag(EdgeBound) && !row.Flag(ArgoBound) && !row.Flag(CdnMode)
            && row.listen == Canonical(V4(127, 0, 0, 1)) && Some(row.port) == draw.port
            && Get(row.Fields(), WsPath) == Str(draw.path)
            && Firewall.Rendered(row).Ok? && Firewall.Rendered(row).value.listen == row.listen
            && !Firewall.Exposed(row, trim)
  {
  }

  /** Once is enough: after the set-up has succeeded the node has its edge inbound, and a
      second set-up, whatever it draws, changes nothing. */
  lemma EdgeOnce(t: Table, node: nat, draw: EdgeDraw, again: EdgeDraw)
    requires EnsureEdge(t, node, draw).1 == ""
    ensures var after := EnsureEdge(t, node, draw).0;
            HasEdge(after.rows, node) && EnsureEdge(after, node, again) == (after, "")
  {
    var after := EnsureEdge(t, node, draw).0;
    if after != t {
      var row := after.rows[|t.rows|];
      assert row.nodeId == node && row.enabled && row.Flag(EdgeBound);
    }
  }

  // ---- The certificate an update chooses ----

  /** Certificate i is the first that fits. */
  ghost predicate FirstFit(i: int, domain: string, certs: Certs) {
    && 0 <= i < |certs.issued| && Usable(certs.issued[i], domain, certs)
    && forall j :: 0 <= j < i ==> !Usable(certs.issued[j], domain, certs)
  }

  lemma {:induction false} FirstUsableFits(cs: seq<Certificate>, domain: string, certs: Certs)
    ensures FirstUsable(cs, domain, certs).None? <==> forall i :: 0 <= i < |cs| ==> !Usable(cs[i], domain, certs)
    ensures FirstUsable(cs, domain, certs).Some? ==>
              exists i :: 0 <= i < |cs| && Usable(cs[i], domain, certs) && FirstUsable(cs, domain, certs).value == cs[i]
                          && forall j :: 0 <= j < i ==> !Usable(cs[j], domain, certs)
  {
    if cs != [] {
      FirstUsableFits(cs[1..], domain, certs);
      assert forall i :: 1 <= i < |cs| ==> cs[i] == cs[1..][i - 1];
      if !Usable(cs[0], domain, certs) && FirstUsable(cs[1..], domain, certs).Some? {
        var i :| 0 <= i < |cs[1..]| && Usable(cs[1..][i], domain, certs) && FirstUsable(cs[1..], domain, certs).value == cs[1..][i]
                 && forall j :: 0 <= j < i ==> !Usable(cs[1..][j], domain, certs);
        assert cs[i + 1] == cs[1..][i];
        assert forall j :: 0 <= j < i + 1 ==> !Usable(cs[j], domain, certs);
      }
    }
  }

  /** The settings use the certificate, as one the panel renews. */
  ghost predicate Uses(r: Fields, c: Certificate) {
    && Get(r, TlsCertPath) == Str(c.certPath) && Get(r, TlsKeyPath) == Str(c.keyPath) && Get(r, Sni) == Str(c.domain)
    && Get(r, AcmeManaged) == Str("true") && SelfSigned !in r
  }

  /** A choice of certificate is refused exactly when it names a domain for which no issued
      certificate has both files. */
  lemma CertRefusedExactly(s: Fields, choice: string, certs: Certs)
    ensures var domain := certs.trimSpace(choice);
            WithCert(s, choice, certs).Err?
            <==> !("keep:" <= domain) && domain != "" && forall i :: 0 <= i < |certs.issued| ==> !Usable(certs.issued[i], domain, certs)
  {
    FirstUsableFits(certs.issued, certs.trimSpace(choice), certs);
  }

  /** A kept certificate stays as it is; no domain means the wizard's self-signed pair; a
      domain the first issued certificate that fits. One of the two marks is left. */
  lemma CertIsChosen(s: Fields, choice: string, certs: Certs)
    requires WithCert(s, choice, certs).Ok?
    ensures var (domain, r) := (certs.trimSpace(choice), WithCert(s, choice, certs).value);
            if "keep:" <= domain then r == s
            else if domain == "" then
              && Get(r, TlsCertPath) == Str("/etc/edgenest/certs/wizard-fullchain.pem")
              && Get(r, TlsKeyPath) == Str("/etc/edgenest/certs/wizard-privkey.pem")
              && Get(r, Sni) == Get(s, Sni) && Get(r, SelfSigned) == Str("true") && AcmeManaged !in r
            else exists i :: FirstFit(i, domain, certs) && Uses(r, certs.issued[i])
  {
    var domain := certs.trimSpace(choice);
    if !("keep:" <= domain) && domain != "" {
      FirstUsableFits(certs.issued, domain, certs);
      var i :| 0 <= i < |certs.issued| && Usable(certs.issued[i], domain, certs)
               && FirstUsable(certs.issued, domain, certs).value == certs.issued[i]
               && forall j :: 0 <= j < i ==> !Usable(certs.issued[j], domain, certs);
      assert FirstFit(i, domain, certs);
      FoundIsUsed(s, choice, certs, certs.issued[i]);
    }
  }

  lemma FoundIsUsed(s: Fields, choice: string, certs: Certs, c: Certificate)
    requires !("keep:" <= certs.trimSpace(choice)) && certs.trimSpace(choice) != ""
    requires FirstUsable(certs.issued, certs.trimSpace(choice), certs) == Some(c)
    ensures WithCert(s, choice, certs).Ok? && Uses(WithCert(s, choice, certs).value, c)
  {
  }

  /** It touches nothing but the certificate. */
  lemma CertTouchesOnly(s: Fields, choice: string, certs: Certs, k: Key)
    requires WithCert(s, choice, certs).Ok? && k !in {TlsCertPath, TlsKeyPath, Sni, SelfSigned, AcmeManaged}
    ensures SettingsLaws.Same(s, WithCert(s, choice, certs).value, k)
  {
  }

  // ---- What an accepted update shows ----

  lemma UpdatedRow(t: Table, id: nat, req: UpdateRequest, certs: Certs, m: Mint)
    requires InboundRuns.Keyed(t) && Update(t, id, req, certs, m).1 == "" && req.advanced.Some?
    ensures Exists(t.rows, id) && Exists(Update(t, id, req, certs, m).0.rows, id)
    ensures var (was, now) := (Row(t.rows, id), Row(Update(t, id, req, certs, m).0.rows, id));
            && now.typ == was.typ && UpdatedSettings(was.typ, req.advanced.value, was.Fields(), m).Ok?
            && UpdateSettings(was.typ, req, was.Fields(), certs, m) == Ok(now.Fields())
  {
    InboundRuns.UpdateSaves(t, id, req, certs, m);
    InboundRuns.SavedRow(t, Candidate(t.rows, Row(t.rows, id), req, certs, m).value, id);
  }

  /** A meaningful edit of a form field shows in the updated row's form as written, unless the
      update chose a certificate, which decides the disguise name and the renewal itself. */
  lemma UpdateReadsBack(t: Table, id: nat, req: UpdateRequest, certs: Certs, m: Mint, k: Key)
    requires InboundRuns.Keyed(t) && Update(t, id, req, certs, m).1 == "" && req.advanced.Some?
    requires k in FormFields(Row(t.rows, id).typ) && SettingsLaws.Full(req.advanced.value, k)
    requires !(Row(t.rows, id).typ.Hysteria2? && k == Obfs)
    requires Get(req.advanced.value, CertDomain).Str? ==> k != Sni && k != AcmeManaged
    ensures var after := Update(t, id, req, certs, m).0.rows;
            && Exists(after, id)
            && var view := FormView(Row(after, id).typ, Row(after, id).Fields());
            k in view && view[k] == req.advanced.value[k]
  {
    UpdatedRow(t, id, req, certs, m);
    var (was, now) := (Row(t.rows, id), Row(Update(t, id, req, certs, m).0.rows, id));
    var filled := UpdatedSettings(was.typ, req.advanced.value, was.Fields(), m).value;
    WrittenInto(was.typ, req.advanced.value, was.Fields(), m, k);
    if CertSelectable(was.typ) && Get(req.advanced.value, CertDomain).Str? {
      SettingsValues.FormReachesNoMaterial(was.typ, k);
      CertTouchesOnly(filled, req.advanced.value[CertDomain].s, certs, k);
    }
    SettingsLaws.ViewAt(now.typ, now.Fields(), k);
  }

  lemma WrittenInto(typ: Protocol, advanced: Fields, existing: Fields, m: Mint, k: Key)
    requires UpdatedSettings(typ, advanced, existing, m).Ok? && k in FormFields(typ) && SettingsLaws.Full(advanced, k)
    requires !(typ.Hysteria2? && k == Obfs)
    ensures var r := UpdatedSettings(typ, advanced, existing, m).value; k in r && r[k] == advanced[k]
  {
    SettingsLaws.FormHasNoSecret(typ, k);
    SettingsLaws.MergedAt(typ, existing, advanced, k);
    SettingsLaws.AutofillFills(typ, Merged(typ, existing, advanced), existing, m, k);
  }

  /** An update that chooses a certificate leaves the row with the one chosen. */
  lemma UpdateUsesTheCert(t: Table, id: nat, req: UpdateRequest, certs: Certs, m: Mint)
    requires InboundRuns.Keyed(t) && Update(t, id, req, certs, m).1 == "" && req.advanced.Some?
    requires CertSelectable(Row(t.rows, id).typ) && Get(req.advanced.value, CertDomain).Str?
    ensures var (after, domain) := (Update(t, id, req, certs, m).0.rows, certs.trimSpace(req.advanced.value[CertDomain].s));
            && Exists(after, id)
            && var now := Row(after, id).Fields();
            if "keep:" <= domain then UpdatedSettings(Row(t.rows, id).typ, req.advanced.value, Row(t.rows, id).Fields(), m) == Ok(now)
            else if domain == "" then Get(now, TlsCertPath) == WIZARD_CERT && Get(now, TlsKeyPath) == WIZARD_KEY && AcmeManaged !in now
            else exists i :: FirstFit(i, domain, certs) && Uses(now, certs.issued[i])
  {
    UpdatedRow(t, id, req, certs, m);
    var was := Row(t.rows, id);
    var filled := UpdatedSettings(was.typ, req.advanced.value, was.Fields(), m).value;
    CertIsChosen(filled, req.advanced.value[CertDomain].s, certs);
  }
}
