/** Bringing the stored panel-managed rules in line with the wanted ones
    (internal/control/orchestrator/orchestrator.go, internal/control/store/inbound.go). */
module FirewallSync {
  import opened Common
  import opened Firewall

  // ---- The index key ----

  function Itoa(n: int): string {
    if n < 0 then ['-'] + Decimal(-n) else Decimal(n)
  }

  function FwKey(port: int, proto: string): string {
    Itoa(port) + ['/'] + proto
  }

  lemma {:induction false} DecimalIsInjective(a: nat, b: nat)
    requires Decimal(a) == Decimal(b)
    ensures a == b
  {
    var da, db := Decimal(a), Decimal(b);
    assert da[|da| - 1] == Digit(a % 10) && db[|db| - 1] == Digit(b % 10);
    assert a % 10 == b % 10;
    DecimalNotEmpty(a / 10);
    DecimalNotEmpty(b / 10);
    if a >= 10 && b >= 10 {
      assert da[..|da| - 1] == Decimal(a / 10) && db[..|db| - 1] == Decimal(b / 10);
      DecimalIsInjective(a / 10, b / 10);
    }
  }

  lemma {:induction false} DecimalNotEmpty(n: nat)
    ensures |Decimal(n)| >= 1
  {
  }

  lemma {:induction false} DecimalIsDigits(n: nat)
    ensures forall i :: 0 <= i < |Decimal(n)| ==> Decimal(n)[i] != '/' && Decimal(n)[i] != '-'
  {
    assert forall d :: 0 <= d < 10 ==> Digit(d) != '/' && Digit(d) != '-';
    if n >= 10 {
      DecimalIsDigits(n / 10);
    }
  }

  lemma ItoaIsInjective(a: int, b: int)
    requires Itoa(a) == Itoa(b)
    ensures a == b
  {
    var (m, n) := (if a < 0 then -a else a, if b < 0 then -b else b);
    DecimalIsDigits(m);
    DecimalIsDigits(n);
    DecimalNotEmpty(m);
    DecimalNotEmpty(n);
    if a < 0 {
      assert Itoa(a)[0] == '-';
      assert Itoa(a)[1..] == Decimal(m);
    }
    if b < 0 {
      assert Itoa(b)[0] == '-';
      assert Itoa(b)[1..] == Decimal(n);
    }
    if a >= 0 {
      assert Itoa(a)[0] != '-';
    }
    if b >= 0 {
      assert Itoa(b)[0] != '-';
    }
    DecimalIsInjective(m, n);
  }

  lemma ItoaHasNoSlash(a: int)
    ensures forall i :: 0 <= i < |Itoa(a)| ==> Itoa(a)[i] != '/'
  {
    DecimalIsDigits(if a < 0 then -a else a);
  }

  /** The text key stands for the pair: no two sockets share one. */
  lemma FwKeyIsInjective(p: int, a: string, q: int, b: string)
    requires FwKey(p, a) == FwKey(q, b)
    ensures p == q && a == b
  {
    var k, l := FwKey(p, a), FwKey(q, b);
    var (x, y) := (Itoa(p), Itoa(q));
    ItoaHasNoSlash(p);
    ItoaHasNoSlash(q);
    assert k[|x|] == '/' && l[|y|] == '/';
    assert forall i :: 0 <= i < |x| ==> k[i] == x[i];
    assert forall i :: 0 <= i < |y| ==> l[i] == y[i];
    assert |x| == |y|;
    assert x == k[..|x|] && y == l[..|y|] && a == k[|x| + 1..] && b == l[|y| + 1..];
    ItoaIsInjective(p, q);
  }

  // ---- The rows ----

  function ManagedKeys(rows: seq<FirewallRule>): set<(int, string)> {
    set i | 0 <= i < |rows| && rows[i].managed :: rows[i].Key()
  }

  function WantedKeys(want: seq<PortRule>): set<(int, string)> {
    set i | 0 <= i < |want| :: want[i].Key()
  }

  /** The rule is the last one wanted for its socket. */
  ghost predicate Latest(want: seq<PortRule>, r: PortRule) {
    exists i :: 0 <= i < |want| && want[i] == r && forall j :: i < j < |want| ==> want[j].Key() != r.Key()
  }

  lemma LatestStays(want: seq<PortRule>, more: PortRule, r: PortRule)
    requires Latest(want, r) && more.Key() != r.Key()
    ensures Latest(want + [more], r)
  {
    var i :| 0 <= i < |want| && want[i] == r && forall j :: i < j < |want| ==> want[j].Key() != r.Key();
    assert (want + [more])[i] == r;
  }

  lemma LatestIsLast(want: seq<PortRule>, more: PortRule)
    ensures Latest(want + [more], more)
  {
    assert (want + [more])[|want|] == more;
  }

  /** The operator's rows, in order. */
  function UserRows(rows: seq<FirewallRule>): seq<FirewallRule> {
    if rows == [] then []
    else if rows[0].managed then UserRows(rows[1..])
    else [rows[0]] + UserRows(rows[1..])
  }

  /** The managed rows whose keys are in the set, in order. */
  function KeptRows(rows: seq<FirewallRule>, keys: set<(int, string)>): seq<FirewallRule> {
    if rows == [] then []
    else if rows[0].managed && rows[0].Key() in keys then [rows[0]] + KeptRows(rows[1..], keys)
    else KeptRows(rows[1..], keys)
  }

  /** The rows without the managed ones whose keys are in the set. */
  function Purged(rows: seq<FirewallRule>, keys: set<(int, string)>): seq<FirewallRule> {
    if rows == [] then []
    else if rows[0].managed && rows[0].Key() in keys then Purged(rows[1..], keys)
    else [rows[0]] + Purged(rows[1..], keys)
  }

  lemma {:induction false} PurgeNothing(rows: seq<FirewallRule>)
    ensures Purged(rows, {}) == rows
  {
    if rows != [] {
      PurgeNothing(rows[1..]);
    }
  }

  lemma {:induction false} PurgeTwice(rows: seq<FirewallRule>, a: set<(int, string)>, b: set<(int, string)>)
    ensures Purged(Purged(rows, a), b) == Purged(rows, a + b)
  {
    if rows != [] {
      PurgeTwice(rows[1..], a, b);
      var rest := Purged(rows[1..], a);
      if !(rows[0].managed && rows[0].Key() in a) {
        assert ([rows[0]] + rest)[1..] == rest;
      }
    }
  }

  lemma {:induction false} PurgeMembers(rows: seq<FirewallRule>, keys: set<(int, string)>)
    ensures forall r :: r in Purged(rows, keys) <==> r in rows && !(r.managed && r.Key() in keys)
  {
    if rows != [] {
      PurgeMembers(rows[1..], keys);
    }
  }

  lemma {:induction false} PurgeKeepsOthers(rows: seq<FirewallRule>, keys: set<(int, string)>, kept: set<(int, string)>)
    ensures UserRows(Purged(rows, keys)) == UserRows(rows)
    ensures KeptRows(Purged(rows, keys), kept) == KeptRows(rows, kept - keys)
  {
    if rows != [] {
      PurgeKeepsOthers(rows[1..], keys, kept);
      var rest := Purged(rows[1..], keys);
      if !(rows[0].managed && rows[0].Key() in keys) {
        assert ([rows[0]] + rest)[1..] == rest;
      }
    }
  }

  lemma {:induction false} AppendedManaged(a: seq<FirewallRule>, b: seq<FirewallRule>, keys: set<(int, string)>)
    requires forall i :: 0 <= i < |b| ==> b[i].managed && b[i].Key() !in keys
    ensures UserRows(a + b) == UserRows(a)
    ensures KeptRows(a + b, keys) == KeptRows(a, keys)
    decreases |a| + |b|
  {
    if a != [] {
      assert (a + b)[1..] == a[1..] + b;
      AppendedManaged(a[1..], b, keys);
    } else if b != [] {
      assert a + b == b && [] + b[1..] == b[1..];
      AppendedManaged([], b[1..], keys);
    }
  }

  lemma {:induction false} KeptDepends(rows: seq<FirewallRule>, a: set<(int, string)>, b: set<(int, string)>)
    requires forall k :: k in ManagedKeys(rows) ==> (k in a <==> k in b)
    ensures KeptRows(rows, a) == KeptRows(rows, b)
  {
    if rows != [] {
      if rows[0].managed {
        assert rows[0].Key() in ManagedKeys(rows);
      }
      forall k | k in ManagedKeys(rows[1..])
        ensures k in ManagedKeys(rows)
      {
        var i :| 0 <= i < |rows[1..]| && rows[1..][i].managed && rows[1..][i].Key() == k;
        assert rows[i + 1].Key() == k;
      }
      KeptDepends(rows[1..], a, b);
    }
  }

  lemma KeysByMember(rows: seq<FirewallRule>)
    ensures forall k :: k in ManagedKeys(rows) <==> exists r :: r in rows && r.managed && r.Key() == k
  {
    forall k
      ensures k in ManagedKeys(rows) <==> exists r :: r in rows && r.managed && r.Key() == k
    {
      if r :| r in rows && r.managed && r.Key() == k {
        var i :| 0 <= i < |rows| && rows[i] == r;
      }
      if k in ManagedKeys(rows) {
        var i :| 0 <= i < |rows| && rows[i].managed && rows[i].Key() == k;
        assert rows[i] in rows;
      }
    }
  }

  class RuleStore {
    var rows: seq<FirewallRule>
    /** Writes issued so far. */
    var writes: nat

    constructor (rows0: seq<FirewallRule>)
      ensures rows == rows0 && writes == 0
    {
      rows, writes := rows0, 0;
    }

    /** UpsertManagedFirewallRule for a key no managed row has yet. */
    method AddManaged(port: int, proto: string, note: string)
      requires (port, proto) !in ManagedKeys(rows)
      modifies this
      ensures rows == old(rows) + [FirewallRule(port, proto, note, true)] && writes == old(writes) + 1
      ensures ManagedKeys(rows) == ManagedKeys(old(rows)) + {(port, proto)}
    {
      KeysAfterAdd(rows, FirewallRule(port, proto, note, true));
      rows := rows + [FirewallRule(port, proto, note, true)];
      writes := writes + 1;
    }

    method DeleteManaged(port: int, proto: string)
      modifies this
      ensures rows == Purged(old(rows), {(port, proto)}) && writes == old(writes) + 1
    {
      rows := Purged(rows, {(port, proto)});
      writes := writes + 1;
    }

    /** The panel's rows become exactly the wanted sockets, whatever order the maps are
        walked in and however often a socket is wanted; the operator's rows, and the
        panel's that stay wanted, are as they were; and each difference costs one write. */
    method Sync(want: seq<PortRule>)
      modifies this
      ensures ManagedKeys(rows) == WantedKeys(want)
      ensures UserRows(rows) == UserRows(old(rows))
      ensures KeptRows(rows, ManagedKeys(old(rows))) == KeptRows(old(rows), WantedKeys(want))
      ensures forall r :: r in rows && r.managed && r.Key() !in ManagedKeys(old(rows)) ==> Latest(want, PortRule(r.port, r.proto, r.note))
      ensures writes == old(writes) + |WantedKeys(want) - ManagedKeys(old(rows))| + |ManagedKeys(old(rows)) - WantedKeys(want)|
    {
      var idx := IndexManaged();
      var wantSet := IndexWanted(want);
      ghost var have0 := ManagedKeys(rows);
      ghost var wanted := WantedKeys(want);
      AddMissing(idx, wantSet, have0, wanted, want);
      label Added:
      DropStale(idx, wantSet, have0, wanted);
      ghost var r0, r1, r2 := old(rows), old@Added(rows), rows;
      Assemble(r0, r1, r2, have0, wanted, want);
    }

    method IndexManaged() returns (idx: map<string, (int, string)>)
      ensures idx.Keys == Texts(ManagedKeys(rows))
      ensures forall s :: s in idx ==> FwKey(idx[s].0, idx[s].1) == s && idx[s] in ManagedKeys(rows)
    {
      idx := map[];
      for i := 0 to |rows|
        invariant idx.Keys == TextsUpTo(rows, i)
        invariant forall s :: s in idx ==> FwKey(idx[s].0, idx[s].1) == s && idx[s] in ManagedKeys(rows)
      {
        if rows[i].managed {
          assert rows[i].Key() in ManagedKeys(rows);
          idx := idx[FwKey(rows[i].port, rows[i].proto) := rows[i].Key()];
        }
      }
      TextsOfManaged(rows);
    }

    method AddMissing(idx: map<string, (int, string)>, wantSet: map<string, PortRule>, ghost have0: set<(int, string)>,
                      ghost wanted: set<(int, string)>, ghost want: seq<PortRule>)
      requires have0 == ManagedKeys(rows)
      requires idx.Keys == Texts(have0) && wantSet.Keys == Texts(wanted)
      requires forall s :: s in wantSet ==> FwKey(wantSet[s].port, wantSet[s].proto) == s && Latest(want, wantSet[s]) && wantSet[s].Key() in wanted
      modifies this
      ensures ManagedKeys(rows) == have0 + wanted
      ensures Extends(old(rows), rows, wanted - have0, want)
      ensures writes == old(writes) + |wanted - have0|
    {
      var todo := wantSet.Keys;
      AddStart(rows, have0, wanted, todo, want);
      while todo != {}
        invariant todo <= wantSet.Keys
        invariant Adding(old(rows), rows, have0, wanted, todo, want, writes - old(writes))
        decreases todo
      {
        var s :| s in todo;
        AddIfMissing(s in idx, wantSet[s], old(rows), have0, wanted, todo, want, writes - old(writes));
        todo := todo - {s};
      }
      AddEnd(old(rows), rows, have0, wanted, want, writes - old(writes));
    }

    method AddIfMissing(known: bool, w: PortRule, ghost rows0: seq<FirewallRule>, ghost have0: set<(int, string)>,
                        ghost wanted: set<(int, string)>, ghost todo: set<string>, ghost want: seq<PortRule>, ghost n: int)
      requires Adding(rows0, rows, have0, wanted, todo, want, n)
      requires Latest(want, w) && w.Key() in wanted && FwKey(w.port, w.proto) in todo
      requires known <==> FwKey(w.port, w.proto) in Texts(have0)
      modifies this
      ensures Adding(rows0, rows, have0, wanted, todo - {FwKey(w.port, w.proto)}, want, n + writes - old(writes))
    {
      AddStep(rows0, rows, have0, wanted, todo, want, n, w);
      if !known {
        AddManaged(w.port, w.proto, w.note);
      }
    }

    method DropStale(idx: map<string, (int, string)>, wantSet: map<string, PortRule>, ghost have0: set<(int, string)>, ghost wanted: set<(int, string)>)
      requires idx.Keys == Texts(have0) && wantSet.Keys == Texts(wanted)
      requires forall s :: s in idx ==> FwKey(idx[s].0, idx[s].1) == s && idx[s] in have0
      modifies this
      ensures rows == Purged(old(rows), have0 - wanted)
      ensures writes == old(writes) + |have0 - wanted|
    {
      var todo := idx.Keys;
      assert Done(have0, todo) == {};
      assert Done(have0, todo) - wanted == {};
      PurgeNothing(rows);
      while todo != {}
        invariant todo <= idx.Keys
        invariant rows == Purged(old(rows), Done(have0, todo) - wanted)
        invariant writes == old(writes) + |Done(have0, todo) - wanted|
        decreases todo
      {
        var s :| s in todo;
        var k := idx[s];
        DoneStep(have0, wanted, todo, k.0, k.1);
        PurgeTwice(old(rows), Done(have0, todo) - wanted, {k});
        todo := todo - {s};
        if s !in wantSet {
          DeleteManaged(k.0, k.1);
        }
      }
      assert Done(have0, todo) == have0;
    }
  }

  /** The index keys of a set of sockets. */
  ghost function Texts(keys: set<(int, string)>): set<string> {
    set k | k in keys :: FwKey(k.0, k.1)
  }

  /** The sockets whose index key has been dealt with. */
  ghost function Done(keys: set<(int, string)>, todo: set<string>): set<(int, string)> {
    set k | k in keys && FwKey(k.0, k.1) !in todo
  }

  lemma DoneStep(keys: set<(int, string)>, base: set<(int, string)>, todo: set<string>, port: int, proto: string)
    requires (port, proto) in keys && FwKey(port, proto) in todo
    ensures var (k, s) := ((port, proto), FwKey(port, proto));
            var (before, after) := (Done(keys, todo), Done(keys, todo - {s}));
            && (s in Texts(base) <==> k in base)
            && base + after == base + before + {k}
            && (k in base ==> after - base == before - base && base + after == base + before)
            && (k !in base ==> k !in before && after - base == (before - base) + {k} && |after - base| == |before - base| + 1)
  {
    var (k, s) := ((port, proto), FwKey(port, proto));
    var (before, after) := (Done(keys, todo), Done(keys, todo - {s}));
    KeyOfText(keys, port, proto);
    KeyOfText(base, port, proto);
    assert after == before + {k} && k !in before;
    if k !in base {
      assert after - base == (before - base) + {k};
    }
  }

  /** rows is rows0 with managed rows appended, all for the given sockets and with the
      note last wanted there. */
  ghost predicate Extends(rows0: seq<FirewallRule>, rows: seq<FirewallRule>, keys: set<(int, string)>, want: seq<PortRule>) {
    && rows0 <= rows
    && forall i :: |rows0| <= i < |rows| ==> rows[i].managed && rows[i].Key() in keys && Latest(want, PortRule(rows[i].port, rows[i].proto, rows[i].note))
  }

  /** Each entry is the last one wanted so far for the socket its key stands for. */
  ghost predicate Indexed(wantSet: map<string, PortRule>, want: seq<PortRule>) {
    forall s :: s in wantSet ==>
                  FwKey(wantSet[s].port, wantSet[s].proto) == s && Latest(want, wantSet[s]) && wantSet[s].Key() in WantedKeys(want)
  }

  lemma IndexStep(wantSet: map<string, PortRule>, want: seq<PortRule>, r: PortRule)
    requires Indexed(wantSet, want)
    ensures Indexed(wantSet[FwKey(r.port, r.proto) := r], want + [r])
  {
    var after := wantSet[FwKey(r.port, r.proto) := r];
    LatestIsLast(want, r);
    assert (want + [r])[|want|].Key() in WantedKeys(want + [r]);
    forall s | s in after && s != FwKey(r.port, r.proto)
      ensures Latest(want + [r], after[s]) && after[s].Key() in WantedKeys(want + [r])
    {
      LatestStays(want, r, after[s]);
      var i :| 0 <= i < |want| && want[i].Key() == after[s].Key();
      assert (want + [r])[i].Key() == after[s].Key();
    }
  }

  lemma TextsStep(want: seq<PortRule>, r: PortRule)
    ensures Texts(WantedKeys(want + [r])) == Texts(WantedKeys(want)) + {FwKey(r.port, r.proto)}
  {
    var more := want + [r];
    assert more[|want|] == r && forall i :: 0 <= i < |want| ==> more[i] == want[i];
    assert WantedKeys(more) == WantedKeys(want) + {r.Key()};
  }

  method IndexWanted(want: seq<PortRule>) returns (wantSet: map<string, PortRule>)
    ensures wantSet.Keys == Texts(WantedKeys(want))
    ensures Indexed(wantSet, want)
  {
    wantSet := map[];
    for i := 0 to |want|
      invariant wantSet.Keys == Texts(WantedKeys(want[..i])) && Indexed(wantSet, want[..i])
    {
      assert want[..i] + [want[i]] == want[..i + 1];
      IndexStep(wantSet, want[..i], want[i]);
      TextsStep(want[..i], want[i]);
      wantSet := wantSet[FwKey(want[i].port, want[i].proto) := want[i]];
    }
    assert want[..|want|] == want;
  }

  /** The index keys of the managed ones among the first n rows. */
  ghost function TextsUpTo(rows: seq<FirewallRule>, n: nat): set<string>
    requires n <= |rows|
  {
    set j | 0 <= j < n && rows[j].managed :: FwKey(rows[j].port, rows[j].proto)
  }

  lemma TextsOfManaged(rows: seq<FirewallRule>)
    ensures Texts(ManagedKeys(rows)) == TextsUpTo(rows, |rows|)
  {
    forall j | 0 <= j < |rows| && rows[j].managed ensures FwKey(rows[j].port, rows[j].proto) in Texts(ManagedKeys(rows)) {
      assert rows[j].Key() in ManagedKeys(rows);
    }
  }

  /** Where adding the missing rules has got to, after n writes. */
  ghost predicate Adding(rows0: seq<FirewallRule>, rows: seq<FirewallRule>, have0: set<(int, string)>, wanted: set<(int, string)>,
                         todo: set<string>, want: seq<PortRule>, n: int)
  {
    && Extends(rows0, rows, wanted - have0, want)
    && ManagedKeys(rows) == have0 + Done(wanted, todo)
    && n == |Done(wanted, todo) - have0|
  }

  lemma AddStart(rows: seq<FirewallRule>, have0: set<(int, string)>, wanted: set<(int, string)>, todo: set<string>, want: seq<PortRule>)
    requires have0 == ManagedKeys(rows) && todo == Texts(wanted)
    ensures Adding(rows, rows, have0, wanted, todo, want, 0)
  {
    assert Done(wanted, todo) == {};
    assert Done(wanted, todo) - have0 == {};
  }

  lemma AddEnd(rows0: seq<FirewallRule>, rows: seq<FirewallRule>, have0: set<(int, string)>, wanted: set<(int, string)>,
               want: seq<PortRule>, n: int)
    requires Adding(rows0, rows, have0, wanted, {}, want, n)
    ensures ManagedKeys(rows) == have0 + wanted && Extends(rows0, rows, wanted - have0, want) && n == |wanted - have0|
  {
    assert Done(wanted, {}) == wanted;
  }

  lemma AddStep(rows0: seq<FirewallRule>, rows: seq<FirewallRule>, have0: set<(int, string)>, wanted: set<(int, string)>,
                todo: set<string>, want: seq<PortRule>, n: int, w: PortRule)
    requires Adding(rows0, rows, have0, wanted, todo, want, n)
    requires Latest(want, w) && w.Key() in wanted && FwKey(w.port, w.proto) in todo
    ensures var s := FwKey(w.port, w.proto);
            if s in Texts(have0) then Adding(rows0, rows, have0, wanted, todo - {s}, want, n)
            else w.Key() !in ManagedKeys(rows)
                 && Adding(rows0, rows + [FirewallRule(w.port, w.proto, w.note, true)], have0, wanted, todo - {s}, want, n + 1)
  {
    var r := FirewallRule(w.port, w.proto, w.note, true);
    DoneStep(wanted, have0, todo, w.port, w.proto);
    KeysAfterAdd(rows, r);
    if FwKey(w.port, w.proto) !in Texts(have0) {
      KeyOfText(have0, w.port, w.proto);
      ExtendsAppend(rows0, rows, wanted - have0, want, r);
    }
  }

  lemma ExtendsAppend(rows0: seq<FirewallRule>, rows: seq<FirewallRule>, keys: set<(int, string)>, want: seq<PortRule>, r: FirewallRule)
    requires Extends(rows0, rows, keys, want) && r.managed && r.Key() in keys && Latest(want, PortRule(r.port, r.proto, r.note))
    ensures Extends(rows0, rows + [r], keys, want)
  {
  }

  lemma KeyOfText(keys: set<(int, string)>, port: int, proto: string)
    ensures forall k :: k in keys && FwKey(k.0, k.1) == FwKey(port, proto) ==> k == (port, proto)
  {
    forall k | k in keys && FwKey(k.0, k.1) == FwKey(port, proto)
      ensures k == (port, proto)
    {
      FwKeyIsInjective(k.0, k.1, port, proto);
    }
  }

  lemma KeysAfterAdd(rows: seq<FirewallRule>, r: FirewallRule)
    requires r.managed
    ensures ManagedKeys(rows + [r]) == ManagedKeys(rows) + {r.Key()}
  {
    var more := rows + [r];
    assert more[|rows|] == r;
    forall k
      ensures k in ManagedKeys(more) <==> k in ManagedKeys(rows) || k == r.Key()
    {
      if k in ManagedKeys(rows) {
        var i :| 0 <= i < |rows| && rows[i].managed && rows[i].Key() == k;
        assert more[i] == rows[i];
      }
      if k in ManagedKeys(more) {
        var i :| 0 <= i < |more| && more[i].managed && more[i].Key() == k;
        assert i < |rows| ==> rows[i] == more[i];
      }
    }
  }

  /** r1 is r0 with new managed rows appended, r2 is r1 without the stale ones. */
  lemma Assemble(r0: seq<FirewallRule>, r1: seq<FirewallRule>, r2: seq<FirewallRule>, have0: set<(int, string)>, wanted: set<(int, string)>, want: seq<PortRule>)
    requires have0 == ManagedKeys(r0) && ManagedKeys(r1) == have0 + wanted
    requires Extends(r0, r1, wanted - have0, want)
    requires r2 == Purged(r1, have0 - wanted)
    ensures ManagedKeys(r2) == wanted
    ensures UserRows(r2) == UserRows(r0)
    ensures KeptRows(r2, have0) == KeptRows(r0, wanted)
    ensures forall r :: r in r2 && r.managed && r.Key() !in have0 ==> Latest(want, PortRule(r.port, r.proto, r.note))
  {
    var added := r1[|r0|..];
    assert r1 == r0 + added;
    PurgeMembers(r1, have0 - wanted);
    PurgedKeys(r1, have0 - wanted);
    assert have0 + wanted - (have0 - wanted) == wanted;
    PurgeKeepsOthers(r1, have0 - wanted, have0);
    AppendedManaged(r0, added, have0 - (have0 - wanted));
    KeptDepends(r0, have0 - (have0 - wanted), wanted);
    forall r | r in r2 && r.managed && r.Key() !in have0
      ensures Latest(want, PortRule(r.port, r.proto, r.note))
    {
      NewIsWanted(r0, r1, wanted - have0, want, r);
    }
  }

  lemma NewIsWanted(r0: seq<FirewallRule>, r1: seq<FirewallRule>, keys: set<(int, string)>, want: seq<PortRule>, r: FirewallRule)
    requires Extends(r0, r1, keys, want) && r in r1 && r.managed && r.Key() !in ManagedKeys(r0)
    ensures Latest(want, PortRule(r.port, r.proto, r.note))
  {
    KeysByMember(r0);
    assert r !in r0;
    assert forall i :: 0 <= i < |r0| ==> r1[i] == r0[i];
  }

  lemma PurgedKeys(rows: seq<FirewallRule>, keys: set<(int, string)>)
    ensures ManagedKeys(Purged(rows, keys)) == ManagedKeys(rows) - keys
  {
    PurgeMembers(rows, keys);
    KeysByMember(rows);
    KeysByMember(Purged(rows, keys));
    forall k
      ensures k in ManagedKeys(Purged(rows, keys)) <==> k in ManagedKeys(rows) && k !in keys
    {
      if k in ManagedKeys(rows) && k !in keys {
        var r :| r in rows && r.managed && r.Key() == k;
        assert r in Purged(rows, keys);
      }
    }
  }

  /** A second sync issues no writes. */
  method SyncTwice(db: RuleStore, want: seq<PortRule>)
    modifies db
    ensures db.writes == old(db.writes) + |WantedKeys(want) - ManagedKeys(old(db.rows))| + |ManagedKeys(old(db.rows)) - WantedKeys(want)|
  {
    db.Sync(want);
    assert WantedKeys(want) - ManagedKeys(db.rows) == {} && ManagedKeys(db.rows) - WantedKeys(want) == {};
    db.Sync(want);
  }
}
