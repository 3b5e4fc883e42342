/** Following a provider-side address change (internal/control/bootstrap/addrchange.go). */
module AddressChange {
  import opened Common
  import opened Addresses

  datatype AddrChange = AddrChange(oldIP: IP, newIP: IP)

  predicate InFamily(ip: IP, v4: bool) {
    ip.V4? == v4
  }

  /** A literal listen address of the family that the host no longer has. */
  predicate Gone(l: Text, local: seq<IP>, v4: bool) {
    && l.Literal? && !IsUnspecified(l.ip) && !IsLoopback(l.ip)
    && InFamily(l.ip, v4) && l.ip !in local
  }

  /** The lost addresses, each once, in the order first seen. */
  function Lost(listens: seq<Text>, local: seq<IP>, v4: bool): seq<IP> {
    if listens == [] then []
    else
      var n := |listens| - 1;
      var before := Lost(listens[..n], local, v4);
      if Gone(listens[n], local, v4) && listens[n].ip !in before then before + [listens[n].ip] else before
  }

  predicate Knows(known: seq<Text>, ip: IP) {
    exists i :: 0 <= i < |known| && known[i].Literal? && known[i].ip == ip
  }

  function Public(local: seq<IP>, v4: bool): seq<IP> {
    if local == [] then []
    else
      var n := |local| - 1;
      if InFamily(local[n], v4) && IsPublic(local[n]) then Public(local[..n], v4) + [local[n]]
      else Public(local[..n], v4)
  }

  function Unknown(ips: seq<IP>, known: seq<Text>): seq<IP> {
    if ips == [] then []
    else
      var n := |ips| - 1;
      if Knows(known, ips[n]) then Unknown(ips[..n], known) else Unknown(ips[..n], known) + [ips[n]]
  }

  /** The one unambiguous replacement, if there is one: the only newcomer, else the
      only public address. */
  function Replacement(local: seq<IP>, known: seq<Text>, v4: bool): Option<IP> {
    var public := Public(local, v4);
    var newcomers := Unknown(public, known);
    if |newcomers| == 1 then Some(newcomers[0]) else if |public| == 1 then Some(public[0]) else None
  }

  function FamilyPlan(listens: seq<Text>, local: seq<IP>, known: seq<Text>, v4: bool): seq<AddrChange> {
    var lost := Lost(listens, local, v4);
    var pick := Replacement(local, known, v4);
    if |lost| == 1 && pick.Some? then [AddrChange(lost[0], pick.value)] else []
  }

  function Plan(listens: seq<Text>, local: seq<IP>, known: seq<Text>): seq<AddrChange> {
    FamilyPlan(listens, local, known, true) + FamilyPlan(listens, local, known, false)
  }

  method PlanFamily(listens: seq<Text>, local: seq<IP>, known: seq<Text>, v4: bool) returns (out: seq<AddrChange>)
    ensures out == FamilyPlan(listens, local, known, v4)
  {
    var lost := FindLost(listens, local, v4);
    if |lost| == 0 {
      return [];
    }
    var public, newcomers := FindPublic(local, known, v4);
    var pick: Option<IP> := None;
    if |lost| != 1 {
    } else if |newcomers| == 1 {
      pick := Some(newcomers[0]);
    } else if |public| == 1 {
      pick := Some(public[0]);
    }
    if pick.None? {
      return [];
    }
    return [AddrChange(lost[0], pick.value)];
  }

  method FindLost(listens: seq<Text>, local: seq<IP>, v4: bool) returns (lost: seq<IP>)
    ensures lost == Lost(listens, local, v4)
  {
    lost := [];
    var i := 0;
    while i < |listens|
      invariant 0 <= i <= |listens|
      invariant lost == Lost(listens[..i], local, v4)
    {
      assert listens[..i + 1][..i] == listens[..i];
      var l := listens[i];
      i := i + 1;
      if !l.Literal? || IsUnspecified(l.ip) || IsLoopback(l.ip) || !InFamily(l.ip, v4) || l.ip in local {
        continue;
      }
      if l.ip !in lost {
        lost := lost + [l.ip];
      }
    }
    assert listens[..|listens|] == listens;
  }

  method FindPublic(local: seq<IP>, known: seq<Text>, v4: bool) returns (public: seq<IP>, newcomers: seq<IP>)
    ensures public == Public(local, v4) && newcomers == Unknown(public, known)
  {
    public, newcomers := [], [];
    var i := 0;
    while i < |local|
      invariant 0 <= i <= |local|
      invariant public == Public(local[..i], v4)
      invariant newcomers == Unknown(public, known)
    {
      assert local[..i + 1][..i] == local[..i];
      var l := local[i];
      i := i + 1;
      if !InFamily(l, v4) || !IsGlobalUnicast(l) || IsPrivate(l) {
        continue;
      }
      assert (public + [l])[..|public|] == public;
      public := public + [l];
      if !Knows(known, l) {
        newcomers := newcomers + [l];
      }
    }
    assert local[..|local|] == local;
  }

  method PlanAddressChange(listens: seq<Text>, local: seq<IP>, known: seq<Text>) returns (out: seq<AddrChange>)
    ensures out == Plan(listens, local, known)
  {
    out := [];
    var families := [true, false];
    for i := 0 to 2
      invariant i == 0 ==> out == []
      invariant i == 1 ==> out == FamilyPlan(listens, local, known, true)
      invariant i == 2 ==> out == Plan(listens, local, known)
    {
      var change := PlanFamily(listens, local, known, families[i]);
      out := out + change;
    }
  }

  /** UPDATE ... SET listen = new WHERE listen = old, on canonical texts. */
  function Moved(l: Text, ch: AddrChange): Text {
    if l == Canonical(ch.oldIP) then Canonical(ch.newIP) else l
  }

  function MovedAll(listens: seq<Text>, ch: AddrChange): seq<Text> {
    seq(|listens|, i requires 0 <= i < |listens| => Moved(listens[i], ch))
  }

  // ---- Replacing the address in network.json ----

  function Kept(list: seq<Text>, ch: AddrChange): seq<Text> {
    if list == [] then []
    else
      var n := |list| - 1;
      if list[n] == Canonical(ch.oldIP) then Kept(list[..n], ch) else Kept(list[..n], ch) + [list[n]]
  }

  /** list without the old address; the new one stands in its first place unless the
      list has it already. */
  function Swapped(list: seq<Text>, ch: AddrChange): seq<Text> {
    if Canonical(ch.newIP) in list || Canonical(ch.oldIP) !in list then Kept(list, ch)
    else
      var k := First(list, Canonical(ch.oldIP));
      list[..k] + [Canonical(ch.newIP)] + Kept(list[k + 1..], ch)
  }

  function First(list: seq<Text>, x: Text): (k: nat)
    requires x in list
    ensures k < |list| && list[k] == x && x !in list[..k]
  {
    if list[0] == x then 0 else First(list[1..], x) + 1
  }

  lemma {:induction false} KeptAll(list: seq<Text>, ch: AddrChange)
    requires Canonical(ch.oldIP) !in list
    ensures Kept(list, ch) == list
  {
    if list != [] {
      var n := |list| - 1;
      KeptAll(list[..n], ch);
      assert list[n] in list;
    }
  }

  method Swap(list: seq<Text>, ch: AddrChange) returns (out: seq<Text>)
    ensures out == Swapped(list, ch)
  {
    out := [];
    var has := false;
    for i := 0 to |list|
      invariant has <==> Canonical(ch.newIP) in list[..i]
    {
      if list[i] == Canonical(ch.newIP) {
        has := true;
      }
    }
    assert list[..|list|] == list;
    out := Rewrite(list, ch, has);
  }

  /** The second loop of the swap: the old address is dropped, but for its first place if the
      list does not have the new one. */
  method Rewrite(list: seq<Text>, ch: AddrChange, had: bool) returns (out: seq<Text>)
    requires had <==> Canonical(ch.newIP) in list
    ensures out == Swapped(list, ch)
  {
    var has := had;
    ghost var k := 0;
    out := [];
    for i := 0 to |list|
      invariant had ==> has
      invariant RewrittenTo(list, ch, had, has, k, i, out)
    {
      RewriteStep(list, ch, had, has, k, i, out);
      if list[i] == Canonical(ch.oldIP) {
        if !has {
          out := out + [Canonical(ch.newIP)];
          has := true;
          k := i;
        }
      } else {
        out := out + [list[i]];
      }
    }
    assert list[..|list|] == list;
    if !had && !has {
      KeptAll(list, ch);
    } else if !had {
      assert list[k] in list && list[k + 1..|list|] == list[k + 1..];
      FirstIs(list, Canonical(ch.oldIP), k);
    }
  }

  /** What the loop has written after i entries; k is where the new address went. */
  ghost predicate RewrittenTo(list: seq<Text>, ch: AddrChange, had: bool, has: bool, k: nat, i: nat, out: seq<Text>)
    requires i <= |list|
  {
    if had then out == Kept(list[..i], ch)
    else if !has then Canonical(ch.oldIP) !in list[..i] && out == list[..i]
    else && k < i && list[k] == Canonical(ch.oldIP) && Canonical(ch.oldIP) !in list[..k]
         && out == list[..k] + [Canonical(ch.newIP)] + Kept(list[k + 1..i], ch)
  }

  lemma RewriteStep(list: seq<Text>, ch: AddrChange, had: bool, has: bool, k: nat, i: nat, out: seq<Text>)
    requires i < |list| && RewrittenTo(list, ch, had, has, k, i, out) && (had ==> has)
    ensures list[i] == Canonical(ch.oldIP) ==>
              RewrittenTo(list, ch, had, true, if has then k else i, i + 1, if has then out else out + [Canonical(ch.newIP)])
    ensures list[i] != Canonical(ch.oldIP) ==> RewrittenTo(list, ch, had, has, k, i + 1, out + [list[i]])
  {
    assert list[..i + 1][..i] == list[..i];
    if !had && has {
      assert list[k + 1..i + 1][..i - k - 1] == list[k + 1..i];
    } else if !had {
      assert list[i + 1..i + 1] == [];
    }
  }

  // ---- What the plan and the swap achieve ----

  lemma {:induction false} LostIsGone(listens: seq<Text>, local: seq<IP>, v4: bool)
    ensures forall ip :: ip in Lost(listens, local, v4) <==> exists i :: 0 <= i < |listens| && Gone(listens[i], local, v4) && listens[i].ip == ip
    ensures forall i, j :: 0 <= i < j < |Lost(listens, local, v4)| ==> Lost(listens, local, v4)[i] != Lost(listens, local, v4)[j]
  {
    if listens != [] {
      var n := |listens| - 1;
      LostIsGone(listens[..n], local, v4);
      forall ip
        ensures ip in Lost(listens, local, v4) <==> exists i :: 0 <= i < |listens| && Gone(listens[i], local, v4) && listens[i].ip == ip
      {
        if i :| 0 <= i < n && Gone(listens[..n][i], local, v4) && listens[..n][i].ip == ip {
          assert Gone(listens[i], local, v4) && listens[i].ip == ip;
        }
        if i :| 0 <= i < |listens| && Gone(listens[i], local, v4) && listens[i].ip == ip {
          if i < n {
            assert listens[..n][i] == listens[i];
          }
        }
      }
    }
  }

  lemma {:induction false} PublicIsPublic(local: seq<IP>, known: seq<Text>, v4: bool)
    ensures forall i :: 0 <= i < |Public(local, v4)| ==>
                          Public(local, v4)[i] in local && InFamily(Public(local, v4)[i], v4) && IsPublic(Public(local, v4)[i])
  {
    if local != [] {
      PublicIsPublic(local[..|local| - 1], known, v4);
    }
  }

  lemma {:induction false} UnknownIsAmong(ips: seq<IP>, known: seq<Text>)
    ensures forall i :: 0 <= i < |Unknown(ips, known)| ==> Unknown(ips, known)[i] in ips && !Knows(known, Unknown(ips, known)[i])
  {
    if ips != [] {
      UnknownIsAmong(ips[..|ips| - 1], known);
    }
  }

  /** A planned change moves the family's one lost listen address to a public address
      of the same family that the host has. */
  lemma PlannedChangeIsSound(listens: seq<Text>, local: seq<IP>, known: seq<Text>, v4: bool, ch: AddrChange)
    requires ch in FamilyPlan(listens, local, known, v4)
    ensures ch.newIP in local && InFamily(ch.newIP, v4) && IsPublic(ch.newIP)
    ensures ch.oldIP !in local && InFamily(ch.oldIP, v4) && !IsLoopback(ch.oldIP) && !IsUnspecified(ch.oldIP)
    ensures forall i :: 0 <= i < |listens| && Gone(listens[i], local, v4) ==> listens[i].ip == ch.oldIP
    ensures exists i :: 0 <= i < |listens| && listens[i].Literal? && listens[i].ip == ch.oldIP
  {
    LostIsGone(listens, local, v4);
    PublicIsPublic(local, known, v4);
    UnknownIsAmong(Public(local, v4), known);
    var lost := Lost(listens, local, v4);
    assert ch.oldIP == lost[0] && ch.oldIP in lost;
    var w :| 0 <= w < |listens| && Gone(listens[w], local, v4) && listens[w].ip == ch.oldIP;
    forall i | 0 <= i < |listens| && Gone(listens[i], local, v4)
      ensures listens[i].ip == ch.oldIP
    {
      assert listens[i].ip in lost;
    }
  }

  /** Once the change is applied the family has nothing lost, and so nothing left to
      plan whatever the host's list says: exactly when every row recorded the old
      address in its canonical spelling. */
  lemma FamilyHealed(listens: seq<Text>, local: seq<IP>, known: seq<Text>, v4: bool, ch: AddrChange)
    requires ch in FamilyPlan(listens, local, known, v4)
    ensures Lost(MovedAll(listens, ch), local, v4) == []
       <==> forall i :: 0 <= i < |listens| && listens[i].Literal? && listens[i].ip == ch.oldIP ==> listens[i].spelling == 0
    ensures Lost(MovedAll(listens, ch), local, v4) == [] ==> forall k: seq<Text> :: FamilyPlan(MovedAll(listens, ch), local, k, v4) == []
  {
    var moved := MovedAll(listens, ch);
    PlannedChangeIsSound(listens, local, known, v4, ch);
    LostIsGone(moved, local, v4);
    forall i | 0 <= i < |listens|
      ensures Gone(moved[i], local, v4) <==> listens[i].Literal? && listens[i].ip == ch.oldIP && listens[i].spelling != 0
    {
      assert moved[i] == Moved(listens[i], ch);
    }
    var lost := Lost(moved, local, v4);
    if lost != [] {
      assert lost[0] in lost;
      var i :| 0 <= i < |moved| && Gone(moved[i], local, v4) && moved[i].ip == lost[0];
    }
    if i :| 0 <= i < |moved| && Gone(moved[i], local, v4) {
      assert moved[i].ip in lost;
    }
  }

  lemma {:induction false} LostElsewhere(listens: seq<Text>, local: seq<IP>, v4: bool, ch: AddrChange)
    requires InFamily(ch.oldIP, !v4) && InFamily(ch.newIP, !v4)
    ensures Lost(MovedAll(listens, ch), local, v4) == Lost(listens, local, v4)
  {
    if listens != [] {
      var n := |listens| - 1;
      var moved := MovedAll(listens, ch);
      assert moved[..n] == MovedAll(listens[..n], ch);
      LostElsewhere(listens[..n], local, v4, ch);
      assert Gone(moved[n], local, v4) == Gone(listens[n], local, v4);
    }
  }

  lemma {:induction false} FirstIs(list: seq<Text>, x: Text, k: nat)
    requires k < |list| && list[k] == x && x !in list[..k]
    ensures First(list, x) == k
  {
    if k > 0 {
      assert list[0] == list[..k][0];
      assert list[1..][k - 1] == x && list[1..][..k - 1] == list[..k][1..];
      FirstIs(list[1..], x, k - 1);
    }
  }

  lemma {:induction false} KeptMembers(list: seq<Text>, ch: AddrChange)
    ensures forall x :: x in Kept(list, ch) <==> x in list && x != Canonical(ch.oldIP)
    ensures multiset(Kept(list, ch)) == multiset(list)[Canonical(ch.oldIP) := 0]
  {
    if list != [] {
      var n := |list| - 1;
      KeptMembers(list[..n], ch);
      assert list == list[..n] + [list[n]];
    }
  }

  /** out has no trace of o, has n exactly when list had either, and otherwise the
      same entries as often as list. */
  ghost predicate Replaces(list: seq<Text>, out: seq<Text>, o: Text, n: Text) {
    && o !in out
    && (n in out <==> o in list || n in list)
    && multiset(out)[n] == (if n in list then multiset(list)[n] else if o in list then 1 else 0)
    && forall x :: x != o && x != n ==> multiset(out)[x] == multiset(list)[x]
  }

  lemma KeptReplaces(list: seq<Text>, ch: AddrChange)
    requires ch.oldIP != ch.newIP && (Canonical(ch.newIP) in list || Canonical(ch.oldIP) !in list)
    ensures Replaces(list, Kept(list, ch), Canonical(ch.oldIP), Canonical(ch.newIP))
  {
    KeptMembers(list, ch);
  }

  lemma SwapPieces(head: seq<Text>, o: Text, n: Text, rest: seq<Text>, kept: seq<Text>)
    requires o !in head && n !in head && n !in rest && o != n
    requires multiset(kept) == multiset(rest)[o := 0]
    ensures Replaces(head + [o] + rest, head + [n] + kept, o, n)
  {
    var list, out := head + [o] + rest, head + [n] + kept;
    assert multiset(list) == multiset(head) + multiset{o} + multiset(rest);
    assert multiset(out) == multiset(head) + multiset{n} + multiset(kept);
    assert multiset(head)[o] == 0 && multiset(head)[n] == 0 && multiset(rest)[n] == 0;
    assert out[|head|] == n && list[|head|] == o;
    assert o in out <==> o in multiset(out);
    assert n in list <==> n in multiset(list);
  }

  /** The swap replaces the old address by the new one. */
  lemma SwapReplaces(list: seq<Text>, ch: AddrChange)
    requires ch.oldIP != ch.newIP
    ensures Replaces(list, Swapped(list, ch), Canonical(ch.oldIP), Canonical(ch.newIP))
  {
    var o, n := Canonical(ch.oldIP), Canonical(ch.newIP);
    if o in list && n !in list {
      var k := First(list, o);
      assert list == list[..k] + [o] + list[k + 1..];
      KeptMembers(list[k + 1..], ch);
      SwapPieces(list[..k], o, n, list[k + 1..], Kept(list[k + 1..], ch));
    } else {
      KeptReplaces(list, ch);
    }
  }

  /** The order of the other entries is the list's own. */
  lemma {:induction false} SwapKeepsOrder(list: seq<Text>, ch: AddrChange)
    requires ch.oldIP != ch.newIP
    ensures Others(Swapped(list, ch), ch) == Others(list, ch)
  {
    var (o, n) := (Canonical(ch.oldIP), Canonical(ch.newIP));
    if n in list || o !in list {
      KeptOthers(list, ch);
    } else {
      var k := First(list, o);
      OthersAppend(list[..k] + [n], Kept(list[k + 1..], ch), ch);
      OthersAppend(list[..k], [n], ch);
      OthersAppend(list[..k] + [o], list[k + 1..], ch);
      OthersAppend(list[..k], [o], ch);
      assert list == list[..k] + [o] + list[k + 1..];
      KeptOthers(list[k + 1..], ch);
    }
  }

  function Others(list: seq<Text>, ch: AddrChange): seq<Text> {
    if list == [] then []
    else
      var n := |list| - 1;
      if list[n] == Canonical(ch.oldIP) || list[n] == Canonical(ch.newIP) then Others(list[..n], ch)
      else Others(list[..n], ch) + [list[n]]
  }

  lemma {:induction false} OthersAppend(a: seq<Text>, b: seq<Text>, ch: AddrChange)
    ensures Others(a + b, ch) == Others(a, ch) + Others(b, ch)
  {
    if b == [] {
      assert a + b == a;
    } else {
      var n := |b| - 1;
      assert (a + b)[..|a + b| - 1] == a + b[..n];
      OthersAppend(a, b[..n], ch);
    }
  }

  lemma {:induction false} KeptOthers(list: seq<Text>, ch: AddrChange)
    ensures Others(Kept(list, ch), ch) == Others(list, ch)
  {
    if list != [] {
      var n := |list| - 1;
      KeptOthers(list[..n], ch);
      OthersAppend(Kept(list[..n], ch), [list[n]], ch);
    }
  }

  /** Healing one family leaves the other's plan as it was, before and after the
      host's list is rewritten. */
  lemma OtherFamilyUnaffected(listens: seq<Text>, local: seq<IP>, known: seq<Text>, v4: bool, ch: AddrChange)
    requires InFamily(ch.oldIP, !v4) && InFamily(ch.newIP, !v4) && ch.oldIP != ch.newIP
    ensures FamilyPlan(MovedAll(listens, ch), local, Swapped(known, ch), v4) == FamilyPlan(listens, local, known, v4)
  {
    LostElsewhere(listens, local, v4, ch);
    UnknownUnaffected(local, known, v4, ch);
  }

  lemma UnknownUnaffected(local: seq<IP>, known: seq<Text>, v4: bool, ch: AddrChange)
    requires InFamily(ch.oldIP, !v4) && InFamily(ch.newIP, !v4) && ch.oldIP != ch.newIP
    ensures Unknown(Public(local, v4), Swapped(known, ch)) == Unknown(Public(local, v4), known)
  {
    PublicIsPublic(local, known, v4);
    forall ip | InFamily(ip, v4)
      ensures Knows(known, ip) == Knows(Swapped(known, ch), ip)
    {
      SwapKnows(known, v4, ch, ip);
    }
    UnknownSame(Public(local, v4), known, Swapped(known, ch), v4);
  }

  lemma SwapKnows(known: seq<Text>, v4: bool, ch: AddrChange, ip: IP)
    requires InFamily(ch.oldIP, !v4) && InFamily(ch.newIP, !v4) && ch.oldIP != ch.newIP && InFamily(ip, v4)
    ensures Knows(known, ip) == Knows(Swapped(known, ch), ip)
  {
    SwapReplaces(known, ch);
    var swapped := Swapped(known, ch);
    assert forall x: Text :: x.Literal? && x.ip == ip ==> multiset(known)[x] == multiset(swapped)[x];
    SameKnown(known, swapped, ip);
    SameKnown(swapped, known, ip);
  }

  lemma SameKnown(a: seq<Text>, b: seq<Text>, ip: IP)
    requires forall x: Text :: x.Literal? && x.ip == ip ==> multiset(a)[x] == multiset(b)[x]
    ensures Knows(a, ip) ==> Knows(b, ip)
  {
    if i :| 0 <= i < |a| && a[i].Literal? && a[i].ip == ip {
      assert a[i] in multiset(a);
      assert a[i] in b;
    }
  }

  lemma {:induction false} UnknownSame(ips: seq<IP>, a: seq<Text>, b: seq<Text>, v4: bool)
    requires forall i :: 0 <= i < |ips| ==> InFamily(ips[i], v4)
    requires forall ip :: InFamily(ip, v4) ==> Knows(a, ip) == Knows(b, ip)
    ensures Unknown(ips, a) == Unknown(ips, b)
  {
    if ips != [] {
      UnknownSame(ips[..|ips| - 1], a, b, v4);
    }
  }

  // ---- When a change is planned at all, and to what ----

  /** The family's rows have lost this address and no other. */
  ghost predicate OnlyLost(listens: seq<Text>, local: seq<IP>, v4: bool, ip: IP) {
    && (exists i :: 0 <= i < |listens| && Gone(listens[i], local, v4) && listens[i].ip == ip)
    && (forall i :: 0 <= i < |listens| && Gone(listens[i], local, v4) ==> listens[i].ip == ip)
  }

  /** A public address of the family; a new one only if asked for. */
  predicate Counts(ip: IP, known: seq<Text>, v4: bool, unseen: bool) {
    InFamily(ip, v4) && IsPublic(ip) && (unseen ==> !Knows(known, ip))
  }

  ghost predicate SoleAt(local: seq<IP>, known: seq<Text>, v4: bool, unseen: bool, i: int) {
    && 0 <= i < |local| && Counts(local[i], known, v4, unseen)
    && forall j :: 0 <= j < |local| && j != i ==> !Counts(local[j], known, v4, unseen)
  }

  /** The host has one such address, and lists it once. */
  ghost predicate Sole(local: seq<IP>, known: seq<Text>, v4: bool, unseen: bool, ip: IP) {
    exists i :: SoleAt(local, known, v4, unseen, i) && local[i] == ip
  }

  function Choice(local: seq<IP>, known: seq<Text>, v4: bool, unseen: bool): seq<IP> {
    if unseen then Unknown(Public(local, v4), known) else Public(local, v4)
  }

  lemma ChoiceStep(local: seq<IP>, known: seq<Text>, v4: bool, unseen: bool)
    requires local != []
    ensures var (front, ip) := (local[..|local| - 1], local[|local| - 1]);
            Choice(local, known, v4, unseen)
            == Choice(front, known, v4, unseen) + if Counts(ip, known, v4, unseen) then [ip] else []
  {
    var (public, ip) := (Public(local[..|local| - 1], v4), local[|local| - 1]);
    assert (public + [ip])[..|public|] == public;
  }

  lemma {:induction false} ChoiceIsSole(local: seq<IP>, known: seq<Text>, v4: bool, unseen: bool)
    ensures Choice(local, known, v4, unseen) == [] <==> forall i :: 0 <= i < |local| ==> !Counts(local[i], known, v4, unseen)
    ensures forall ip :: Choice(local, known, v4, unseen) == [ip] <==> Sole(local, known, v4, unseen, ip)
  {
    if local != [] {
      var (n, front) := (|local| - 1, local[..|local| - 1]);
      ChoiceStep(local, known, v4, unseen);
      ChoiceIsSole(front, known, v4, unseen);
      assert forall i :: 0 <= i < n ==> front[i] == local[i];
      forall ip
        ensures Choice(local, known, v4, unseen) == [ip] <==> Sole(local, known, v4, unseen, ip)
      {
        SoleStep(local, known, v4, unseen, ip);
        OneLong(Choice(front, known, v4, unseen), local[n], ip);
      }
    }
  }

  lemma OneLong(front: seq<IP>, last: IP, ip: IP)
    ensures front + [last] == [ip] <==> front == [] && last == ip
    ensures front + [] == front
  {
    assert (front + [last])[|front|] == last;
    assert |front + [last]| == |front| + 1;
  }

  lemma SoleStep(local: seq<IP>, known: seq<Text>, v4: bool, unseen: bool, ip: IP)
    requires local != []
    ensures var (n, front) := (|local| - 1, local[..|local| - 1]);
            Sole(local, known, v4, unseen, ip)
            <==> if Counts(local[n], known, v4, unseen)
            then local[n] == ip && forall i :: 0 <= i < n ==> !Counts(front[i], known, v4, unseen)
            else Sole(front, known, v4, unseen, ip)
  {
    var (n, front) := (|local| - 1, local[..|local| - 1]);
    assert forall i :: 0 <= i < n ==> front[i] == local[i];
    assert forall i :: 0 <= i < n && !Counts(local[n], known, v4, unseen) ==>
                         (SoleAt(local, known, v4, unseen, i) <==> SoleAt(front, known, v4, unseen, i));
    if Counts(local[n], known, v4, unseen) && forall i :: 0 <= i < n ==> !Counts(front[i], known, v4, unseen) {
      assert SoleAt(local, known, v4, unseen, n);
    }
    if i :| SoleAt(local, known, v4, unseen, i) && local[i] == ip {
      assert i < n ==> front[i] == ip;
    }
  }

  lemma SoleAgrees(local: seq<IP>, known: seq<Text>, v4: bool, ip: IP, other: IP)
    requires Sole(local, known, v4, false, ip) && Sole(local, known, v4, true, other)
    ensures ip == other
  {
    var j :| SoleAt(local, known, v4, true, j) && local[j] == other;
    assert Counts(local[j], known, v4, false);
  }

  lemma ReplacementExactly(local: seq<IP>, known: seq<Text>, v4: bool, ip: IP)
    ensures Replacement(local, known, v4) == Some(ip) <==> Sole(local, known, v4, true, ip) || Sole(local, known, v4, false, ip)
  {
    var (public, newcomers) := (Choice(local, known, v4, false), Choice(local, known, v4, true));
    ChoiceIsSole(local, known, v4, true);
    ChoiceIsSole(local, known, v4, false);
    if |newcomers| == 1 {
      assert newcomers == [newcomers[0]];
      if Sole(local, known, v4, false, ip) {
        SoleAgrees(local, known, v4, ip, newcomers[0]);
      }
    }
    if |public| == 1 {
      assert public == [public[0]];
    }
  }

  /** A change is planned for a family exactly when its rows have lost one address and the
      host offers one replacement: a single public address of the family it did not have
      before, or a single public address of the family at all. */
  lemma PlannedExactly(listens: seq<Text>, local: seq<IP>, known: seq<Text>, v4: bool, ch: AddrChange)
    ensures FamilyPlan(listens, local, known, v4) == [ch]
       <==> OnlyLost(listens, local, v4, ch.oldIP)
            && (Sole(local, known, v4, true, ch.newIP) || Sole(local, known, v4, false, ch.newIP))
    ensures |FamilyPlan(listens, local, known, v4)| <= 1
  {
    ReplacementExactly(local, known, v4, ch.newIP);
    var lost := Lost(listens, local, v4);
    LostIsGone(listens, local, v4);
    assert |lost| > 1 ==> lost[0] != lost[1];
    if OnlyLost(listens, local, v4, ch.oldIP) {
      assert ch.oldIP in lost;
      forall k | 0 <= k < |lost| ensures lost[k] == ch.oldIP {
        assert lost[k] in lost;
      }
    }
    if |lost| == 1 && lost[0] == ch.oldIP {
      assert ch.oldIP in lost;
      forall i | 0 <= i < |listens| && Gone(listens[i], local, v4) ensures listens[i].ip == ch.oldIP {
        assert listens[i].ip in lost;
      }
      assert OnlyLost(listens, local, v4, ch.oldIP);
    }
  }
}
