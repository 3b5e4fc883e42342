/** The addresses a client is told to probe, and their order
    (internal/control/share/cdn_pool.go, internal/control/cdnstats/cdnstats.go). */
module CdnHeader {
  import opened Common
  import opened ProbeRound

  const MAX_CLIENT_CANDIDATES: nat := 30

  const CURATED: seq<string> := [
    "103.31.4.230", "103.31.4.68", "103.31.4.231", "103.31.4.170", "103.31.4.2", "103.31.4.71",
    "162.159.129.27", "162.159.133.199", "162.159.143.206", "162.159.139.2", "162.159.152.20",
    "162.159.151.216", "162.159.82.27", "104.17.152.60", "188.114.97.75", "188.114.99.9",
    "188.114.96.31", "188.114.96.37", "188.114.96.156"
  ]

  /** Each element where it is first mentioned. */
  function Firsts(s: seq<string>): seq<string> {
    if s == [] then []
    else
      var (before, x) := (Firsts(s[..|s| - 1]), s[|s| - 1]);
      if x in before then before else before + [x]
  }

  lemma {:induction false} FirstsAre(s: seq<string>)
    ensures Distinct(Firsts(s))
    ensures forall x :: x in Firsts(s) <==> x in s
  {
    if s != [] {
      FirstsAre(s[..|s| - 1]);
      assert s == s[..|s| - 1] + [s[|s| - 1]];
    }
  }

  lemma {:induction false} FirstsExtend(s: seq<string>, t: seq<string>)
    ensures Firsts(s) <= Firsts(s + t)
  {
    if t == [] {
      assert s + t == s;
    } else {
      FirstsExtend(s, t[..|t| - 1]);
      assert (s + t)[..|s + t| - 1] == s + t[..|t| - 1];
    }
  }

  // ---- Candidates ----

  /** The entries that are IPv4 addresses, trimmed. */
  function Usable(entries: seq<string>, t: TextRules): seq<string> {
    if entries == [] then []
    else
      var (before, ip) := (Usable(entries[..|entries| - 1], t), t.trimSpace(entries[|entries| - 1]));
      if t.isIPv4(ip) then before + [ip] else before
  }

  function Capped(s: seq<string>): seq<string> {
    if |s| <= MAX_CLIENT_CANDIDATES then s else s[..MAX_CLIENT_CANDIDATES]
  }

  function Candidates(pool: seq<string>, t: TextRules): seq<string> {
    Capped(Firsts(Usable(pool + CURATED, t)))
  }

  lemma {:induction false} UsableExtends(s: seq<string>, u: seq<string>, t: TextRules)
    ensures Usable(s + u, t) == Usable(s, t) + Usable(u, t)
  {
    if u == [] {
      assert s + u == s;
    } else {
      UsableExtends(s, u[..|u| - 1], t);
      assert (s + u)[..|s + u| - 1] == s + u[..|u| - 1];
    }
  }

  lemma FullStaysFull(s: seq<string>, u: seq<string>, t: TextRules)
    requires |Firsts(Usable(s, t))| == MAX_CLIENT_CANDIDATES
    ensures Capped(Firsts(Usable(s + u, t))) == Firsts(Usable(s, t))
  {
    UsableExtends(s, u, t);
    FirstsExtend(Usable(s, t), Usable(u, t));
  }

  method ClientCandidates(pool: seq<string>, t: TextRules) returns (found: seq<string>)
    ensures found == Candidates(pool, t)
  {
    assert [] + pool == pool;
    found := AddFrom([], [], pool, t);
    if |found| == MAX_CLIENT_CANDIDATES {
      assert Capped(Firsts(Usable(pool, t))) <= found;
      UsableExtends(pool, CURATED, t);
      FirstsExtend(Usable(pool, t), Usable(CURATED, t));
      return;
    }
    found := AddFrom(pool, found, CURATED, t);
  }

  lemma OneMoreEntry(s: seq<string>, entry: string, t: TextRules)
    ensures var (had, ip) := (Firsts(Usable(s, t)), t.trimSpace(entry));
            Firsts(Usable(s + [entry], t)) == if ip in had || !t.isIPv4(ip) then had else had + [ip]
  {
    assert (s + [entry])[..|s|] == s;
    var ip := t.trimSpace(entry);
    assert (Usable(s, t) + [ip])[..|Usable(s, t)|] == Usable(s, t);
  }

  lemma FullAt(done: seq<string>, list: seq<string>, i: nat, t: TextRules)
    requires i <= |list| && |Firsts(Usable(done + list[..i], t))| == MAX_CLIENT_CANDIDATES
    ensures Capped(Firsts(Usable(done + list, t))) == Firsts(Usable(done + list[..i], t))
  {
    SliceRest(done, list, i);
    FullStaysFull(done + list[..i], list[i..], t);
  }

  lemma SliceRest(done: seq<string>, list: seq<string>, i: nat)
    requires i <= |list|
    ensures done + list[..i] + list[i..] == done + list
  {
  }

  lemma SliceMore(done: seq<string>, list: seq<string>, i: nat)
    requires i < |list|
    ensures done + list[..i + 1] == done + list[..i] + [list[i]]
  {
  }

  lemma OneMoreAt(done: seq<string>, list: seq<string>, i: nat, t: TextRules)
    requires i < |list|
    ensures var (had, ip) := (Firsts(Usable(done + list[..i], t)), t.trimSpace(list[i]));
            Firsts(Usable(done + list[..i + 1], t)) == if ip in had || !t.isIPv4(ip) then had else had + [ip]
  {
    SliceMore(done, list, i);
    OneMoreEntry(done + list[..i], list[i], t);
  }

  /** One of the two lists, after done. */
  method AddFrom(ghost done: seq<string>, already: seq<string>, list: seq<string>, t: TextRules)
    returns (found: seq<string>)
    requires already == Firsts(Usable(done, t)) && |already| <= MAX_CLIENT_CANDIDATES
    ensures found == Capped(Firsts(Usable(done + list, t)))
  {
    var seen: set<string> := set x | x in already;
    found := already;
    assert done + list[..0] == done;
    for i := 0 to |list|
      invariant |found| <= MAX_CLIENT_CANDIDATES
      invariant found == Firsts(Usable(done + list[..i], t))
      invariant forall x :: x in seen <==> x in found
    {
      var ip := t.trimSpace(list[i]);
      if |found| == MAX_CLIENT_CANDIDATES {
        FullAt(done, list, i, t);
        return;
      }
      OneMoreAt(done, list, i, t);
      if ip in seen || !t.isIPv4(ip) {
        continue;
      }
      seen := seen + {ip};
      found := found + [ip];
    }
    assert done + list[..|list|] == done + list;
  }

  lemma {:induction false} UsableAre(entries: seq<string>, t: TextRules, ip: string)
    ensures ip in Usable(entries, t)
       <==> t.isIPv4(ip) && exists i :: 0 <= i < |entries| && t.trimSpace(entries[i]) == ip
  {
    if entries != [] {
      var n := |entries| - 1;
      UsableAre(entries[..n], t, ip);
      assert forall i :: 0 <= i < n ==> entries[..n][i] == entries[i];
      if i :| 0 <= i < |entries| && t.trimSpace(entries[i]) == ip {
        assert i == n || t.trimSpace(entries[..n][i]) == ip;
      }
    }
  }

  /** What a list capped after two sources promises of both. */
  ghost predicate SoundFrom(cands: seq<string>, entries: seq<string>, t: TextRules) {
    && |cands| <= MAX_CLIENT_CANDIDATES && Distinct(cands)
    && (forall ip :: ip in cands ==> t.isIPv4(ip) && exists i :: 0 <= i < |entries| && t.trimSpace(entries[i]) == ip)
    && (|cands| < MAX_CLIENT_CANDIDATES ==>
          forall i :: 0 <= i < |entries| && t.isIPv4(t.trimSpace(entries[i])) ==> t.trimSpace(entries[i]) in cands)
  }

  lemma CappedAreSound(entries: seq<string>, t: TextRules)
    ensures SoundFrom(Capped(Firsts(Usable(entries, t))), entries, t)
  {
    var all := Firsts(Usable(entries, t));
    FirstsAre(Usable(entries, t));
    forall ip | ip in all
      ensures t.isIPv4(ip) && exists i :: 0 <= i < |entries| && t.trimSpace(entries[i]) == ip
    {
      UsableAre(entries, t, ip);
    }
    forall i | 0 <= i < |entries| && t.isIPv4(t.trimSpace(entries[i]))
      ensures t.trimSpace(entries[i]) in all
    {
      UsableAre(entries, t, t.trimSpace(entries[i]));
    }
    assert forall ip :: ip in Capped(all) ==> ip in all;
  }

  /** Clients get at most thirty distinct IPv4 addresses of the pool or the curated list;
      the pool's come first, and as long as there is room nothing is dropped. */
  lemma CandidatesAreSound(pool: seq<string>, t: TextRules)
    ensures SoundFrom(Candidates(pool, t), pool + CURATED, t)
    ensures Capped(Firsts(Usable(pool, t))) <= Candidates(pool, t)
  {
    CappedAreSound(pool + CURATED, t);
    CappedExtends(pool, CURATED, t);
  }

  lemma CappedExtends(pool: seq<string>, more: seq<string>, t: TextRules)
    ensures Capped(Firsts(Usable(pool, t))) <= Capped(Firsts(Usable(pool + more, t)))
  {
    UsableExtends(pool, more, t);
    FirstsExtend(Usable(pool, t), Usable(more, t));
  }

  // ---- Order ----

  function Within(s: seq<string>, members: seq<string>): seq<string> {
    if s == [] then []
    else
      var before := Within(s[..|s| - 1], members);
      if s[|s| - 1] in members then before + [s[|s| - 1]] else before
  }

  /** The recommended candidates first, then the rest as they were. */
  function Ordered(candidates: seq<string>, recommended: seq<string>): seq<string> {
    Firsts(Within(recommended, candidates) + candidates)
  }

  lemma OneMoreWithin(s: seq<string>, members: seq<string>, i: nat)
    requires i < |s|
    ensures var had := Firsts(Within(s[..i], members));
            Firsts(Within(s[..i + 1], members)) == if s[i] !in members || s[i] in had then had else had + [s[i]]
  {
    var w := Within(s[..i], members);
    assert s[..i + 1][..i] == s[..i];
    assert (w + [s[i]])[..|w|] == w;
  }

  lemma OneMoreFirst(head: seq<string>, s: seq<string>, i: nat)
    requires i < |s|
    ensures var had := Firsts(head + s[..i]);
            Firsts(head + s[..i + 1]) == if s[i] in had then had else had + [s[i]]
  {
    SliceMore(head, s, i);
    var before := head + s[..i];
    assert (before + [s[i]])[..|before|] == before;
  }

  method Order(candidates: seq<string>, recommended: seq<string>) returns (out: seq<string>)
    ensures out == Ordered(candidates, recommended)
  {
    var allowed: set<string> := set x | x in candidates;
    var seen: set<string> := {};
    out := [];
    for i := 0 to |recommended|
      invariant out == Firsts(Within(recommended[..i], candidates))
      invariant forall x :: x in seen <==> x in out
    {
      OneMoreWithin(recommended, candidates, i);
      var ip := recommended[i];
      if ip in allowed && ip !in seen {
        seen := seen + {ip};
        out := out + [ip];
      }
    }
    assert recommended[..|recommended|] == recommended;
    ghost var head := Within(recommended, candidates);
    assert head + candidates[..0] == head;
    for i := 0 to |candidates|
      invariant out == Firsts(head + candidates[..i])
      invariant forall x :: x in seen <==> x in out
    {
      OneMoreFirst(head, candidates, i);
      var ip := candidates[i];
      if ip !in seen {
        seen := seen + {ip};
        out := out + [ip];
      }
    }
    assert candidates[..|candidates|] == candidates;
  }

  lemma {:induction false} WithinAre(s: seq<string>, members: seq<string>)
    ensures forall x :: x in Within(s, members) <==> x in s && x in members
  {
    if s != [] {
      WithinAre(s[..|s| - 1], members);
      assert s == s[..|s| - 1] + [s[|s| - 1]];
    }
  }

  lemma {:induction false} DistinctSameElements(s: seq<string>, t: seq<string>)
    requires Distinct(s) && Distinct(t) && forall x :: x in s <==> x in t
    ensures multiset(s) == multiset(t)
  {
    forall x ensures multiset(s)[x] == multiset(t)[x] {
      CountInDistinct(s, x);
      CountInDistinct(t, x);
    }
  }

  lemma {:induction false} CountInDistinct(s: seq<string>, x: string)
    requires Distinct(s)
    ensures multiset(s)[x] == if x in s then 1 else 0
  {
    if s != [] {
      CountInDistinct(s[..|s| - 1], x);
      assert s == s[..|s| - 1] + [s[|s| - 1]];
    }
  }

  function Without(s: seq<string>, members: seq<string>): seq<string> {
    if s == [] then []
    else
      var before := Without(s[..|s| - 1], members);
      if s[|s| - 1] in members then before else before + [s[|s| - 1]]
  }

  lemma {:induction false} FirstsOfSum(head: seq<string>, s: seq<string>)
    requires Distinct(s)
    ensures Firsts(head + s) == Firsts(head) + Without(s, head)
  {
    if s == [] {
      assert head + s == head;
    } else {
      var (front, x) := (s[..|s| - 1], s[|s| - 1]);
      FirstsOfSum(head, front);
      assert (head + s)[..|head + s| - 1] == head + front;
      FirstsAre(head + front);
      assert x !in front;
    }
  }

  /** Ordering distinct candidates rearranges them: the recommended ones among them lead,
      each once and in the order recommended, and the others keep their order. */
  lemma OrderRearranges(candidates: seq<string>, recommended: seq<string>)
    requires Distinct(candidates)
    ensures multiset(Ordered(candidates, recommended)) == multiset(candidates)
    ensures Ordered(candidates, recommended)
         == Firsts(Within(recommended, candidates)) + Without(candidates, recommended)
  {
    var head := Within(recommended, candidates);
    WithinAre(recommended, candidates);
    FirstsAre(head + candidates);
    FirstsOfSum(head, candidates);
    WithoutSame(candidates, head, recommended);
    DistinctSameElements(Ordered(candidates, recommended), candidates);
  }

  lemma {:induction false} WithoutSame(s: seq<string>, a: seq<string>, b: seq<string>)
    requires forall x :: x in s ==> (x in a <==> x in b)
    ensures Without(s, a) == Without(s, b)
  {
    if s != [] {
      WithoutSame(s[..|s| - 1], a, b);
    }
  }

  /** Whatever a network recommends, a client is handed the same candidates. */
  lemma HeaderHoldsTheCandidates(pool: seq<string>, recommended: seq<string>, t: TextRules)
    ensures multiset(Ordered(Candidates(pool, t), recommended)) == multiset(Candidates(pool, t))
    ensures forall ip :: ip in recommended && ip in Candidates(pool, t) ==> ip in Ordered(Candidates(pool, t), recommended)
    ensures |Ordered(Candidates(pool, t), recommended)| <= 30
  {
    CandidatesAreSound(pool, t);
    OrderRearranges(Candidates(pool, t), recommended);
    var out := Ordered(Candidates(pool, t), recommended);
    assert |multiset(out)| == |out| && |multiset(Candidates(pool, t))| == |Candidates(pool, t)|;
    assert forall ip :: ip in out <==> ip in multiset(out);
    assert forall ip :: ip in Candidates(pool, t) <==> ip in multiset(Candidates(pool, t));
  }
}
