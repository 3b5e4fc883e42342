/** Pooled measurements per network: grouping, ranking, recommending
    (internal/control/cdnstats/cdnstats.go). */
module CdnNetworks {
  import opened StableSort

  /** One network and address summed over the window. */
  datatype Total = Total(
    netKey: string,
    netLabel: string,
    ip: string,
    samples: int,
    ok: int,
    msSum: int,
    updatedAt: int
  )

  datatype AddrStat = AddrStat(ip: string, samples: int, okRate: real, avgMs: int, ranked: bool)

  datatype Network = Network(
    key: string,
    caption: string,
    samples: int,
    updatedAt: int,
    cdnDown: bool,
    addrs: seq<AddrStat>
  )

  const MIN_SAMPLES: int := 3
  const MIN_OK_RATE: real := 0.8

  /** Division rounding toward zero. */
  function Quo(a: int, b: int): int
    requires b > 0
  {
    if a >= 0 then a / b else -((-a) / b)
  }

  function StatOf(r: Total): AddrStat {
    var okRate := if r.samples > 0 then r.ok as real / r.samples as real else 0.0;
    AddrStat(r.ip, r.samples, okRate, if r.ok > 0 then Quo(r.msSum, r.ok) else 0,
             r.samples >= MIN_SAMPLES && okRate >= MIN_OK_RATE)
  }

  /** The order the panel and the recommendation use. */
  predicate Ahead(a: AddrStat, b: AddrStat) {
    if a.ranked != b.ranked then a.ranked
    else if !a.ranked && a.okRate != b.okRate then a.okRate > b.okRate
    else if (a.avgMs > 0) != (b.avgMs > 0) then a.avgMs > 0
    else a.avgMs < b.avgMs
  }

  predicate Busier(a: Network, b: Network) {
    a.samples > b.samples
  }

  // ---- Grouping ----

  function Blank(key: string): Network {
    Network(key, "", 0, 0, false, [])
  }

  function Credit(n: Network, r: Total): Network {
    n.(caption := if r.netLabel != "" then r.netLabel else n.caption,
    samples := n.samples + r.samples,
    updatedAt := if r.updatedAt > n.updatedAt then r.updatedAt else n.updatedAt,
    addrs := n.addrs + [StatOf(r)])
  }

  function Grouped(rows: seq<Total>, key: string): Network {
    if rows == [] then Blank(key)
    else
      var (n, r) := (Grouped(rows[..|rows| - 1], key), rows[|rows| - 1]);
      if r.netKey == key then Credit(n, r) else n
  }

  /** The networks in the order they are first mentioned. */
  function Keys(rows: seq<Total>): seq<string> {
    if rows == [] then []
    else
      var (before, k) := (Keys(rows[..|rows| - 1]), rows[|rows| - 1].netKey);
      if k in before then before else before + [k]
  }

  predicate Answered(addrs: seq<AddrStat>) {
    exists i :: 0 <= i < |addrs| && addrs[i].okRate > 0.0
  }

  function Finished(n: Network): Network {
    n.(addrs := Sorted(n.addrs, Ahead), cdnDown := !Answered(Sorted(n.addrs, Ahead)) && n.samples >= MIN_SAMPLES * 3)
  }

  function Views(rows: seq<Total>, keys: seq<string>): seq<Network> {
    if keys == [] then []
    else Views(rows, keys[..|keys| - 1]) + [Finished(Grouped(rows, keys[|keys| - 1]))]
  }

  function Summary(rows: seq<Total>): seq<Network> {
    Sorted(Views(rows, Keys(rows)), Busier)
  }

  lemma {:induction false} KeysMentioned(rows: seq<Total>, key: string)
    ensures key in Keys(rows) <==> exists i :: 0 <= i < |rows| && rows[i].netKey == key
    ensures key !in Keys(rows) ==> Grouped(rows, key) == Blank(key)
  {
    if rows != [] {
      var n := |rows| - 1;
      KeysMentioned(rows[..n], key);
      assert forall i :: 0 <= i < n ==> rows[i] == rows[..n][i];
      if i :| 0 <= i < |rows| && rows[i].netKey == key {
        assert i == n || rows[..n][i].netKey == key;
      }
    }
  }

  /** The views before sorting, and the networks in the order they were met. */
  method Group(rows: seq<Total>) returns (views: map<string, Network>, order: seq<string>)
    ensures order == Keys(rows)
    ensures forall k :: k in order ==> k in views && views[k] == Grouped(rows, k)
  {
    views, order := map[], [];
    for i := 0 to |rows|
      invariant order == Keys(rows[..i])
      invariant forall k :: k in views <==> k in order
      invariant forall k :: k in views ==> views[k] == Grouped(rows[..i], k)
    {
      assert rows[..i + 1][..i] == rows[..i];
      var key := rows[i].netKey;
      KeysMentioned(rows[..i], key);
      if key !in views {
        views := views[key := Blank(key)];
        order := order + [key];
      }
      var n := AddRow(views[key], rows[i]);
      views := views[key := n];
    }
    assert rows[..|rows|] == rows;
  }

  method AddRow(n: Network, r: Total) returns (m: Network)
    ensures m == Credit(n, r)
  {
    m := n;
    if r.netLabel != "" {
      m := m.(caption := r.netLabel);
    }
    m := m.(samples := m.samples + r.samples);
    if r.updatedAt > m.updatedAt {
      m := m.(updatedAt := r.updatedAt);
    }
    var a := AddrStat(r.ip, r.samples, 0.0, 0, false);
    if r.samples > 0 {
      a := a.(okRate := r.ok as real / r.samples as real);
    }
    if r.ok > 0 {
      a := a.(avgMs := Quo(r.msSum, r.ok));
    }
    a := a.(ranked := r.samples >= MIN_SAMPLES && a.okRate >= MIN_OK_RATE);
    m := m.(addrs := m.addrs + [a]);
  }

  method Finish(n: Network) returns (m: Network)
    ensures m == Finished(n)
  {
    var addrs := Sorted(n.addrs, Ahead);
    var answered := false;
    for j := 0 to |addrs|
      invariant !answered && forall l :: 0 <= l < j ==> addrs[l].okRate <= 0.0
    {
      if addrs[j].okRate > 0.0 {
        answered := true;
        break;
      }
    }
    m := n.(addrs := addrs, cdnDown := !answered && n.samples >= MIN_SAMPLES * 3);
  }

  method Summarise(rows: seq<Total>) returns (networks: seq<Network>)
    ensures networks == Summary(rows)
  {
    var views, order := Group(rows);
    networks := [];
    for i := 0 to |order|
      invariant networks == Views(rows, order[..i])
    {
      assert order[i] in order;
      var n := Finish(views[order[i]]);
      assert order[..i + 1][..i] == order[..i];
      networks := networks + [n];
    }
    assert order[..|order|] == order;
    networks := Sorted(networks, Busier);
  }

  // ---- Recommending ----

  /** The stats that meet the rules, in the order given. */
  function Ranked(addrs: seq<AddrStat>): seq<AddrStat> {
    if addrs == [] then [] else (if addrs[0].ranked then [addrs[0]] else []) + Ranked(addrs[1..])
  }

  /** The stats before the first that does not meet the rules. */
  function Leading(addrs: seq<AddrStat>): seq<AddrStat> {
    if addrs == [] || !addrs[0].ranked then [] else [addrs[0]] + Leading(addrs[1..])
  }

  function Ips(addrs: seq<AddrStat>): seq<string> {
    seq(|addrs|, i requires 0 <= i < |addrs| => addrs[i].ip)
  }

  /** The first limit elements; a negative limit takes them all. */
  function Take<T>(s: seq<T>, limit: int): seq<T> {
    if 0 <= limit <= |s| then s[..limit] else s
  }

  /** n.Recommended(limit) */
  method Recommended(addrs: seq<AddrStat>, limit: int) returns (ips: seq<string>)
    ensures ips == Take(Ips(Leading(addrs)), limit)
  {
    ips := [];
    var i := 0;
    while i < |addrs|
      invariant 0 <= i <= |addrs|
      invariant forall j :: 0 <= j < i ==> addrs[j].ranked
      invariant limit < 0 || i <= limit
      invariant ips == Ips(addrs[..i])
    {
      if !addrs[i].ranked || |ips| == limit {
        break;
      }
      ips := ips + [addrs[i].ip];
      i := i + 1;
    }
    LeadingRun(addrs, i);
  }

  lemma {:induction false} LeadingRun(addrs: seq<AddrStat>, i: nat)
    requires i <= |addrs| && forall j :: 0 <= j < i ==> addrs[j].ranked
    ensures Leading(addrs) == addrs[..i] + Leading(addrs[i..])
  {
    if i > 0 {
      LeadingRun(addrs[1..], i - 1);
      assert addrs[1..][i - 1..] == addrs[i..];
      assert addrs[..i] == [addrs[0]] + addrs[1..][..i - 1];
    }
  }
}
