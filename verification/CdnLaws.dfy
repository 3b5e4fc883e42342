/** What pooling measurements promises: nothing is lost, and the fastest reliable
    addresses lead. */
module CdnLaws {
  import opened Common
  import opened StableSort
  import opened CdnNetworks

  lemma AheadIsStrictWeak()
    ensures StrictWeak(Ahead)
  {
  }

  lemma BusierIsStrictWeak()
    ensures StrictWeak(Busier)
  {
  }

  // ---- Conservation ----

  function SamplesIn(rows: seq<Total>): int {
    if rows == [] then 0 else SamplesIn(rows[..|rows| - 1]) + rows[|rows| - 1].samples
  }

  /** The samples of one network's rows. */
  function SamplesOn(rows: seq<Total>, key: string): int {
    if rows == [] then 0
    else SamplesOn(rows[..|rows| - 1], key) + (if rows[|rows| - 1].netKey == key then rows[|rows| - 1].samples else 0)
  }

  function SamplesShown(networks: seq<Network>): int {
    if networks == [] then 0 else SamplesShown(networks[..|networks| - 1]) + networks[|networks| - 1].samples
  }

  /** The statistics of one network's rows, as they came. */
  function StatsOn(rows: seq<Total>, key: string): seq<AddrStat> {
    if rows == [] then []
    else StatsOn(rows[..|rows| - 1], key) + (if rows[|rows| - 1].netKey == key then [StatOf(rows[|rows| - 1])] else [])
  }

  lemma {:induction false} GroupedHolds(rows: seq<Total>, key: string)
    ensures Grouped(rows, key).key == key
    ensures Grouped(rows, key).samples == SamplesOn(rows, key)
    ensures Grouped(rows, key).addrs == StatsOn(rows, key)
  {
    if rows != [] {
      GroupedHolds(rows[..|rows| - 1], key);
    }
  }

  lemma {:induction false} KeysAreDistinct(rows: seq<Total>)
    ensures Distinct(Keys(rows))
  {
    if rows != [] {
      KeysAreDistinct(rows[..|rows| - 1]);
    }
  }

  /** One more row adds its samples to its own network only. */
  lemma {:induction false} OneMoreRow(rows: seq<Total>, r: Total, keys: seq<string>)
    requires Distinct(keys)
    ensures SamplesShown(Views(rows + [r], keys))
         == SamplesShown(Views(rows, keys)) + if r.netKey in keys then r.samples else 0
  {
    if keys != [] {
      var k := keys[|keys| - 1];
      OneMoreRow(rows, r, keys[..|keys| - 1]);
      assert (rows + [r])[..|rows|] == rows;
      assert r.netKey in keys <==> r.netKey in keys[..|keys| - 1] || r.netKey == k;
      ViewsLast(rows, keys);
      ViewsLast(rows + [r], keys);
    }
  }

  lemma ViewsLast(rows: seq<Total>, keys: seq<string>)
    requires keys != []
    ensures SamplesShown(Views(rows, keys))
         == SamplesShown(Views(rows, keys[..|keys| - 1])) + Grouped(rows, keys[|keys| - 1]).samples
  {
    var front := Views(rows, keys[..|keys| - 1]);
    assert Views(rows, keys)[..|front|] == front;
  }

  lemma {:induction false} ViewsConserve(rows: seq<Total>)
    ensures SamplesShown(Views(rows, Keys(rows))) == SamplesIn(rows)
  {
    if rows != [] {
      var (front, r) := (rows[..|rows| - 1], rows[|rows| - 1]);
      assert rows == front + [r];
      ViewsConserve(front);
      KeysAreDistinct(rows);
      KeysAreDistinct(front);
      OneMoreRow(front, r, Keys(front));
      if r.netKey !in Keys(front) {
        assert Keys(rows)[..|Keys(front)|] == Keys(front);
        ViewsLast(rows, Keys(rows));
        KeysMentioned(front, r.netKey);
      }
    }
  }

  lemma {:induction false} InsertConserves(n: Network, s: seq<Network>)
    ensures SamplesShown(Insert(n, s, Busier)) == SamplesShown(s) + n.samples
  {
    if s == [] || !Busier(n, s[|s| - 1]) {
      assert (s + [n])[..|s|] == s;
    } else {
      var front := Insert(n, s[..|s| - 1], Busier);
      InsertConserves(n, s[..|s| - 1]);
      assert Insert(n, s, Busier)[..|front|] == front;
    }
  }

  lemma {:induction false} SortingConserves(s: seq<Network>)
    ensures SamplesShown(Sorted(s, Busier)) == SamplesShown(s)
  {
    if s != [] {
      SortingConserves(s[..|s| - 1]);
      InsertConserves(s[|s| - 1], Sorted(s[..|s| - 1], Busier));
    }
  }

  /** The networks shown hold every sample there is, once. */
  lemma SummaryConserves(rows: seq<Total>)
    ensures SamplesShown(Summary(rows)) == SamplesIn(rows)
  {
    ViewsConserve(rows);
    SortingConserves(Views(rows, Keys(rows)));
  }

  // ---- One view for each network ----

  lemma {:induction false} ViewsHold(rows: seq<Total>, keys: seq<string>, n: Network)
    ensures n in Views(rows, keys) <==> n.key in keys && n == Finished(Grouped(rows, n.key))
  {
    if keys != [] {
      var k := keys[|keys| - 1];
      ViewsHold(rows, keys[..|keys| - 1], n);
      GroupedHolds(rows, k);
      assert n.key in keys <==> n.key in keys[..|keys| - 1] || n.key == k;
    }
  }

  lemma FinishedHolds(rows: seq<Total>, key: string)
    ensures var n := Finished(Grouped(rows, key));
            n.key == key && n.samples == SamplesOn(rows, key)
            && multiset(n.addrs) == multiset(StatsOn(rows, key)) && Ordered(n.addrs, Ahead)
  {
    GroupedHolds(rows, key);
    SortedKeepsElements(StatsOn(rows, key), Ahead);
    AheadIsStrictWeak();
    SortedIsOrdered(StatsOn(rows, key), Ahead);
  }

  /** Exactly the networks some row is about are shown, each as its rows make it. */
  lemma ShownExactly(rows: seq<Total>, n: Network)
    ensures n in Summary(rows)
       <==> (exists i :: 0 <= i < |rows| && rows[i].netKey == n.key) && n == Finished(Grouped(rows, n.key))
  {
    SortedKeepsElements(Views(rows, Keys(rows)), Busier);
    ViewsHold(rows, Keys(rows), n);
    KeysMentioned(rows, n.key);
  }

  /** A network's total is that of its own rows, and its addresses are those rows'
      statistics, the fastest reliable ones in front. */
  lemma ShownHolds(rows: seq<Total>, n: Network)
    requires n in Summary(rows)
    ensures n == Finished(Grouped(rows, n.key))
    ensures n.samples == SamplesOn(rows, n.key)
    ensures multiset(n.addrs) == multiset(StatsOn(rows, n.key))
    ensures Ordered(n.addrs, Ahead)
  {
    ShownExactly(rows, n);
    FinishedHolds(rows, n.key);
  }

  /** No network is shown twice, and busier networks come first. */
  lemma EachNetworkOnce(rows: seq<Total>)
    ensures forall i, j :: 0 <= i < j < |Summary(rows)| ==> Summary(rows)[i].key != Summary(rows)[j].key
    ensures forall i, j :: 0 <= i < j < |Summary(rows)| ==> Summary(rows)[i].samples >= Summary(rows)[j].samples
  {
    KeysAreDistinct(rows);
    ViewsDistinct(rows, Keys(rows));
    DistinctKeysStay(Views(rows, Keys(rows)));
    BusierIsStrictWeak();
    SortedIsOrdered(Views(rows, Keys(rows)), Busier);
    var shown := Summary(rows);
    forall i, j | 0 <= i < j < |shown| ensures shown[i].samples >= shown[j].samples {
      assert !Busier(shown[j], shown[i]);
    }
  }

  lemma {:induction false} ViewsDistinct(rows: seq<Total>, keys: seq<string>)
    requires Distinct(keys)
    ensures forall i, j :: 0 <= i < j < |Views(rows, keys)| ==> Views(rows, keys)[i].key != Views(rows, keys)[j].key
  {
    if keys != [] {
      var (front, k) := (keys[..|keys| - 1], keys[|keys| - 1]);
      ViewsDistinct(rows, front);
      GroupedHolds(rows, k);
      forall n | n in Views(rows, front) ensures n.key != k {
        ViewsHold(rows, front, n);
      }
    }
  }

  lemma {:induction false} DistinctKeysStay(s: seq<Network>)
    requires forall i, j :: 0 <= i < j < |s| ==> s[i].key != s[j].key
    ensures forall i, j :: 0 <= i < j < |Sorted(s, Busier)| ==> Sorted(s, Busier)[i].key != Sorted(s, Busier)[j].key
  {
    if s != [] {
      var (front, last) := (s[..|s| - 1], s[|s| - 1]);
      DistinctKeysStay(front);
      SortedKeepsElements(front, Busier);
      forall n | n in Sorted(front, Busier) ensures n.key != last.key {
        assert n in front;
      }
      InsertKeepsDistinct(last, Sorted(front, Busier));
    }
  }

  lemma {:induction false} InsertKeepsDistinct(n: Network, s: seq<Network>)
    requires forall i, j :: 0 <= i < j < |s| ==> s[i].key != s[j].key
    requires forall m :: m in s ==> m.key != n.key
    ensures forall i, j :: 0 <= i < j < |Insert(n, s, Busier)| ==> Insert(n, s, Busier)[i].key != Insert(n, s, Busier)[j].key
  {
    if s != [] && Busier(n, s[|s| - 1]) {
      var (front, last) := (s[..|s| - 1], s[|s| - 1]);
      InsertKeepsDistinct(n, front);
      InsertKeepsElements(n, front, Busier);
      var r := Insert(n, front, Busier);
      forall i | 0 <= i < |r| ensures r[i].key != last.key {
        assert r[i] in multiset(r);
        assert r[i] == n || r[i] in front;
      }
    }
  }

  // ---- Recommendations ----

  lemma RateCompares(ok: int, samples: int, rate: real, bound: real)
    requires samples > 0 && rate * samples as real == ok as real
    ensures rate >= bound <==> ok as real >= bound * samples as real
    ensures rate > bound <==> ok as real > bound * samples as real
  {
  }

  /** An address is ranked when it was tried three times and answered four in five. */
  lemma RankedMeans(r: Total)
    ensures StatOf(r).ranked <==> r.samples >= 3 && 5 * r.ok >= 4 * r.samples
  {
    if r.samples > 0 {
      RateCompares(r.ok, r.samples, StatOf(r).okRate, 0.8);
    }
  }

  lemma QuotientBounds(a: int, b: int)
    requires b > 0
    ensures a >= 0 ==> Quo(a, b) * b <= a < (Quo(a, b) + 1) * b
    ensures a < 0 ==> (Quo(a, b) - 1) * b < a <= Quo(a, b) * b
  {
    var q := Quo(a, b);
    if a < 0 {
      assert (-q) * b <= -a < (-q + 1) * b;
      assert (q - 1) * b == -((-q + 1) * b);
      assert q * b == -((-q) * b);
    }
  }

  /** What a row's statistic says: the share of its samples that were answered, and the whole
      milliseconds an answer took on average, 0 when there was none. */
  lemma StatMeasures(r: Total)
    ensures var a := StatOf(r);
            && a.ip == r.ip && a.samples == r.samples
            && (if r.samples > 0 then a.okRate * r.samples as real == r.ok as real else a.okRate == 0.0)
            && (if r.ok <= 0 then a.avgMs == 0
                else if r.msSum >= 0 then a.avgMs * r.ok <= r.msSum < (a.avgMs + 1) * r.ok
                else (a.avgMs - 1) * r.ok < r.msSum <= a.avgMs * r.ok)
  {
    if r.ok > 0 {
      QuotientBounds(r.msSum, r.ok);
    }
  }

  lemma {:induction false} NoneRanked(addrs: seq<AddrStat>)
    requires forall i :: 0 <= i < |addrs| ==> !addrs[i].ranked
    ensures Ranked(addrs) == []
  {
    if addrs != [] {
      NoneRanked(addrs[1..]);
    }
  }

  lemma {:induction false} LeadingIsRanked(addrs: seq<AddrStat>)
    requires Ordered(addrs, Ahead)
    ensures Leading(addrs) == Ranked(addrs)
  {
    if addrs != [] {
      if addrs[0].ranked {
        LeadingIsRanked(addrs[1..]);
      } else {
        assert forall i :: 0 < i < |addrs| ==> !Ahead(addrs[i], addrs[0]);
        NoneRanked(addrs);
      }
    }
  }

  lemma {:induction false} RankedTies(s: seq<AddrStat>, c: AddrStat)
    ensures Ties(Ranked(s), c, Ahead) == if c.ranked then Ties(s, c, Ahead) else []
  {
    if s != [] {
      RankedTies(s[1..], c);
      TiesOfSum(if s[0].ranked then [s[0]] else [], Ranked(s[1..]), c, Ahead);
    }
  }

  lemma {:induction false} RankedOrdered(s: seq<AddrStat>)
    requires Ordered(s, Ahead)
    ensures Ordered(Ranked(s), Ahead)
    ensures forall a :: a in Ranked(s) <==> a in s && a.ranked
  {
    if s != [] {
      RankedOrdered(s[1..]);
      assert forall a :: a in s <==> a == s[0] || a in s[1..];
      forall a | a in Ranked(s[1..]) ensures !Ahead(a, s[0]) {
        assert a in s[1..];
      }
    }
  }

  /** Stopping at the first unranked address skips no ranked one: the recommended are
      the ranked rows of the network themselves, sorted by speed. */
  lemma EarlyBreakSkipsNone(rows: seq<Total>, n: Network)
    requires n in Summary(rows)
    ensures Leading(n.addrs) == Sorted(Ranked(StatsOn(rows, n.key)), Ahead)
  {
    ShownHolds(rows, n);
    GroupedHolds(rows, n.key);
    var stats := StatsOn(rows, n.key);
    LeadingIsRanked(n.addrs);
    RankedOrdered(n.addrs);
    AheadIsStrictWeak();
    SortedIsOrdered(Ranked(stats), Ahead);
    forall c ensures Ties(Ranked(n.addrs), c, Ahead) == Ties(Sorted(Ranked(stats), Ahead), c, Ahead) {
      SortedIsStable(stats, c, Ahead);
      SortedIsStable(Ranked(stats), c, Ahead);
      RankedTies(n.addrs, c);
      RankedTies(stats, c);
    }
    StableOrderIsUnique(Ranked(n.addrs), Sorted(Ranked(stats), Ahead), Ahead);
  }

  /** One address is faster than another, those that never answered being slowest. */
  predicate Faster(a: AddrStat, b: AddrStat) {
    a.avgMs > 0 && (b.avgMs <= 0 || a.avgMs < b.avgMs)
  }

  lemma IpsOfTaken(addrs: seq<AddrStat>, limit: int)
    ensures Take(Ips(addrs), limit) == Ips(Take(addrs, limit))
  {
  }

  /** Address p of the list comes from a ranked statistic of the network, and no ranked one
      whose address is not in the list is faster. */
  ghost predicate AmongFastest(ips: seq<string>, p: nat, ranked: seq<AddrStat>)
    requires p < |ips|
  {
    exists a :: a in ranked && a.ip == ips[p] && forall b :: b in ranked && b.ip !in ips ==> !Faster(b, a)
  }

  /** Recommended gives limit addresses, or those of all the ranked statistics of the network
      if they are fewer (or the limit is negative), the fastest of them and fastest first. */
  lemma RecommendedAreFastest(rows: seq<Total>, n: Network, limit: int)
    requires n in Summary(rows)
    ensures var ranked := Ranked(StatsOn(rows, n.key));
            var ips := Take(Ips(Leading(n.addrs)), limit);
            && ips == Ips(Take(Sorted(ranked, Ahead), limit))
            && |ips| == (if 0 <= limit <= |ranked| then limit else |ranked|)
            && forall p :: 0 <= p < |ips| ==> AmongFastest(ips, p, ranked)
  {
    var ranked := Ranked(StatsOn(rows, n.key));
    var sorted := Sorted(ranked, Ahead);
    EarlyBreakSkipsNone(rows, n);
    SortedKeepsElements(ranked, Ahead);
    AheadIsStrictWeak();
    SortedIsOrdered(ranked, Ahead);
    RankedAll(StatsOn(rows, n.key));
    IpsOfTaken(sorted, limit);
    var ips := Ips(Take(sorted, limit));
    forall p | 0 <= p < |ips| ensures AmongFastest(ips, p, ranked) {
      TakenIsFastest(sorted, limit, p);
      assert sorted[p] in ranked;
    }
  }

  lemma TakenIsFastest(sorted: seq<AddrStat>, limit: int, p: nat)
    requires Ordered(sorted, Ahead) && (forall a :: a in sorted ==> a.ranked) && p < |Take(sorted, limit)|
    ensures Ips(Take(sorted, limit))[p] == sorted[p].ip
    ensures forall b :: b in sorted && b.ip !in Ips(Take(sorted, limit)) ==> !Faster(b, sorted[p])
  {
    var (taken, ips) := (Take(sorted, limit), Ips(Take(sorted, limit)));
    assert forall q :: 0 <= q < |taken| ==> ips[q] == sorted[q].ip;
    forall b | b in sorted && b.ip !in ips ensures !Faster(b, sorted[p]) {
      var j :| 0 <= j < |sorted| && sorted[j] == b;
      assert !Ahead(sorted[j], sorted[p]);
      assert sorted[p] in sorted;
    }
  }

  lemma {:induction false} RankedAll(s: seq<AddrStat>)
    ensures forall a :: a in Ranked(s) ==> a.ranked
  {
    if s != [] {
      RankedAll(s[1..]);
    }
  }

  // ---- A network where nothing answers ----

  lemma {:induction false} AnsweredMeans(rows: seq<Total>, key: string)
    ensures (exists a :: a in StatsOn(rows, key) && a.okRate > 0.0)
       <==> exists i :: 0 <= i < |rows| && rows[i].netKey == key && rows[i].ok > 0 && rows[i].samples > 0
  {
    if rows != [] {
      var n := |rows| - 1;
      AnsweredMeans(rows[..n], key);
      RateMeans(rows[n]);
      assert forall i :: 0 <= i < n ==> rows[..n][i] == rows[i];
      var had := exists a :: a in StatsOn(rows[..n], key) && a.okRate > 0.0;
      assert (exists a :: a in StatsOn(rows, key) && a.okRate > 0.0)
        <==> had || (rows[n].netKey == key && StatOf(rows[n]).okRate > 0.0) by {
        assert rows[n].netKey == key ==> StatOf(rows[n]) in StatsOn(rows, key);
      }
      var was := exists i :: 0 <= i < n && rows[..n][i].netKey == key && rows[..n][i].ok > 0 && rows[..n][i].samples > 0;
      assert had <==> was;
    }
  }

  lemma RateMeans(r: Total)
    ensures StatOf(r).okRate > 0.0 <==> r.ok > 0 && r.samples > 0
  {
    if r.samples > 0 {
      RateCompares(r.ok, r.samples, StatOf(r).okRate, 0.0);
    }
  }

  /** The CDN counts as down on a network exactly when nine samples were taken there and
      none of its rows has an answer. */
  lemma DownExactly(rows: seq<Total>, n: Network)
    requires n in Summary(rows)
    ensures n.cdnDown
       <==> SamplesOn(rows, n.key) >= 9
            && !exists i :: 0 <= i < |rows| && rows[i].netKey == n.key && rows[i].ok > 0 && rows[i].samples > 0
  {
    ShownHolds(rows, n);
    AnsweredMeans(rows, n.key);
    AnsweredAnyOrder(n.addrs, StatsOn(rows, n.key));
  }

  lemma AnsweredAnyOrder(s: seq<AddrStat>, t: seq<AddrStat>)
    requires multiset(s) == multiset(t)
    ensures Answered(s) <==> exists a :: a in t && a.okRate > 0.0
  {
    assert forall a :: a in s <==> a in multiset(s);
    assert forall a :: a in t <==> a in multiset(t);
    if i :| 0 <= i < |s| && s[i].okRate > 0.0 {
      assert s[i] in t;
    }
  }

  /** n was last heard of when its rows say, and has the last label any of them gives. */
  ghost predicate LabelledBy(rows: seq<Total>, key: string, n: Network) {
    && n.updatedAt >= 0
    && (forall i :: 0 <= i < |rows| && rows[i].netKey == key ==> rows[i].updatedAt <= n.updatedAt)
    && (n.updatedAt == 0 || exists i :: 0 <= i < |rows| && rows[i].netKey == key && rows[i].updatedAt == n.updatedAt)
    && (n.caption == "" <==> forall i :: 0 <= i < |rows| && rows[i].netKey == key ==> rows[i].netLabel == "")
    && (n.caption != "" ==> exists i :: 0 <= i < |rows| && LastLabel(rows, key, i) && rows[i].netLabel == n.caption)
  }

  lemma {:induction false} GroupedIsLabelled(rows: seq<Total>, key: string)
    ensures LabelledBy(rows, key, Grouped(rows, key))
  {
    if rows != [] {
      var m := |rows| - 1;
      GroupedIsLabelled(rows[..m], key);
      assert forall i :: 0 <= i < m ==> rows[..m][i] == rows[i];
      LabelStep(rows, key);
    }
  }

  /** A shown network says when it was last heard of, and the last label it was given. */
  lemma ShownIsLabelled(rows: seq<Total>, n: Network)
    requires n in Summary(rows)
    ensures LabelledBy(rows, n.key, n)
  {
    ShownHolds(rows, n);
    GroupedIsLabelled(rows, n.key);
  }

  ghost predicate LastLabel(rows: seq<Total>, key: string, i: nat)
    requires i < |rows|
  {
    && rows[i].netKey == key && rows[i].netLabel != ""
    && forall j :: i < j < |rows| && rows[j].netKey == key ==> rows[j].netLabel == ""
  }

  lemma LabelStep(rows: seq<Total>, key: string)
    requires rows != []
    ensures var (m, r) := (|rows| - 1, rows[|rows| - 1]);
            && (r.netKey == key && r.netLabel != "" ==> LastLabel(rows, key, m))
            && (r.netKey != key || r.netLabel == "" ==>
                  forall i :: 0 <= i < m && LastLabel(rows[..m], key, i) ==> LastLabel(rows, key, i))
  {
    var m := |rows| - 1;
    assert forall i :: 0 <= i < m ==> rows[..m][i] == rows[i];
  }
}
