/** A client's probe round of CDN addresses: cleaning it, and the two questions
    the limiter asks about it (internal/control/cdnstats). */
module ProbeRound {
  import opened Common

  /** One address's result. ms is 0 unless ok once the round is cleaned. */
  datatype Sample = Sample(ip: string, ok: bool, ms: int)

  datatype Report = Report(
    netKey: string,
    controlMs: int,
    manual: bool,
    currentIP: string,
    results: seq<Sample>
  )

  /** Library calls the cleaning depends on. */
  datatype TextRules = TextRules(
    validNetKey: string -> bool,
    trimSpace: string -> string,
    isIPv4: string -> bool
  )

  const MAX_RESULTS: nat := 40
  const MAX_MS: int := 5000
  const CONTROL_SLOW_MS: int := 1500

  predicate Plausible(s: Sample) {
    s.ok && 0 < s.ms <= MAX_MS
  }

  function Addresses(samples: seq<Sample>): set<string> {
    if samples == [] then {}
    else Addresses(samples[..|samples| - 1]) + {samples[|samples| - 1].ip}
  }

  function Failures(samples: seq<Sample>): (n: nat)
    ensures n <= |samples|
  {
    if samples == [] then 0
    else Failures(samples[..|samples| - 1]) + (if samples[|samples| - 1].ok then 0 else 1)
  }

  /** The samples worth pooling: handed-out IPv4 addresses, first mention only. */
  function Kept(results: seq<Sample>, candidates: seq<string>, t: TextRules): seq<Sample> {
    if results == [] then []
    else
      var kept := Kept(results[..|results| - 1], candidates, t);
      var s := results[|results| - 1];
      var ip := t.trimSpace(s.ip);
      if ip !in candidates || ip in Addresses(kept) || !t.isIPv4(ip) then kept
      else kept + [Sample(ip, Plausible(s), if Plausible(s) then s.ms else 0)]
  }

  function CleanSpec(r: Report, candidates: seq<string>, t: TextRules): Result<seq<Sample>> {
    var read := if |r.results| <= MAX_RESULTS then r.results else r.results[..MAX_RESULTS];
    var kept := Kept(read, candidates, t);
    if !t.validNetKey(r.netKey) then Err("bad_net")
    else if r.controlMs <= 0 || r.controlMs > CONTROL_SLOW_MS then Err("network_poor")
    else if kept == [] then Err("empty")
    else if Failures(kept) * 2 > |kept| then Err("mostly_failed")
    else Ok(kept)
  }

  lemma OneMoreResult(results: seq<Sample>, i: nat, candidates: seq<string>, t: TextRules)
    requires i < |results|
    ensures var (kept, s) := (Kept(results[..i], candidates, t), results[i]);
            var ip := t.trimSpace(s.ip);
            Kept(results[..i + 1], candidates, t)
            == if ip !in candidates || ip in Addresses(kept) || !t.isIPv4(ip) then kept
            else kept + [Sample(ip, Plausible(s), if Plausible(s) then s.ms else 0)]
  {
    assert results[..i + 1][..i] == results[..i];
  }

  lemma OneMoreKept(kept: seq<Sample>, s: Sample)
    ensures Addresses(kept + [s]) == Addresses(kept) + {s.ip}
    ensures Failures(kept + [s]) == Failures(kept) + if s.ok then 0 else 1
  {
    assert (kept + [s])[..|kept|] == kept;
  }

  method Clean(r: Report, candidates: seq<string>, t: TextRules) returns (res: Result<seq<Sample>>)
    ensures res == CleanSpec(r, candidates, t)
  {
    if !t.validNetKey(r.netKey) {
      return Err("bad_net");
    }
    if r.controlMs <= 0 || r.controlMs > CONTROL_SLOW_MS {
      return Err("network_poor");
    }
    var out, failed := Sift(r.results, candidates, t);
    if |out| == 0 {
      return Err("empty");
    }
    if failed * 2 > |out| {
      return Err("mostly_failed");
    }
    return Ok(out);
  }

  /** The samples to keep, and how many of them failed. */
  method Sift(results: seq<Sample>, candidates: seq<string>, t: TextRules) returns (out: seq<Sample>, failed: nat)
    ensures out == Kept(if |results| <= MAX_RESULTS then results else results[..MAX_RESULTS], candidates, t)
    ensures failed == Failures(out)
  {
    var allowed: set<string> := set ip | ip in candidates;
    var seen: set<string> := {};
    out, failed := [], 0;
    var i := 0;
    while i < |results| && i != MAX_RESULTS
      invariant 0 <= i <= |results| && i <= MAX_RESULTS
      invariant out == Kept(results[..i], candidates, t)
      invariant seen == Addresses(out)
      invariant failed == Failures(out)
    {
      var s := results[i];
      OneMoreResult(results, i, candidates, t);
      var ip := t.trimSpace(s.ip);
      i := i + 1;
      if ip !in allowed || ip in seen || !t.isIPv4(ip) {
        continue;
      }
      seen := seen + {ip};
      var ok := s.ok && s.ms > 0 && s.ms <= MAX_MS;
      var ms := 0;
      if ok {
        ms := s.ms;
      } else {
        failed := failed + 1;
      }
      OneMoreKept(out, Sample(ip, ok, ms));
      out := out + [Sample(ip, ok, ms)];
    }
    assert results[..|results|] == results;
  }

  ghost predicate DistinctIps(samples: seq<Sample>) {
    forall i, j :: 0 <= i < j < |samples| ==> samples[i].ip != samples[j].ip
  }

  ghost predicate Cleaned(samples: seq<Sample>, candidates: seq<string>, t: TextRules) {
    forall i :: 0 <= i < |samples| ==>
                  && samples[i].ip in candidates
                  && t.isIPv4(samples[i].ip)
                  && (if samples[i].ok then 0 < samples[i].ms <= MAX_MS else samples[i].ms == 0)
  }

  lemma {:induction false} AddressesAre(samples: seq<Sample>)
    ensures forall i :: 0 <= i < |samples| ==> samples[i].ip in Addresses(samples)
  {
    if samples != [] {
      var n := |samples| - 1;
      AddressesAre(samples[..n]);
      assert forall i :: 0 <= i < n ==> samples[..n][i] == samples[i];
    }
  }

  /** Nothing slips in: every kept address was handed out and measured, once. */
  lemma {:induction false} KeptIsClean(results: seq<Sample>, candidates: seq<string>, t: TextRules)
    ensures Cleaned(Kept(results, candidates, t), candidates, t)
    ensures DistinctIps(Kept(results, candidates, t))
    ensures |Kept(results, candidates, t)| <= |results|
  {
    if results != [] {
      var n := |results| - 1;
      var before, after := Kept(results[..n], candidates, t), Kept(results, candidates, t);
      KeptIsClean(results[..n], candidates, t);
      AddressesAre(before);
      assert after == before || (after == before + [after[|before|]] && |after| == |before| + 1);
      assert forall i :: 0 <= i < |before| ==> after[i] == before[i];
    }
  }

  /** Nothing measurable is lost: a handed-out address the client reported within
      the first MAX_RESULTS entries is kept, with its first measurement. */
  lemma {:induction false} KeptFirstMention(results: seq<Sample>, candidates: seq<string>, t: TextRules, k: nat)
    requires k < |results|
    requires t.trimSpace(results[k].ip) in candidates && t.isIPv4(t.trimSpace(results[k].ip))
    requires forall j :: 0 <= j < k ==> t.trimSpace(results[j].ip) != t.trimSpace(results[k].ip)
    ensures Sample(t.trimSpace(results[k].ip), Plausible(results[k]), if Plausible(results[k]) then results[k].ms else 0)
            in Kept(results, candidates, t)
  {
    var n := |results| - 1;
    var ip := t.trimSpace(results[k].ip);
    OneMoreResult(results, n, candidates, t);
    assert results[..n + 1] == results;
    if k < n {
      assert results[..n][k] == results[k];
      KeptFirstMention(results[..n], candidates, t, k);
    } else {
      KeptComesFrom(results[..n], candidates, t, ip);
    }
  }

  lemma {:induction false} KeptComesFrom(results: seq<Sample>, candidates: seq<string>, t: TextRules, ip: string)
    requires forall j :: 0 <= j < |results| ==> t.trimSpace(results[j].ip) != ip
    ensures ip !in Addresses(Kept(results, candidates, t))
  {
    if results != [] {
      KeptComesFrom(results[..|results| - 1], candidates, t, ip);
    }
  }

  // ---- Which rounds are accepted ----

  /** Result i is the first mention of a handed-out IPv4 address. */
  ghost predicate FirstMention(results: seq<Sample>, candidates: seq<string>, t: TextRules, i: int) {
    && 0 <= i < |results| && t.trimSpace(results[i].ip) in candidates && t.isIPv4(t.trimSpace(results[i].ip))
    && forall j :: 0 <= j < i ==> t.trimSpace(results[j].ip) != t.trimSpace(results[i].ip)
  }

  ghost function Mentions(results: seq<Sample>, candidates: seq<string>, t: TextRules): set<int> {
    set i | 0 <= i < |results| && FirstMention(results, candidates, t, i)
  }

  ghost function Unanswered(results: seq<Sample>, candidates: seq<string>, t: TextRules): set<int> {
    set i | 0 <= i < |results| && FirstMention(results, candidates, t, i) && !Plausible(results[i])
  }

  lemma KeptGrows(results: seq<Sample>, candidates: seq<string>, t: TextRules)
    requires results != []
    ensures var (n, front) := (|results| - 1, results[..|results| - 1]);
            var ip := t.trimSpace(results[n].ip);
            && Addresses(Kept(front, candidates, t)) <= Addresses(Kept(results, candidates, t))
            && (ip in candidates && t.isIPv4(ip) ==> ip in Addresses(Kept(results, candidates, t)))
  {
    var s := results[|results| - 1];
    OneMoreKept(Kept(results[..|results| - 1], candidates, t), Sample(t.trimSpace(s.ip), Plausible(s), if Plausible(s) then s.ms else 0));
  }

  lemma {:induction false} MentionIsKept(results: seq<Sample>, candidates: seq<string>, t: TextRules, j: nat)
    requires j < |results| && t.trimSpace(results[j].ip) in candidates && t.isIPv4(t.trimSpace(results[j].ip))
    ensures t.trimSpace(results[j].ip) in Addresses(Kept(results, candidates, t))
  {
    KeptGrows(results, candidates, t);
    if j < |results| - 1 {
      assert results[..|results| - 1][j] == results[j];
      MentionIsKept(results[..|results| - 1], candidates, t, j);
    }
  }

  lemma MentionStep(results: seq<Sample>, candidates: seq<string>, t: TextRules)
    requires results != []
    ensures var (n, front) := (|results| - 1, results[..|results| - 1]);
            var ip := t.trimSpace(results[n].ip);
            && (FirstMention(results, candidates, t, n)
                <==> ip in candidates && t.isIPv4(ip) && ip !in Addresses(Kept(front, candidates, t)))
            && forall i :: i < n ==> (FirstMention(results, candidates, t, i) <==> FirstMention(front, candidates, t, i))
  {
    var (n, front) := (|results| - 1, results[..|results| - 1]);
    var ip := t.trimSpace(results[n].ip);
    assert forall i :: 0 <= i < n ==> front[i] == results[i];
    if ip in candidates && t.isIPv4(ip) {
      if j :| 0 <= j < n && t.trimSpace(front[j].ip) == ip {
        MentionIsKept(front, candidates, t, j);
      } else {
        KeptComesFrom(front, candidates, t, ip);
      }
    }
  }

  lemma MentionSets(results: seq<Sample>, candidates: seq<string>, t: TextRules)
    requires results != []
    ensures var (n, front) := (|results| - 1, results[..|results| - 1]);
            var added := FirstMention(results, candidates, t, n);
            && Mentions(results, candidates, t) == Mentions(front, candidates, t) + (if added then {n} else {})
            && Unanswered(results, candidates, t)
               == Unanswered(front, candidates, t) + (if added && !Plausible(results[n]) then {n} else {})
  {
    MentionStep(results, candidates, t);
  }

  /** As many samples are kept as addresses are mentioned, and as many have failed. */
  lemma {:induction false} KeptCounts(results: seq<Sample>, candidates: seq<string>, t: TextRules)
    ensures |Kept(results, candidates, t)| == |Mentions(results, candidates, t)|
    ensures Failures(Kept(results, candidates, t)) == |Unanswered(results, candidates, t)|
  {
    if results != [] {
      var n := |results| - 1;
      var s := results[n];
      KeptCounts(results[..n], candidates, t);
      MentionStep(results, candidates, t);
      MentionSets(results, candidates, t);
      OneMoreKept(Kept(results[..n], candidates, t), Sample(t.trimSpace(s.ip), Plausible(s), if Plausible(s) then s.ms else 0));
    }
  }

  /** A round is turned down exactly for an unknown network, a network too slow to tell, no
      handed-out address among the first forty results, or more than half of those failing;
      the first of these that applies is the reason. */
  lemma CleanDecidesExactly(r: Report, candidates: seq<string>, t: TextRules)
    ensures var read := if |r.results| <= 40 then r.results else r.results[..40];
            var (mentions, failed) := (Mentions(read, candidates, t), Unanswered(read, candidates, t));
            var res := CleanSpec(r, candidates, t);
            if !t.validNetKey(r.netKey) then res == Err("bad_net")
            else if !(0 < r.controlMs <= 1500) then res == Err("network_poor")
            else if mentions == {} then res == Err("empty")
            else if |failed| * 2 > |mentions| then res == Err("mostly_failed")
            else res.Ok? && |res.value| == |mentions|
  {
    var read := if |r.results| <= MAX_RESULTS then r.results else r.results[..MAX_RESULTS];
    KeptCounts(read, candidates, t);
  }

  lemma {:induction false} SomeAnswer(samples: seq<Sample>)
    requires Failures(samples) < |samples|
    ensures exists i :: 0 <= i < |samples| && samples[i].ok
  {
    var n := |samples| - 1;
    if !samples[n].ok {
      SomeAnswer(samples[..n]);
      var i :| 0 <= i < n && samples[..n][i].ok;
      assert samples[i].ok;
    }
  }

  // ---- What the limiter asks of a cleaned round ----

  function FastestFrom(s: seq<Sample>, best: string, ms: int): string {
    if s == [] then best
    else if s[0].ok && (best == "" || s[0].ms < ms) then FastestFrom(s[1..], s[0].ip, s[0].ms)
    else FastestFrom(s[1..], best, ms)
  }

  /** The fastest answering address, "" when none answered. */
  function Winner(s: seq<Sample>): string {
    FastestFrom(s, "", 0)
  }

  method Fastest(s: seq<Sample>) returns (best: string)
    ensures best == Winner(s)
  {
    var ms := 0;
    best := "";
    var i := 0;
    while i < |s|
      invariant 0 <= i <= |s|
      invariant FastestFrom(s[i..], best, ms) == Winner(s)
    {
      var x := s[i];
      assert s[i..][1..] == s[i + 1..];
      if x.ok && (best == "" || x.ms < ms) {
        best, ms := x.ip, x.ms;
      }
      i := i + 1;
    }
  }

  /** w is the first of the fastest answers in s. */
  ghost predicate FirstFastest(s: seq<Sample>, w: int) {
    && 0 <= w < |s| && s[w].ok
    && (forall j :: 0 <= j < w && s[j].ok ==> s[w].ms < s[j].ms)
    && (forall j :: w <= j < |s| && s[j].ok ==> s[w].ms <= s[j].ms)
  }

  lemma {:induction false} FastestFromIsFirst(s: seq<Sample>, best: string, ms: int)
    requires forall i :: 0 <= i < |s| ==> s[i].ip != ""
    ensures var ip := FastestFrom(s, best, ms);
            || (ip == best && forall i :: 0 <= i < |s| && s[i].ok ==> best != "" && ms <= s[i].ms)
            || exists w :: FirstFastest(s, w) && s[w].ip == ip && (best == "" || s[w].ms < ms)
  {
    if s != [] {
      var rest := s[1..];
      assert forall i :: 0 <= i < |rest| ==> rest[i] == s[i + 1];
      var take := s[0].ok && (best == "" || s[0].ms < ms);
      var b := if take then s[0].ip else best;
      var m := if take then s[0].ms else ms;
      FastestFromIsFirst(rest, b, m);
      var ip := FastestFrom(s, best, ms);
      assert ip == FastestFrom(rest, b, m);
      if w :| FirstFastest(rest, w) && rest[w].ip == ip && (b == "" || rest[w].ms < m) {
        LaterFastest(s, w, best, ms);
        assert s[w + 1].ip == ip;
      } else if take {
        HeadFastest(s);
      }
    }
  }

  lemma LaterFastest(s: seq<Sample>, w: int, best: string, ms: int)
    requires s != [] && FirstFastest(s[1..], w)
    requires s[0].ok ==> if best == "" || s[0].ms < ms then s[1..][w].ms < s[0].ms else s[1..][w].ms < ms
    requires s[0].ok && best != "" ==> s[1..][w].ms < ms
    ensures FirstFastest(s, w + 1)
  {
    assert forall j :: 0 <= j < |s| - 1 ==> s[1..][j] == s[j + 1];
    assert forall j :: 1 <= j < |s| ==> s[j] == s[1..][j - 1];
  }

  lemma HeadFastest(s: seq<Sample>)
    requires s != [] && s[0].ok && forall i :: 0 <= i < |s[1..]| && s[1..][i].ok ==> s[0].ms <= s[1..][i].ms
    ensures FirstFastest(s, 0)
  {
    assert forall j :: 1 <= j < |s| ==> s[j] == s[1..][j - 1];
  }

  /** The winner of a round of named addresses: none exactly when nothing answered,
      otherwise the earliest of the quickest. */
  lemma WinnerIsFirstFastest(s: seq<Sample>)
    requires forall i :: 0 <= i < |s| ==> s[i].ip != ""
    ensures Winner(s) == "" <==> forall i :: 0 <= i < |s| ==> !s[i].ok
    ensures Winner(s) != "" ==> exists w :: FirstFastest(s, w) && s[w].ip == Winner(s)
  {
    FastestFromIsFirst(s, "", 0);
  }

  /** A round that passes cleaning always has a winner, so the limiter's count of
      equal winners is never a count of silences. */
  lemma CleanRoundHasWinner(r: Report, candidates: seq<string>, t: TextRules)
    requires !t.isIPv4("")
    requires CleanSpec(r, candidates, t).Ok?
    ensures var s := CleanSpec(r, candidates, t).value;
            && Winner(s) != "" && Winner(s) in candidates
            && DistinctIps(s) && |s| <= MAX_RESULTS && 2 * Failures(s) <= |s|
  {
    var read := if |r.results| <= MAX_RESULTS then r.results else r.results[..MAX_RESULTS];
    KeptIsClean(read, candidates, t);
    var s := CleanSpec(r, candidates, t).value;
    SomeAnswer(s);
    WinnerIsFirstFastest(s);
    var w :| FirstFastest(s, w) && s[w].ip == Winner(s);
    assert s[w].ip in candidates;
  }

  /** The sample a client's current address is judged by: its last mention. */
  ghost predicate JudgedBy(current: string, s: seq<Sample>, k: int) {
    0 <= k < |s| && s[k].ip == current && forall j :: k < j < |s| ==> s[j].ip != current
  }

  /** Some answer beats ms by both 150 ms and 30%. */
  ghost predicate ClearlyBeaten(ms: int, s: seq<Sample>) {
    exists j :: 0 <= j < |s| && s[j].ok && ms - s[j].ms >= 150 && ms as real >= 1.3 * (s[j].ms as real)
  }

  /** The address in use failed this round, or an answer clearly beats it. */
  ghost predicate NotBest(current: string, s: seq<Sample>) {
    current != "" && exists k :: JudgedBy(current, s, k) && (!s[k].ok || ClearlyBeaten(s[k].ms, s))
  }

  method CurrentNotBest(current: string, s: seq<Sample>) returns (res: bool)
    ensures res == NotBest(current, s)
  {
    if current == "" {
      return false;
    }
    var cur: Option<nat> := None;
    var i := 0;
    while i < |s|
      invariant 0 <= i <= |s|
      invariant cur.None? ==> forall j :: 0 <= j < i ==> s[j].ip != current
      invariant cur.Some? ==> cur.value < i && s[cur.value].ip == current && forall j :: cur.value < j < i ==> s[j].ip != current
    {
      if s[i].ip == current {
        cur := Some(i);
      }
      i := i + 1;
    }
    if cur.None? {
      return false;
    }
    var k := cur.value;
    assert JudgedBy(current, s, k);
    assert forall k' :: JudgedBy(current, s, k') ==> k' == k;
    if !s[k].ok {
      return true;
    }
    var best := s[k].ms;
    i := 0;
    while i < |s|
      invariant 0 <= i <= |s|
      invariant best <= s[k].ms
      invariant best == s[k].ms || exists j :: 0 <= j < i && s[j].ok && s[j].ms == best
      invariant forall j :: 0 <= j < i && s[j].ok ==> best <= s[j].ms
    {
      if s[i].ok && s[i].ms < best {
        best := s[i].ms;
      }
      i := i + 1;
    }
    return s[k].ms - best >= 150 && s[k].ms as real >= 1.3 * (best as real);
  }
}
